/** A user's input buffer (src/comm.c): bytes are read, filtered and stored, and commands are taken out. */
module CommandInput {
  import opened Basics
  import opened Bytecode
  import opened TelnetFilter
  import opened CommandLines

  const MAX_TEXT: nat := 2048

  /** A buffer that holds more bytes than this is thrown away before the next read. */
  const FULL: nat := 1663

  /** The beginning of a command is never longer. */
  const LONGEST: nat := 1791

  predicate HasCommand(p: seq<Byte>) { Commands(p) != [] }

  /** The first zero behind the leading ones decides whether there is a command. */
  lemma {:induction false} CommandIsThere(s: seq<Byte>, a: nat, b: nat)
    requires a <= b <= |s| && (forall i :: 0 <= i < a ==> s[i] == 0) && (forall i :: a <= i < b ==> s[i] != 0)
    requires (a < |s| ==> a < b) && (b == |s| || s[b] == 0)
    ensures
      if b == |s| then Commands(s) == [] && Tail(s) == s[a..]
      else Commands(s) == [s[a..b]] + Commands(s[b + 1..]) && Tail(s) == Tail(s[b + 1..])
  {
    hide Commands, Tail;
    SkipZeros(s, a);
    var t := s[a..];
    if b < |s| {
      NextPiece(t, b - a);
      assert t[..b - a] == s[a..b] && t[b - a + 1..] == s[b + 1..];
    } else {
      OnlyPiece(t);
    }
  }

  lemma {:induction false} OnlyPiece(t: seq<Byte>)
    requires 0 !in t
    ensures Commands(t) == [] && Tail(t) == t
  {
    FirstZeroIs(t, |t|);
  }

  /** s[a..b] has no zero in it and ends at one, or at the end. */
  predicate Piece(s: seq<Byte>, a: int, b: int) {
    0 <= a <= b <= |s| && (forall i :: a <= i < b ==> s[i] != 0) && (b < |s| ==> s[b] == 0)
  }

  /** s[a..b] is nothing but zeros, up to the first other byte or the end. */
  predicate Nulls(s: seq<Byte>, a: int, b: int) {
    0 <= a <= b <= |s| && (forall i :: a <= i < b ==> s[i] == 0) && (b < |s| ==> s[b] != 0)
  }

  /** What has come in: all bytes, the data among them that was not thrown away, and the commands that were
      handed out since. */
  datatype History = History(read: seq<Byte>, data: seq<Byte>, given: seq<seq<Byte>>, flushes: nat)

  function Flushed(h: History): History { h.(data := [], given := [], flushes := h.flushes + 1) }

  /** A read throws away a buffer that is too full. */
  function Emptied(h: History, pending: seq<Byte>): History { if |pending| > FULL then Flushed(h) else h }

  function Kept(pending: seq<Byte>): seq<Byte> { if |pending| > FULL then [] else pending }

  /** A third of the bytes behind `end`: a byte that is read may take three. */
  function Third(end: nat): nat
    requires end < MAX_TEXT
  {
    (MAX_TEXT - end - 1) / 3
  }

  /** How much is read when the text ends at `end` and has `len` bytes. */
  function Space(end: nat, len: nat): nat
    requires len <= end < MAX_TEXT
  {
    if Third(end) >= MAX_TEXT / 16 then Third(end)
    else if Third(len) >= MAX_TEXT / 16 then Third(len)
    else MAX_TEXT / 3
  }

  function Received(h: History, t: Telnet, bytes: seq<Byte>): History
    requires Sound(t)
  {
    h.(read := h.read + bytes, data := h.data + OnBytes(t, bytes).data)
  }

  /** The commands that were handed out and those in the buffer are the commands of the data. */
  predicate Accounted(h: History, pending: seq<Byte>) {
    var s := Stored(h.data, false);
    ResolvedAll(Commands(s)) == h.given + ResolvedAll(Commands(pending)) && Tail(s) == Tail(pending)
  }

  predicate Known(h: History, start: Telnet, t: Telnet, replies: seq<Reply>)
    requires Sound(start)
  {
    var e := OnBytes(start, h.read);
    e.t == t && e.replies == replies && (h.flushes == 0 ==> e.data == h.data)
  }

  /** What holds between any two calls. */
  predicate Consistent(h: History, start: Telnet, t: Telnet, replies: seq<Reply>, pending: seq<Byte>, single: bool, flag: bool)
    requires Sound(start)
  {
    && Known(h, start, t, replies) && |Tail(pending)| <= LONGEST
    && (!single ==> Accounted(h, pending) && (HasCommand(pending) ==> flag))
  }

  /** A read loses commands exactly when it finds more than FULL bytes and a complete command among them. */
  lemma {:induction false} FlushLosesCommands(h: History, pending: seq<Byte>)
    requires Accounted(h, pending)
    ensures
      var all := ResolvedAll(Commands(Stored(h.data, false)));
      && (all == h.given + ResolvedAll(Commands(Kept(pending))) <==> |pending| <= FULL || !HasCommand(pending))
      && (|pending| > FULL ==> |all| == |h.given| + |Commands(pending)|)
  {
    assert Commands([]) == [];
    hide Commands, Tail, Stored, Resolved;
    var lost := ResolvedAll(Commands(pending));
    assert |lost| == |Commands(pending)|;
    if |pending| > FULL { assert h.given + [] == h.given; }
  }

  lemma {:induction false} ResolvedJoin(a: seq<seq<Byte>>, b: seq<seq<Byte>>)
    ensures ResolvedAll(a + b) == ResolvedAll(a) + ResolvedAll(b)
  {}

  /** Reading keeps the account. */
  lemma {:induction false} ReadIsAccounted(h: History, pending: seq<Byte>, more: seq<Byte>)
    requires Accounted(h, pending)
    ensures Accounted(h.(data := h.data + more), pending + Stored(more, false))
  {
    var s, out := Stored(h.data, false), Stored(more, false);
    StoredSplits(h.data, more, false);
    CommandsAppend(s, out);
    CommandsAppend(pending, out);
    var next := Commands(Tail(s) + out);
    ResolvedJoin(Commands(s), next);
    ResolvedJoin(Commands(pending), next);
    hide Commands, Tail, Stored, ResolvedAll;
  }

  lemma {:induction false} ReadIsKnown(h: History, start: Telnet, t: Telnet, replies: seq<Reply>, bytes: seq<Byte>)
    requires Sound(start) && Sound(t) && Known(h, start, t, replies)
    ensures
      var e := OnBytes(t, bytes);
      Known(Received(h, t, bytes), start, e.t, replies + e.replies)
  {
    ReadsDoNotMatter(start, h.read, bytes);
    hide OnBytes;
  }

  lemma {:induction false} ReadIsConsistent(h: History, start: Telnet, t: Telnet, replies: seq<Reply>, pending: seq<Byte>,
                                            single: bool, flag: bool, bytes: seq<Byte>, flag': bool)
    requires Sound(start) && Sound(t) && Consistent(h, start, t, replies, pending, single, flag)
    requires |Tail(pending)| + |bytes| <= LONGEST
    ensures
      var e := OnBytes(t, bytes);
      var p := pending + Stored(e.data, single);
      (!single && HasCommand(p) ==> flag') ==>
        Consistent(Received(h, t, bytes), start, e.t, replies + e.replies, p, single, flag')
  {
    hide OnBytes, Known, HasCommand, Stored, Tail;
    var e := OnBytes(t, bytes);
    ReadIsKnown(h, start, t, replies, bytes);
    TailGrows(pending, e.data, single);
    if !single { ReadIsAccounted(h, pending, e.data); }
  }

  lemma {:induction false} FlushIsConsistent(h: History, start: Telnet, t: Telnet, replies: seq<Reply>, pending: seq<Byte>,
                                             single: bool, flag: bool)
    requires Sound(start) && Consistent(h, start, t, replies, pending, single, flag)
    ensures Consistent(Flushed(h), start, t, replies, [], single, flag)
  {}

  /** Handing out a command keeps the account. */
  lemma {:induction false} TakeIsAccounted(h: History, pending: seq<Byte>, first: seq<Byte>, rest: seq<Byte>)
    requires Accounted(h, pending)
    requires Commands(pending) == [first] + Commands(rest) && Tail(pending) == Tail(rest)
    ensures Accounted(Given(h, Resolved(first)), rest)
  {
    FirstResolved(first, Commands(rest));
    hide Commands, Tail, Stored, ResolvedAll, Resolved;
    assert h.given + ([Resolved(first)] + ResolvedAll(Commands(rest))) == (h.given + [Resolved(first)]) + ResolvedAll(Commands(rest));
  }

  class Interactive {
    const single: bool                 // SINGLE_CHAR
    const text: array<Byte>
    var textStart: nat
    var textEnd: nat
    var state: Ts
    var sbBuf: seq<Byte>
    var sbPos: nat
    var talksTelnet: bool
    ghost var overrun: bool            // a byte was written behind sb_buf
    var commandInBuffer: bool          // CMD_IN_BUF
    var replies: seq<Reply>            // what was sent back or told to the object
    ghost const start: Telnet
    ghost var history: History

    ghost function Filter(): Telnet
      reads `state, `sbBuf, `sbPos, `talksTelnet, `overrun
    {
      Telnet(state, sbBuf, sbPos, talksTelnet, overrun)
    }

    ghost function Pending(): seq<Byte>
      requires textStart <= textEnd <= text.Length
      reads `textStart, `textEnd, text
    {
      text[textStart..textEnd]
    }

    ghost predicate Shape()
      reads `state, `sbBuf, `sbPos, `talksTelnet, `overrun, `textStart, `textEnd, text
    {
      && text.Length == MAX_TEXT && textStart <= textEnd < MAX_TEXT && Sound(Filter()) && Sound(start)
      && (single && textEnd > 0 ==> text[textEnd] == 0)
    }

    ghost predicate Valid()
      reads this, text
    {
      Shape() && Consistent(history, start, Filter(), replies, Pending(), single, commandInBuffer)
    }

    constructor (single: bool)
      ensures Valid() && this.single == single && fresh(text) && history == History([], [], [], 0)
      ensures Pending() == [] && textEnd == 0 && Filter().state.InData? && Sound(Filter())
    {
      this.single := single;
      text := new Byte[MAX_TEXT](_ => 0);
      textStart, textEnd := 0, 0;
      state, sbBuf, sbPos, talksTelnet, overrun := InData, seq(SB_SIZE, _ => 0), 0, false, false;
      commandInBuffer, replies := false, [];
      start := Telnet(InData, seq(SB_SIZE, _ => 0), 0, false, false);
      history := History([], [], [], 0);
      new;
      assert Pending() == [];
    }

    /** One turn of the loop of copy_chars; `to` is where the next byte goes. */
    method CopyChar(b: Byte, to0: nat) returns (to: nat)
      requires Sound(Filter()) && text.Length == MAX_TEXT && to0 + 3 <= MAX_TEXT
      modifies `state, `sbBuf, `sbPos, `talksTelnet, `overrun, `replies, text
      ensures
        var e := OnByte(old(Filter()), b);
        && Filter() == e.t && replies == old(replies) + e.replies
        && to == to0 + |Stored(e.data, single)| <= to0 + 3 && text[..to] == old(text[..to0]) + Stored(e.data, single)
    {
      to := to0;
      match state {
        case InData =>
          if b == IAC { state := InIac; } else { to := DataChar(b, to); }
        case InSbIac =>
          if b == IAC {
            if sbPos < SB_SIZE {
              sbBuf := sbBuf[sbPos := IAC];
              sbPos := sbPos + 1;
              state := InSb;
            }
          } else if b == SE {
            if sbPos < SB_SIZE { sbBuf := sbBuf[sbPos := 0]; } else { overrun := true; }
            replies := replies + [Negotiated(sbBuf)];
            state := InData;
          } else {
            to := IacChar(b, to);
          }
        case InIac => to := IacChar(b, to);
        case InDo =>
          if b == TELOPT_TM { replies := replies + [TimingReply]; }
          state := InData;
        case InWill =>
          talksTelnet := true;
          if b == TELOPT_TTYPE { replies := replies + [TerminalQuery]; }
          state := InData;
        case InDont =>
          talksTelnet := true;
          state := InData;
        case InWont =>
          talksTelnet := true;
          state := InData;
        case InSb =>
          if b == IAC {
            state := InSbIac;
          } else if sbPos < SB_SIZE {
            sbBuf := sbBuf[sbPos := if b == 0 then QUOTED_ZERO else b];
            sbPos := sbPos + 1;
          }
      }
    }

    /** A byte of data. */
    method DataChar(b: Byte, to0: nat) returns (to: nat)
      requires text.Length == MAX_TEXT && to0 + 3 <= MAX_TEXT
      modifies text
      ensures to == to0 + |Stored([b], single)| <= to0 + 3 && text[..to] == old(text[..to0]) + Stored([b], single)
    {
      StoredOne(b, single);
      to := to0;
      if b == RETURN {
        if single { to := Put(to, b); }
      } else if b == NEWLINE {
        if single {
          to := Put(to, b);
        } else {
          to := Put(to, SPACE);
          to := Put(to, BACKSPACE);
          to := Put(to, 0);
        }
      } else {
        to := Put(to, b);
      }
    }

    /** *to++ = b */
    method Put(to: nat, b: Byte) returns (next: nat)
      requires to < text.Length
      modifies text
      ensures next == to + 1 && text[..next] == old(text[..to]) + [b]
    {
      text[to] := b;
      next := to + 1;
    }

    /** The cases of a byte behind IAC, in the middle of a suboption too. */
    method IacChar(b: Byte, to0: nat) returns (to: nat)
      requires Sound(Filter()) && text.Length == MAX_TEXT && to0 + 3 <= MAX_TEXT && (b == IAC ==> state.InIac?)
      modifies `state, `sbPos, `replies, text
      ensures
        var e := OnIac(old(Filter()), b);
        && Filter() == e.t && replies == old(replies) + e.replies
        && to == to0 + |Stored(e.data, single)| <= to0 + 3 && text[..to] == old(text[..to0]) + Stored(e.data, single)
    {
      to := to0;
      StoredOne(IAC, single);
      if b == IAC { to := Put(to, IAC); state := InData; }
      else if b == DO { state := InDo; }
      else if b == DONT { state := InDont; }
      else if b == WILL { state := InWill; }
      else if b == WONT { state := InWont; }
      else if b == BREAK { replies := replies + [BreakReply]; }
      else if b == IP { replies := replies + [InterruptReply]; }
      else if b == AYT { replies := replies + [YesReply]; }
      else if b == AO { replies := replies + [AbortReply]; }
      else if b == SB { state, sbPos := InSb, 0; }
      else { state := InData; }
    }

    /** copy_chars: stores the data among the bytes behind the others. */
    method CopyChars(from: seq<Byte>, to0: nat) returns (n: nat)
      requires Sound(Filter()) && text.Length == MAX_TEXT && to0 + 3 * |from| <= MAX_TEXT
      modifies `state, `sbBuf, `sbPos, `talksTelnet, `overrun, `replies, text
      ensures
        var e := OnBytes(old(Filter()), from);
        && Filter() == e.t && replies == old(replies) + e.replies
        && n == |Stored(e.data, single)| && to0 + n <= MAX_TEXT && text[..to0 + n] == old(text[..to0]) + Stored(e.data, single)
    {
      hide Copied;
      ghost var t, r0, before := Filter(), replies, text[..to0];
      var i, to := 0, to0;
      NothingCopied(t, from, single, r0, before);
      while i < |from|
        invariant 0 <= i <= |from| && to0 <= to <= to0 + 3 * i && Sound(Filter())
        invariant Copied(t, from, i, single, r0, before, Filter(), replies, text[..to])
      {
        ghost var t1, r1, text1 := Filter(), replies, text[..to];
        to := CopyChar(from[i], to);
        OneCopied(t, from, i, single, r0, before, t1, r1, text1);
        i := i + 1;
      }
      AllCopied(t, from, single, r0, before, Filter(), replies, text[..to]);
      n := to - to0;
    }

    /** Moves the pending bytes and the zero behind them to the front. */
    method MoveDown()
      requires Shape()
      modifies text, `textStart, `textEnd
      ensures Shape() && textStart == 0 && textEnd == |old(Pending())| && Pending() == old(Pending())
    {
      hide Sound;
      ghost var before := text[..];
      var l, k := textEnd - textStart, 0;
      while k <= l
        invariant 0 <= k <= l + 1 && textStart == old(textStart) && textEnd == old(textEnd)
        invariant forall i :: 0 <= i < k ==> text[i] == before[textStart + i]
        invariant forall i :: k <= i < MAX_TEXT ==> text[i] == before[i]
      {
        text[k] := text[textStart + k];
        k := k + 1;
      }
      SameBytes(text[..], before, textStart, l);
      textEnd := l;
      textStart := 0;
    }

    /** get_user_data: the socket has the bytes of `socket` ready, and none means that the read would block.
        Returns how many of them were read.  A buffer that is too full is thrown away first. */
    method GetUserData(socket: seq<Byte>) returns (n: nat)
      requires Valid()
      modifies this, text
      ensures Valid() && n <= |socket| && (socket != [] ==> n > 0)
      ensures old(|Pending()| <= textEnd < MAX_TEXT)
      ensures n == Least(|socket|, old(Space(textEnd, |Pending()|)))
      ensures Filter() == OnBytes(old(Filter()), socket[..n]).t
      ensures history == Received(Emptied(old(history), old(Pending())), old(Filter()), socket[..n])
      ensures Pending() == Kept(old(Pending())) + Stored(OnBytes(old(Filter()), socket[..n]).data, single)
    {
      hide Shape, Filter, Pending, Consistent, HasCommand, Tail, Commands, Resolved, Stored, StoredByte, OnBytes, OnByte, Joined, Sound, Known, Accounted, Received, Flushed, Emptied, Kept, WithoutNulls, FirstOf, Behind, FirstZero, Given, Piece, Nulls, Space;
      ShapeParts();
      var space := MakeRoom();
      n := if |socket| < space then |socket| else space;
      if n == 0 {
        ShapeParts();
        NothingRead(history, Filter(), Pending(), single, socket);
        return;
      }
      Receive(socket[..n]);
    }

    /** What get_user_data does with the bytes of a read. */
    method Receive(bytes: seq<Byte>)
      requires Valid() && textEnd + 3 * |bytes| < MAX_TEXT && |Tail(Pending())| + |bytes| <= LONGEST
      modifies this, text
      ensures Valid() && history == Received(old(history), old(Filter()), bytes)
      ensures Pending() == old(Pending()) + Stored(OnBytes(old(Filter()), bytes).data, single)
      ensures Filter() == OnBytes(old(Filter()), bytes).t
    {
      ghost var h, p, t, r, flag := history, Pending(), Filter(), replies, commandInBuffer;
      hide Shape, Filter, Pending, Consistent, HasCommand, Tail, Commands, Resolved, Stored, StoredByte, OnBytes, OnByte, Joined, Sound, Known, Accounted, Flushed, Emptied, Kept, WithoutNulls, FirstOf, Behind, FirstZero, Given, Piece, Nulls;
      ShapeParts();
      history := Received(h, t, bytes);
      StoreAndMark(bytes);
      ReadIsConsistent(h, start, t, r, p, single, flag, bytes, commandInBuffer);
    }

    lemma {:induction false} ShapeParts()
      requires Shape()
      ensures Sound(Filter()) && Sound(start) && textStart <= textEnd <= text.Length == MAX_TEXT
      ensures |Pending()| == textEnd - textStart
    {}

    /** Sets the flag if new data completes a command. */
    method MarkCommand()
      requires Shape()
      modifies `commandInBuffer
      ensures !single && HasCommand(Pending()) ==> commandInBuffer
    {
      hide *;
      var found := CmdInBuf();
      if found { commandInBuffer := true; }
    }

    method StoreAndMark(bytes: seq<Byte>)
      requires Shape() && textEnd + 3 * |bytes| < MAX_TEXT
      modifies `state, `sbBuf, `sbPos, `talksTelnet, `overrun, `replies, `textEnd, `commandInBuffer, text
      ensures
        var e := OnBytes(old(Filter()), bytes);
        && Shape() && Filter() == e.t && replies == old(replies) + e.replies
        && Pending() == old(Pending()) + Stored(e.data, single)
      ensures !single && HasCommand(Pending()) ==> commandInBuffer
    {
      hide *;
      StoreBytes(bytes);
      MarkCommand();
    }

    method StoreBytes(bytes: seq<Byte>)
      requires Shape() && textEnd + 3 * |bytes| < MAX_TEXT
      modifies `state, `sbBuf, `sbPos, `talksTelnet, `overrun, `replies, `textEnd, text
      ensures
        var e := OnBytes(old(Filter()), bytes);
        && Shape() && Filter() == e.t && replies == old(replies) + e.replies
        && Pending() == old(Pending()) + Stored(e.data, single)
    {
      hide Consistent, HasCommand, Tail, Commands, Resolved, Stored, StoredByte, OnBytes, OnByte, Joined, Sound, Known, Accounted, Received, Flushed, Emptied, Kept, WithoutNulls, FirstOf, Behind, FirstZero, Given, Piece, Nulls;
      ghost var p, t := Pending(), Filter();
      ghost var e := OnBytes(t, bytes);
      var k := CopyChars(bytes, textEnd);
      ghost var middle := text[..textEnd + k];
      Between(middle, textStart, textEnd, p, Stored(e.data, single));
      textEnd := textEnd + k;
      text[textEnd] := 0;
      assert text[..textEnd] == middle;
    }

    /** The space for the next read; three bytes of text may be needed for one that is read. */
    method MakeRoom() returns (space: nat)
      requires Valid()
      modifies text, `textStart, `textEnd, `history
      ensures Valid() && space > 0 && textEnd + 3 * space < MAX_TEXT && |Pending()| <= textEnd && |Tail(Pending())| + space <= LONGEST
      ensures Pending() == Kept(old(Pending())) && history == Emptied(old(history), old(Pending()))
      ensures Filter() == old(Filter())
      ensures old(|Pending()| <= textEnd < MAX_TEXT) && space == old(Space(textEnd, |Pending()|))
    {
      hide Shape, Filter, Pending, Consistent, HasCommand, Tail, Commands, Resolved, Stored, StoredByte, OnBytes, OnByte, Joined, Sound, Known, Accounted, Received, Flushed, WithoutNulls, FirstOf, Behind, FirstZero, Given, Piece, Nulls;
      ShapeParts();
      ghost var p := Pending();
      RoomBounds(p);
      space := SpaceBehind();
      if space < MAX_TEXT / 16 {
        MoveDown();
        space := SpaceBehind();
        if space < MAX_TEXT / 16 {
          Flush();
          space := MAX_TEXT / 3;
        }
      }
    }

    /** A third of the free bytes. */
    method SpaceBehind() returns (space: nat)
      requires textEnd < MAX_TEXT
      ensures space == Third(textEnd)
      ensures textEnd + 3 * space < 2048 <= textEnd + 3 * space + 3 && (space < 128 <==> textEnd > 1663)
    {
      space := (MAX_TEXT - textEnd - 1) / 3;
    }

    /** What the size of the buffer means for the space. */
    lemma {:induction false} RoomBounds(p: seq<Byte>)
      requires Shape() && p == Pending()
      ensures |p| == textEnd - textStart <= textEnd < MAX_TEXT == 2048 && |Tail(p)| <= |p| && Tail([]) == [] && FULL == 1663
      ensures LONGEST == 1791 && MAX_TEXT / 16 == 128 && MAX_TEXT / 3 == 682
    {}

    /** Almost 2k of data without a newline are thrown away. */
    method Flush()
      requires Valid()
      modifies `textStart, `textEnd, `history
      ensures Valid() && Pending() == [] && textEnd == 0 && history == Flushed(old(history))
    {
      hide Shape, Filter, Pending, Consistent, HasCommand, Tail, Commands, Resolved, Stored, StoredByte, OnBytes, OnByte, Joined, Sound, Known, Accounted, Received, Flushed, Emptied, Kept, WithoutNulls, FirstOf, Behind, FirstZero, Given, Piece, Nulls;
      ShapeParts();
      FlushIsConsistent(history, start, Filter(), replies, Pending(), single, commandInBuffer);
      Clear();
      history := Flushed(history);
    }

    method Clear()
      requires Shape()
      modifies `textStart, `textEnd
      ensures Shape() && Pending() == [] && textEnd == 0
    {
      textStart, textEnd := 0, 0;
    }

    /** cmd_in_buf */
    method CmdInBuf() returns (found: bool)
      requires Shape()
      ensures !single ==> found == HasCommand(Pending())
      ensures single ==> found == (WithoutNulls(Pending()) != [])
    {
      hide *;
      ShapeParts();
      var p := SkipNulls(textStart);
      if single { NullsSkipped(Pending(), p - textStart); return p < textEnd; }
      if p >= textEnd {
        NoPiece(Pending(), p - textStart);
        return false;
      }
      var q := SkipCommand(p);
      FirstPiece(Pending(), p - textStart, q - textStart);
      return q < textEnd;
    }

    /** Skips null input. */
    method SkipNulls(from: nat) returns (p: nat)
      requires Shape() && textStart <= from <= textEnd
      ensures from <= p <= textEnd && Nulls(Pending(), from - textStart, p - textStart)
    {
      p := from;
      while p < textEnd && text[p] == 0
        invariant from <= p <= textEnd && forall i :: from <= i < p ==> text[i] == 0
      {
        p := p + 1;
      }
    }

    /** Finds the end of a command. */
    method SkipCommand(from: nat) returns (p: nat)
      requires Shape() && textStart <= from <= textEnd
      ensures from <= p <= textEnd && Piece(Pending(), from - textStart, p - textStart)
    {
      p := from;
      while p < textEnd && text[p] != 0
        invariant from <= p <= textEnd && forall i :: from <= i < p ==> text[i] != 0
      {
        p := p + 1;
      }
    }

    /** first_cmd_in_buf: skips null input and says whether there is a command. */
    method FirstCmdInBuf() returns (found: bool)
      requires Shape() && |Tail(WithoutNulls(Pending()))| <= LONGEST
      modifies text, `textStart, `textEnd
      ensures Shape() && Pending() == WithoutNulls(old(Pending()))
      ensures found == if single then Pending() != [] else HasCommand(Pending())
      ensures found ==> Pending() != [] && Pending()[0] != 0
    {
      hide *;
      ShapeParts();
      NullsAreGone(Pending());
      SkipNullInput();
      ShapeParts();
      ghost var pending := Pending();
      if textStart >= textEnd {
        EmptyHasNone(pending, textEnd - textStart);
        return false;
      }
      if single { return true; }
      var q := SkipCommand(textStart);
      CommandEnds(pending, q - textStart);
      if q < textEnd { return true; }
      CopyDown();
      RoomBounds(Pending());
      if textEnd > MAX_TEXT - 2 { assert false; }   // a partial command is never so long
      return false;
    }

    /** The beginning of first_cmd_in_buf. */
    method SkipNullInput()
      requires Shape()
      modifies text, `textStart, `textEnd
      ensures Shape() && Pending() == WithoutNulls(old(Pending()))
    {
      ghost var pending := Pending();
      var p := SkipNulls(textStart);
      NullsSkipped(pending, p - textStart);
      hide *;
      ShapeParts();
      SetStart(p);
    }

    /** Moves the mark, or clears the buffer when nothing is left. */
    method SetStart(p: nat)
      requires Shape() && textStart <= p <= textEnd
      modifies text, `textStart, `textEnd
      ensures Shape() && Pending() == old(Pending())[p - old(textStart)..]
    {
      if p < textEnd {
        textStart := p;
      } else {
        textStart, textEnd := 0, 0;
        text[0] := 0;
      }
    }

    /** Moves a partial command to the start; the zero behind it stays where it was. */
    method CopyDown()
      requires !single && Shape()
      modifies text, `textStart, `textEnd
      ensures Shape() && Pending() == old(Pending()) && textStart == 0
    {
      ghost var before := text[..];
      var p, q := textStart, 0;
      while p < textEnd
        invariant textStart == old(textStart) && textEnd == old(textEnd) && p == textStart + q && p <= textEnd
        invariant forall i :: 0 <= i < q ==> text[i] == before[textStart + i]
        invariant forall i :: q <= i < MAX_TEXT ==> text[i] == before[i]
      {
        text[q] := text[p];
        q, p := q + 1, p + 1;
      }
      textEnd := textEnd - textStart;
      textStart := 0;
      assert text[..textEnd] == before[old(textStart)..old(textEnd)];
    }

    /** next_cmd_in_buf: moves the mark to the next command, or clears the buffer. */
    method NextCmdInBuf()
      requires Shape()
      modifies `textStart, `textEnd, text
      ensures Shape() && Pending() == Behind(old(Pending()))
    {
      ghost var pending := Pending();
      hide *;
      ShapeParts();
      var p := SkipCommand(textStart);
      var q := SkipNulls(p);
      RestOfBuffer(pending, p - textStart, q - textStart);
      SetStart(q);
    }

    /** The part of get_user_command that concerns one user.  With a complete command in the buffer the
        user gets it. */
    method TakeCommand() returns (cmd: Option<seq<Byte>>)
      requires Valid()
      modifies this, text
      ensures Valid()
      ensures !single ==> (cmd.Some? <==> HasCommand(old(Pending())))
      ensures cmd.Some? ==> cmd.value == Resolved(FirstOf(WithoutNulls(old(Pending())))) && history == Given(old(history), cmd.value)
      ensures cmd.Some? ==> Pending() == Behind(WithoutNulls(old(Pending())))
      ensures cmd.None? ==> history == old(history) && !commandInBuffer
    {
      hide Shape, Filter, Pending, Consistent, HasCommand, Tail, Commands, Resolved, Stored, StoredByte, OnBytes, OnByte, Joined, Sound, Known, Accounted, Received, Flushed, Emptied, Kept, WithoutNulls, FirstOf, Behind, FirstZero, Given, Piece, Nulls;
      ShapeParts();
      SkippedIsConsistent(history, start, Filter(), replies, Pending(), single, commandInBuffer);
      Flagged(history, start, Filter(), replies, Pending(), single, commandInBuffer);
      if !commandInBuffer { return None; }
      var found := FirstCmdInBuf();
      ShapeParts();
      if !found {
        commandInBuffer := false;
        Unflagged(history, start, Filter(), replies, Pending(), single, true);
        return None;
      }
      cmd := HandOut();
    }

    /** The first piece of the buffer ends with a zero. */
    lemma {:induction false} LineIsThere()
      requires Shape() && Pending() != [] && (single || FirstZero(Pending()) < |Pending()|)
      ensures LineAt(text[..], textStart, FirstOf(Pending()))
    {
      FirstIs(text[..], textStart, textEnd, Pending());
      hide FirstZero, FirstOf;
      ghost var t := text[..];
      assert forall i :: 0 <= i < text.Length ==> text[i] == t[i];
    }

    /** The rest of it, when there is a command. */
    method HandOut() returns (cmd: Option<seq<Byte>>)
      requires Valid() && Pending() != [] && Pending()[0] != 0 && (single || HasCommand(Pending())) && commandInBuffer
      modifies this, text
      ensures Valid() && cmd == Some(Resolved(FirstOf(old(Pending())))) && history == Given(old(history), cmd.value)
      ensures Pending() == Behind(old(Pending()))
    {
      hide Shape, Filter, Pending, Consistent, HasCommand, Tail, Commands, Resolved, Stored, StoredByte, OnBytes, OnByte, Joined, Sound, Known, Accounted, Received, Flushed, Emptied, Kept, WithoutNulls, FirstOf, Behind, FirstZero, Given, Piece, Nulls, LineAt;
      ShapeParts();
      ghost var h, p, flag := history, Pending(), commandInBuffer;
      EndsInside(p);
      LineIsThere();
      var line := TelnetNeg(text, textStart, FirstOf(p));
      cmd := Some(line);
      NextCmdInBuf();
      var more := CmdInBuf();
      if !more { commandInBuffer := false; }
      history := Given(history, line);
      TakeIsConsistent(h, start, Filter(), replies, p, single, flag, commandInBuffer);
    }
  }

  function Newlines(n: nat): seq<Byte> { seq(n, _ => NEWLINE) }

  lemma {:induction false} StoredNewlines(n: nat)
    ensures |Stored(Newlines(n), false)| == 3 * n && |Commands(Stored(Newlines(n), false))| == n
  {
    if n > 0 {
      StoredNewlines(n - 1);
      assert Newlines(n)[1..] == Newlines(n - 1);
      var line, rest := [SPACE, BACKSPACE, 0], Stored(Newlines(n - 1), false);
      assert Stored(Newlines(n), false) == line + rest;
      assert (line + rest)[..2] == [SPACE, BACKSPACE] && (line + rest)[3..] == rest;
      CommandIsThere(line + rest, 0, 2);
    }
  }

  /** Six hundred empty lines arrive in one read, and another one before any is handed out: the six hundred
      commands are lost. */
  method LoseCommands() returns (user: Interactive)
    ensures fresh(user) && fresh(user.text) && user.Valid() && !user.single
    ensures user.history == History(Newlines(601), [NEWLINE], [], 1)
    ensures user.Pending() == Stored([NEWLINE], false)
  {
    hide *;
    user := new Interactive(false);
    ghost var t := user.Filter();
    FloodFacts(t);
    var n := user.GetUserData(Newlines(600));
    assert user.history == History(Newlines(600), Newlines(600), [], 0) && user.Filter() == t;
    var m := user.GetUserData([NEWLINE]);
  }

  lemma {:induction false} FloodFacts(t: Telnet)
    requires t.state.InData? && Sound(t)
    ensures
      var lines, h0 := Newlines(600), History([], [], [], 0);
      var h1, p := History(lines, lines, [], 0), Stored(lines, false);
      && |lines| == 600 && lines[..600] == lines && OnBytes(t, lines) == Effect(t, lines, [])
      && Least(600, Space(0, 0)) == 600 && |p| == 1800 && Kept([]) + p == p
      && Received(Emptied(h0, []), t, lines) == h1
      && [NEWLINE][..1] == [NEWLINE] && OnBytes(t, [NEWLINE]) == Effect(t, [NEWLINE], [])
      && (forall end: nat :: 1800 <= end < MAX_TEXT ==> Least(1, Space(end, 1800)) == 1)
      && Kept(p) + Stored([NEWLINE], false) == Stored([NEWLINE], false)
      && Received(Emptied(h1, p), t, [NEWLINE]) == History(Newlines(601), [NEWLINE], [], 1)
  {
    hide Stored, OnBytes, Sound, Space, Emptied, Received, Least, Newlines;
    FloodedSpace();
    StoredNewlines(600);
    PlainBytes(t, Newlines(600));
    PlainBytes(t, [NEWLINE]);
    FloodedHistory(t, Stored(Newlines(600), false));
  }

  lemma {:induction false} FloodedSpace()
    ensures Least(600, Space(0, 0)) == 600
    ensures forall end: nat :: 1800 <= end < MAX_TEXT ==> Least(1, Space(end, 1800)) == 1
    ensures Newlines(600)[..600] == Newlines(600) && |Newlines(600)| == 600 && IAC !in Newlines(600)
  {}

  lemma {:induction false} FloodedHistory(t: Telnet, p: seq<Byte>)
    requires Sound(t) && |p| == 1800
    requires OnBytes(t, Newlines(600)).data == Newlines(600) && OnBytes(t, [NEWLINE]).data == [NEWLINE]
    ensures
      var lines, h0 := Newlines(600), History([], [], [], 0);
      var h1 := History(lines, lines, [], 0);
      Received(Emptied(h0, []), t, lines) == h1 && Received(Emptied(h1, p), t, [NEWLINE]) == History(Newlines(601), [NEWLINE], [], 1)
  {
    hide OnBytes, Sound;
    assert Newlines(600) + [NEWLINE] == Newlines(601);
  }

  lemma {:induction false} SameBytes(t: seq<Byte>, before: seq<Byte>, a: nat, n: nat)
    requires n <= |t| && a + n <= |before| && forall i :: 0 <= i < n ==> t[i] == before[a + i]
    ensures t[0..n] == before[a..a + n]
  {}

  /** The first piece of a buffer, and what is behind it. */
  function FirstOf(p: seq<Byte>): seq<Byte> { p[..FirstZero(p)] }

  function Behind(p: seq<Byte>): seq<Byte> { WithoutNulls(p[FirstZero(p)..]) }

  function Given(h: History, cmd: seq<Byte>): History { h.(given := h.given + [cmd]) }

  lemma {:induction false} FirstIs(text: seq<Byte>, a: nat, b: nat, p: seq<Byte>)
    requires a <= b <= |text| && p == text[a..b]
    ensures
      var n := FirstZero(p);
      && |FirstOf(p)| == n <= b - a && (forall i :: a <= i < a + n ==> text[i] == FirstOf(p)[i - a] != 0)
      && (n < |p| ==> text[a + n] == 0)
  {
    assert forall i :: a <= i < b ==> text[i] == p[i - a];
  }

  lemma {:induction false} ResolvedStart(line: seq<Byte>)
    ensures Resolved(line[..0]) == [] && line[..|line|] == line
  {}

  lemma {:induction false} ResolvedNext(line: seq<Byte>, k: nat, r: seq<Byte>)
    requires k < |line| && r == Resolved(line[..k])
    ensures
      var ch := line[k];
      Resolved(line[..k + 1]) == if ch != BACKSPACE && ch != DELETE then r + [ch] else if r == [] then [] else r[..|r| - 1]
  {
    assert line[..k + 1] == line[..k] + [line[k]];
    ResolvedStep(line[..k], line[k]);
  }

  /** The line stands at `at`, and a zero behind it. */
  predicate LineAt(text: seq<Byte>, at: nat, line: seq<Byte>) {
    && at + |line| < |text| && text[at + |line|] == 0
    && forall i :: at <= i < at + |line| ==> text[i] == line[i - at] != 0
  }

  /** telnet_neg: a command, up to the zero that ends it, with its backspaces resolved. */
  method TelnetNeg(text: array<Byte>, at: nat, ghost line: seq<Byte>) returns (cmd: seq<Byte>)
    requires LineAt(text[..], at, line)
    ensures cmd == Resolved(line)
  {
    ghost var t := text[..];
    assert forall i :: 0 <= i < text.Length ==> text[i] == t[i];
    ResolvedStart(line);
    hide Resolved;
    var from := at;
    cmd := [];
    while text[from] != 0
      invariant at <= from <= at + |line| && cmd == Resolved(line[..from - at])
      decreases at + |line| - from
    {
      var ch := text[from];
      ResolvedNext(line, from - at, cmd);
      from := from + 1;
      if ch == BACKSPACE || ch == DELETE {
        if cmd != [] { cmd := cmd[..|cmd| - 1]; }
      } else {
        cmd := cmd + [ch];
      }
    }
  }

  lemma {:induction false} EndsInside(p: seq<Byte>)
    requires p != [] && p[0] != 0
    ensures HasCommand(p) ==> FirstZero(p) < |p|
  {
    if FirstZero(p) == |p| { CommandEnds(p, |p|); }
  }

  lemma {:induction false} Flagged(h: History, start: Telnet, t: Telnet, replies: seq<Reply>, p: seq<Byte>, single: bool, flag: bool)
    requires Sound(start) && Consistent(h, start, t, replies, p, single, flag)
    ensures !single && !flag ==> !HasCommand(p)
    ensures HasCommand(p) == HasCommand(WithoutNulls(p))
  {
    NullsMeanNothing(p);
  }

  lemma {:induction false} Unflagged(h: History, start: Telnet, t: Telnet, replies: seq<Reply>, p: seq<Byte>, single: bool, flag: bool)
    requires Sound(start) && Consistent(h, start, t, replies, p, single, flag) && (single || !HasCommand(p))
    ensures Consistent(h, start, t, replies, p, single, false)
  {}

  lemma {:induction false} TakeIsConsistent(h: History, start: Telnet, t: Telnet, replies: seq<Reply>, p: seq<Byte>,
                                            single: bool, flag: bool, flag': bool)
    requires Sound(start) && Consistent(h, start, t, replies, p, single, flag) && p != [] && p[0] != 0 && (single || HasCommand(p))
    ensures (!single && HasCommand(Behind(p)) ==> flag') ==>
      Consistent(Given(h, Resolved(FirstOf(p))), start, t, replies, Behind(p), single, flag')
  {
    var n := FirstZero(p);
    if n < |p| {
      CommandIsBehind(p);
      if !single { TakeIsAccounted(h, p, FirstOf(p), Behind(p)); }
    }
    hide Commands, Tail, Accounted, OnBytes, FirstOf;
  }

  lemma {:induction false} CommandIsBehind(p: seq<Byte>)
    requires p != [] && p[0] != 0 && FirstZero(p) < |p|
    ensures Commands(p) == [FirstOf(p)] + Commands(Behind(p)) && Tail(p) == Tail(Behind(p))
  {
    var n := FirstZero(p);
    NextPiece(p, n);
    NullsMeanNothing(p[n..]);
    assert p[n..][0] == 0 && p[n..][1..] == p[n + 1..];
  }

  /** In line mode, as long as no zero byte is sent: the commands that were handed out since the last flush
      are the first lines of the data, each with its backspaces resolved, and with nothing in the buffer
      they are all of them.  It does not matter how the data was cut into reads. */
  lemma {:induction false} CommandsAreLines(h: History, start: Telnet, t: Telnet, replies: seq<Reply>, pending: seq<Byte>, flag: bool)
    requires Sound(start) && Consistent(h, start, t, replies, pending, false, flag) && 0 !in h.data
    ensures h.given <= LineCommands(Lines(h.data)) && (!HasCommand(pending) ==> h.given == LineCommands(Lines(h.data)))
    ensures h.flushes == 0 ==> h.data == OnBytes(start, h.read).data
    ensures |h.given| <= NewlinesIn(h.data)
  {
    LinesAreCommands(h.data);
    OneLineEach(h.data);
    hide Commands, Tail, Lines, OnBytes, Stored;
  }

  /** The first i bytes are filtered and stored behind the text that was there before. */
  predicate Copied(t: Telnet, from: seq<Byte>, i: nat, single: bool, replies: seq<Reply>, text: seq<Byte>,
                   t': Telnet, replies': seq<Reply>, text': seq<Byte>)
    requires Sound(t) && i <= |from|
  {
    var e := OnBytes(t, from[..i]);
    t' == e.t && replies' == replies + e.replies && text' == text + Stored(e.data, single)
  }

  lemma {:induction false} NothingCopied(t: Telnet, from: seq<Byte>, single: bool, replies: seq<Reply>, text: seq<Byte>)
    requires Sound(t)
    ensures Copied(t, from, 0, single, replies, text, t, replies, text)
  {
    assert from[..0] == [] && replies + [] == replies && text + [] == text;
  }

  lemma {:induction false} OneCopied(t: Telnet, from: seq<Byte>, i: nat, single: bool, replies: seq<Reply>, text: seq<Byte>,
                                     t1: Telnet, replies1: seq<Reply>, text1: seq<Byte>)
    requires Sound(t) && Sound(t1) && i < |from| && Copied(t, from, i, single, replies, text, t1, replies1, text1)
    ensures
      var next := OnByte(t1, from[i]);
      Copied(t, from, i + 1, single, replies, text, next.t, replies1 + next.replies, text1 + Stored(next.data, single))
  {
    hide OnByte, OnBytes, Stored;
    var e := OnBytes(t, from[..i]);
    var next := OnByte(e.t, from[i]);
    assert from[..i + 1] == from[..i] + [from[i]];
    ReadsDoNotMatter(t, from[..i], [from[i]]);
    OneByte(e.t, from[i]);
    StoredSplits(e.data, next.data, single);
    assert Copied(t, from, i + 1, single, replies, text, next.t, replies1 + next.replies, text1 + Stored(next.data, single)) by {
      AppendInTurn(replies, e.replies, next.replies);
      AppendInTurn(text, Stored(e.data, single), Stored(next.data, single));
    }
  }

  lemma {:induction false} AppendInTurn<T>(a: seq<T>, b: seq<T>, c: seq<T>)
    ensures a + (b + c) == (a + b) + c
  {}

  lemma {:induction false} AllCopied(t: Telnet, from: seq<Byte>, single: bool, replies: seq<Reply>, text: seq<Byte>,
                                     t': Telnet, replies': seq<Reply>, text': seq<Byte>)
    requires Sound(t) && Copied(t, from, |from|, single, replies, text, t', replies', text')
    ensures
      var e := OnBytes(t, from);
      t' == e.t && replies' == replies + e.replies && text' == text + Stored(e.data, single)
  {
    assert from[..|from|] == from;
  }

  /** What is between the marks after a read. */
  lemma {:induction false} Between(text: seq<Byte>, a: nat, b: nat, p: seq<Byte>, more: seq<Byte>)
    requires a <= b <= |text| && text[a..b] == p && text[b..] == more
    ensures text[a..] == p + more
  {
    assert text[a..] == text[a..b] + text[b..];
  }

  lemma {:induction false} NothingRead(h: History, t: Telnet, p: seq<Byte>, single: bool, socket: seq<Byte>)
    requires Sound(t)
    ensures
      Received(h, t, socket[..0]) == h && p + Stored(OnBytes(t, socket[..0]).data, single) == p
      && OnBytes(t, socket[..0]).t == t
  {
    assert socket[..0] == [];
  }

  /** The buffer without the zeros at its front. */
  function WithoutNulls(p: seq<Byte>): (r: seq<Byte>)
    ensures |r| <= |p| && (r != [] ==> r[0] != 0)
  {
    if p == [] || p[0] != 0 then p else WithoutNulls(p[1..])
  }

  lemma {:induction false} NullsAreGone(p: seq<Byte>)
    ensures WithoutNulls(p) != [] ==> WithoutNulls(p)[0] != 0
  {}

  lemma {:induction false} NullsSkipped(p: seq<Byte>, n: nat)
    requires Nulls(p, 0, n)
    ensures WithoutNulls(p) == p[n..]
    decreases n
  {
    if n > 0 {
      NullsSkipped(p[1..], n - 1);
      assert p[1..][n - 1..] == p[n..];
    } else {
      assert p[0..] == p;
    }
  }

  /** Zeros at the front of the buffer mean nothing. */
  lemma {:induction false} SkippedIsConsistent(h: History, start: Telnet, t: Telnet, replies: seq<Reply>, pending: seq<Byte>,
                                               single: bool, flag: bool)
    requires Sound(start) && Consistent(h, start, t, replies, pending, single, flag)
    ensures
      var p := WithoutNulls(pending);
      Consistent(h, start, t, replies, p, single, flag) && |Tail(p)| <= LONGEST && Commands(p) == Commands(pending)
  {
    NullsMeanNothing(pending);
    hide Commands, Tail, Known;
  }

  lemma {:induction false} NullsMeanNothing(p: seq<Byte>)
    ensures Commands(WithoutNulls(p)) == Commands(p) && Tail(WithoutNulls(p)) == Tail(p)
    decreases |p|
  {
    if p != [] && p[0] == 0 { NullsMeanNothing(p[1..]); }
  }

  lemma {:induction false} EmptyHasNone(p: seq<Byte>, n: int)
    requires |p| == n <= 0
    ensures !HasCommand(p) && p == []
  {}

  lemma {:induction false} NoPiece(p: seq<Byte>, n: int)
    requires Nulls(p, 0, n) && n >= |p|
    ensures !HasCommand(p)
  {
    CommandIsThere(p, n, n);
  }

  lemma {:induction false} FirstPiece(p: seq<Byte>, a: int, b: int)
    requires Nulls(p, 0, a) && Piece(p, a, b) && a < |p|
    ensures HasCommand(p) <==> b < |p|
  {
    CommandIsThere(p, a, b);
  }

  /** What the end of the first piece tells. */
  lemma {:induction false} CommandEnds(p: seq<Byte>, n: int)
    requires Piece(p, 0, n) && p != [] && p[0] != 0
    ensures HasCommand(p) <==> n < |p|
    ensures n == |p| && |Tail(p)| <= LONGEST ==> |p| < MAX_TEXT - 2
  {
    CommandIsThere(p, 0, n);
    assert p[0..] == p;
  }

  /** Behind the first piece. */
  lemma {:induction false} RestOfBuffer(p: seq<Byte>, n: int, k: int)
    requires Piece(p, 0, n) && Nulls(p, n, k)
    ensures p[k..] == Behind(p)
  {
    FirstZeroIs(p, n);
    NullsSkipped(p[n..], k - n);
    assert p[n..][k - n..] == p[k..];
  }
}
