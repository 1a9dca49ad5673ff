/** The filter of src/comm.c that takes the telnet protocol (RFC 854) out of the bytes a user sends, and the
    form in which it stores what is left. */
module TelnetFilter {
  import opened Bytecode

  const SB_SIZE: nat := 100

  const BACKSPACE: Byte := 8
  const NEWLINE: Byte := 10
  const RETURN: Byte := 13
  const SPACE: Byte := 32
  const DELETE: Byte := 127

  const SE: Byte := 240
  const BREAK: Byte := 243
  const IP: Byte := 244
  const AO: Byte := 245
  const AYT: Byte := 246
  const SB: Byte := 250
  const WILL: Byte := 251
  const WONT: Byte := 252
  const DO: Byte := 253
  const DONT: Byte := 254
  const IAC: Byte := 255

  const TELOPT_TM: Byte := 6
  const TELOPT_TTYPE: Byte := 24
  const TELOPT_NAWS: Byte := 31

  /** What stands for a zero byte in a suboption. */
  const QUOTED_ZERO: Byte := 73

  datatype Ts = InData | InIac | InWill | InWont | InDo | InDont | InSb | InSbIac

  /** What the driver answers, or tells the object of the user. */
  datatype Reply =
    | BreakReply | InterruptReply | YesReply | AbortReply | TimingReply | TerminalQuery
    | TerminalType(name: seq<Byte>) | WindowSize(width: nat, height: nat) | Suboption(text: seq<Byte>)

  /** The fields of a user the filter works with, and whether the final zero of a suboption was ever
      written behind sb; the model then goes on as if the zero stood there. */
  datatype Telnet = Telnet(state: Ts, sb: seq<Byte>, pos: nat, talksTelnet: bool, overrun: bool)

  predicate Sound(t: Telnet) { |t.sb| == SB_SIZE && t.pos <= SB_SIZE }

  /** What one byte does: the new state, the byte of data it is, if any, and the answers. */
  datatype Effect = Effect(t: Telnet, data: seq<Byte>, replies: seq<Reply>)

  function ToState(t: Telnet, state: Ts): Effect { Effect(t.(state := state), [], []) }

  function FirstZero(s: seq<Byte>): (n: nat)
    ensures n <= |s| && forall i :: 0 <= i < n ==> s[i] != 0
    ensures n < |s| ==> s[n] == 0
  {
    if s == [] || s[0] == 0 then 0 else 1 + FirstZero(s[1..])
  }

  function Unquoted(b: Byte): nat { if b == QUOTED_ZERO then 0 else b }

  /** What the end of a suboption tells. */
  function Negotiated(sb: seq<Byte>): Reply
    requires |sb| == SB_SIZE
  {
    if sb[0] == TELOPT_TTYPE && sb[1] == QUOTED_ZERO then TerminalType(sb[2..][..FirstZero(sb[2..])])
    else if sb[0] == TELOPT_NAWS then
      WindowSize(Unquoted(sb[1]) * 256 + Unquoted(sb[2]), Unquoted(sb[3]) * 256 + Unquoted(sb[4]))
    else Suboption(sb[..FirstZero(sb)])
  }

  function OnData(t: Telnet, b: Byte): Effect {
    if b == IAC then ToState(t, InIac) else Effect(t, [b], [])
  }

  function OnIac(t: Telnet, b: Byte): Effect {
    if b == IAC then Effect(t.(state := InData), [IAC], [])
    else if b == DO then ToState(t, InDo)
    else if b == DONT then ToState(t, InDont)
    else if b == WILL then ToState(t, InWill)
    else if b == WONT then ToState(t, InWont)
    else if b == BREAK then Effect(t, [], [BreakReply])   // the state stays as it is
    else if b == IP then Effect(t, [], [InterruptReply])
    else if b == AYT then Effect(t, [], [YesReply])
    else if b == AO then Effect(t, [], [AbortReply])
    else if b == SB then Effect(t.(state := InSb, pos := 0), [], [])
    else ToState(t, InData)
  }

  function OnSb(t: Telnet, b: Byte): Effect
    requires Sound(t)
  {
    if b == IAC then ToState(t, InSbIac)
    else if t.pos >= SB_SIZE then Effect(t, [], [])
    else Effect(t.(sb := t.sb[t.pos := if b == 0 then QUOTED_ZERO else b], pos := t.pos + 1), [], [])
  }

  /** sb_buf[sb_pos] = 0 */
  function Closed(t: Telnet): Telnet {
    if t.pos < |t.sb| then t.(sb := t.sb[t.pos := 0]) else t.(overrun := true)
  }

  function OnSbIac(t: Telnet, b: Byte): Effect
    requires Sound(t)
  {
    if b == IAC then
      if t.pos >= SB_SIZE then Effect(t, [], [])
      else Effect(t.(sb := t.sb[t.pos := IAC], pos := t.pos + 1, state := InSb), [], [])
    else if b == SE then
      var t1 := Closed(t);
      Effect(t1.(state := InData), [], [Negotiated(t1.sb)])
    else OnIac(t, b)
  }

  function OnByte(t: Telnet, b: Byte): (e: Effect)
    requires Sound(t)
    ensures Sound(e.t) && |e.data| <= 1
    ensures e.t.overrun <==> t.overrun || (t.state.InSbIac? && b == SE && t.pos == SB_SIZE)
  {
    match t.state
    case InData => OnData(t, b)
    case InIac => OnIac(t, b)
    case InSbIac => OnSbIac(t, b)
    case InSb => OnSb(t, b)
    case InDo => Effect(t.(state := InData), [], if b == TELOPT_TM then [TimingReply] else [])
    case InWill => Effect(t.(state := InData, talksTelnet := true), [], if b == TELOPT_TTYPE then [TerminalQuery] else [])
    case InDont => ToState(t.(talksTelnet := true), InData)
    case InWont => ToState(t.(talksTelnet := true), InData)
  }

  /** One effect after another one. */
  function Joined(e: Effect, next: Effect): Effect {
    Effect(next.t, e.data + next.data, e.replies + next.replies)
  }

  lemma {:induction false} JoinedInTurn(a: Effect, b: Effect, c: Effect)
    ensures Joined(a, Joined(b, c)) == Joined(Joined(a, b), c)
  {}

  /** What a string of bytes does. */
  function OnBytes(t: Telnet, s: seq<Byte>): (e: Effect)
    requires Sound(t)
    ensures Sound(e.t) && |e.data| <= |s|
    decreases |s|
  {
    if s == [] then Effect(t, [], [])
    else
      var e := OnByte(t, s[0]);
      Joined(e, OnBytes(e.t, s[1..]))
  }

  /** It does not matter how the bytes are cut into reads, not even inside of a telnet command. */
  lemma {:induction false} ReadsDoNotMatter(t: Telnet, a: seq<Byte>, b: seq<Byte>)
    requires Sound(t)
    ensures OnBytes(t, a + b) == Joined(OnBytes(t, a), OnBytes(OnBytes(t, a).t, b))
    decreases |a|
  {
    if a == [] {
      assert a + b == b;
    } else {
      var e := OnByte(t, a[0]);
      assert (a + b)[0] == a[0] && (a + b)[1..] == a[1..] + b;
      ReadsDoNotMatter(e.t, a[1..], b);
      var rest := OnBytes(e.t, a[1..]);
      hide OnByte;
      JoinedInTurn(e, rest, OnBytes(rest.t, b));
      assert OnBytes(t, a) == Joined(e, rest) && Joined(e, rest).t == rest.t;
      hide Joined;
    }
  }

  lemma {:induction false} OneByte(t: Telnet, b: Byte)
    requires Sound(t)
    ensures OnBytes(t, [b]) == OnByte(t, b)
  {
    hide OnByte;
    var e := OnByte(t, b);
    assert OnBytes(e.t, [b][1..]) == Effect(e.t, [], []);
    assert e == Effect(e.t, e.data, e.replies);
  }

  /** Without the byte 255 everything is data. */
  lemma {:induction false} PlainBytes(t: Telnet, s: seq<Byte>)
    requires Sound(t) && t.state.InData? && IAC !in s
    ensures OnBytes(t, s) == Effect(t, s, [])
    decreases |s|
  {
    if s != [] {
      PlainBytes(t, s[1..]);
      assert [s[0]] + s[1..] == s;
    }
  }

  // ---------- Suboptions ----------

  /** A byte 255 in a suboption is sent twice. */
  function Doubled(body: seq<Byte>): seq<Byte>
    decreases |body|
  {
    if body == [] then [] else (if body[0] == IAC then [IAC, IAC] else [body[0]]) + Doubled(body[1..])
  }

  /** How a suboption is sent, and how it is stored. */
  function Message(body: seq<Byte>): seq<Byte> { [IAC, SB] + Doubled(body) + [IAC, SE] }

  function Quoted(body: seq<Byte>): (s: seq<Byte>)
    ensures |s| == |body| && 0 !in s
  {
    seq(|body|, i requires 0 <= i < |body| => if body[i] == 0 then QUOTED_ZERO else body[i])
  }

  function FilledWith(sb: seq<Byte>, pos: nat, body: seq<Byte>): (r: seq<Byte>)
    requires pos + |body| <= |sb|
    ensures |r| == |sb|
  {
    sb[..pos] + Quoted(body) + sb[pos + |body|..]
  }

  lemma {:induction false} FilledByByte(sb: seq<Byte>, pos: nat, body: seq<Byte>)
    requires body != [] && pos + |body| <= |sb|
    ensures
      var b := if body[0] == 0 then QUOTED_ZERO else body[0];
      FilledWith(sb, pos, body) == FilledWith(sb[pos := b], pos + 1, body[1..])
  {}

  lemma {:induction false} TwoBytes(t: Telnet, a: Byte, b: Byte)
    requires Sound(t)
    ensures
      var e := OnByte(t, a);
      OnBytes(t, [a, b]) == Joined(e, OnByte(e.t, b))
  {
    assert [a, b] == [a] + [b];
    ReadsDoNotMatter(t, [a], [b]);
    OneByte(t, a);
    OneByte(OnByte(t, a).t, b);
  }

  /** The byte behind a command without an option is data exactly when the command is none of the four that
      are answered: those leave the state, and the byte is taken for a command, and lost. */
  lemma {:induction false} AnswersSwallowNext(t: Telnet, b: Byte, c: Byte)
    requires Sound(t) && t.state.InData? && b !in [IAC, DO, DONT, WILL, WONT, SB] && c != IAC
    ensures
      var e := OnBytes(t, [IAC, b, c]);
      && (e.data == [c] <==> b !in [BREAK, IP, AYT, AO])
      && (b in [BREAK, IP, AYT, AO] ==> e.data == [] && |e.replies| >= 1)
  {
    assert [IAC, b, c] == [IAC, b] + [c];
    ReadsDoNotMatter(t, [IAC, b], [c]);
    TwoBytes(t, IAC, b);
    OneByte(OnBytes(t, [IAC, b]).t, c);
    hide OnBytes;
  }

  lemma {:induction false} BodyIsStored(t: Telnet, body: seq<Byte>)
    requires Sound(t) && t.state.InSb? && t.pos + |body| <= SB_SIZE
    ensures OnBytes(t, Doubled(body)) == Effect(t.(sb := FilledWith(t.sb, t.pos, body), pos := t.pos + |body|), [], [])
    decreases |body|
  {
    if body == [] {
      assert FilledWith(t.sb, t.pos, body) == t.sb;
    } else {
      hide OnByte, OnBytes, FilledWith, Quoted;
      var b := if body[0] == 0 then QUOTED_ZERO else body[0];
      var t1 := t.(sb := t.sb[t.pos := b], pos := t.pos + 1);
      var first := if body[0] == IAC then [IAC, IAC] else [body[0]];
      StoredInSb(t, body[0]);
      ReadsDoNotMatter(t, first, Doubled(body[1..]));
      BodyIsStored(t1, body[1..]);
      FilledByByte(t.sb, t.pos, body);
    }
  }

  lemma {:induction false} StoredInSb(t: Telnet, b: Byte)
    requires Sound(t) && t.state.InSb? && t.pos < SB_SIZE
    ensures
      OnBytes(t, if b == IAC then [IAC, IAC] else [b]) ==
        Effect(t.(sb := t.sb[t.pos := if b == 0 then QUOTED_ZERO else b], pos := t.pos + 1), [], [])
  {
    if b == IAC { TwoBytes(t, IAC, IAC); } else { OneByte(t, b); }
  }

  /** A full buffer takes no more. */
  lemma {:induction false} FullStays(t: Telnet, body: seq<Byte>)
    requires Sound(t) && t.state.InSb? && t.pos == SB_SIZE && IAC !in body
    ensures OnBytes(t, Doubled(body)) == Effect(t, [], [])
    decreases |body|
  {
    if body != [] {
      OneByte(t, body[0]);
      ReadsDoNotMatter(t, [body[0]], Doubled(body[1..]));
      FullStays(t, body[1..]);
    }
  }

  lemma {:induction false} DoubledSplits(a: seq<Byte>, b: seq<Byte>)
    ensures Doubled(a + b) == Doubled(a) + Doubled(b)
    decreases |a|
  {
    if a == [] {
      assert a + b == b;
    } else {
      assert (a + b)[1..] == a[1..] + b;
      DoubledSplits(a[1..], b);
    }
  }

  /** The cells of sb when a suboption is complete. */
  function Filled(sb: seq<Byte>, body: seq<Byte>): seq<Byte>
    requires |sb| == SB_SIZE
  {
    if |body| < SB_SIZE then FilledWith(sb, 0, body)[|body| := 0] else Quoted(body[..SB_SIZE])
  }

  lemma {:induction false} Begins(t: Telnet)
    requires Sound(t) && t.state.InData?
    ensures OnBytes(t, [IAC, SB]) == Effect(t.(state := InSb, pos := 0), [], [])
  {
    TwoBytes(t, IAC, SB);
  }

  lemma {:induction false} Ends(t: Telnet)
    requires Sound(t) && t.state.InSb?
    ensures OnBytes(t, [IAC, SE]) == Effect(Closed(t).(state := InData), [], [Negotiated(Closed(t).sb)])
  {
    TwoBytes(t, IAC, SE);
  }

  lemma {:induction false} JoinedBehind(a: Effect, b: Effect, c: Effect)
    requires a.data == b.data == [] && a.replies == b.replies == []
    ensures Joined(a, Joined(b, c)) == c
  {}

  /** A suboption arrives whole and in order, as far as the buffer reaches.  The zero behind it is written
      inside of the buffer exactly when it has less than SB_SIZE bytes. */
  lemma {:induction false} SuboptionArrives(t: Telnet, body: seq<Byte>)
    requires Sound(t) && t.state.InData? && (|body| > SB_SIZE ==> IAC !in body[SB_SIZE..])
    ensures
      var e := OnBytes(t, Message(body));
      && e.t.state.InData? && e.data == [] && e.t.sb == Filled(t.sb, body) && e.replies == [Negotiated(e.t.sb)]
      && (e.t.overrun <==> t.overrun || |body| >= SB_SIZE)
  {
    hide OnByte, OnBytes, Doubled, FilledWith, Filled, Negotiated, Joined;
    var n := if |body| < SB_SIZE then |body| else SB_SIZE;
    var t0, t1 := t.(state := InSb, pos := 0), t.(state := InSb, sb := FilledWith(t.sb, 0, body[..n]), pos := n);
    Begins(t);
    Ends(t1);
    BodyArrives(t0, body, n);
    ReadsDoNotMatter(t0, Doubled(body), [IAC, SE]);
    assert Message(body) == [IAC, SB] + (Doubled(body) + [IAC, SE]);
    ReadsDoNotMatter(t, [IAC, SB], Doubled(body) + [IAC, SE]);
    JoinedBehind(OnBytes(t, [IAC, SB]), OnBytes(t0, Doubled(body)), OnBytes(t1, [IAC, SE]));
    FilledBody(t.sb, body, n);
  }

  lemma {:induction false} FilledBody(sb: seq<Byte>, body: seq<Byte>, n: nat)
    requires |sb| == SB_SIZE && n == if |body| < SB_SIZE then |body| else SB_SIZE
    ensures
      var r := FilledWith(sb, 0, body[..n]);
      Filled(sb, body) == if n < SB_SIZE then r[n := 0] else r
  {
    assert |body| < SB_SIZE ==> body[..n] == body;
  }

  /** What lies beyond the buffer is dropped. */
  lemma {:induction false} BodyArrives(t: Telnet, body: seq<Byte>, n: nat)
    requires Sound(t) && t.state.InSb? && t.pos == 0 && n == if |body| < SB_SIZE then |body| else SB_SIZE
    requires |body| > SB_SIZE ==> IAC !in body[SB_SIZE..]
    ensures OnBytes(t, Doubled(body)) == Effect(t.(sb := FilledWith(t.sb, 0, body[..n]), pos := n), [], [])
  {
    BodyIsStored(t, body[..n]);
    var t1 := t.(sb := FilledWith(t.sb, 0, body[..n]), pos := n);
    if n < |body| {
      FullStays(t1, body[n..]);
      DoubledSplits(body[..n], body[n..]);
      assert body == body[..n] + body[n..];
      hide OnBytes, Doubled;
      ReadsDoNotMatter(t, Doubled(body[..n]), Doubled(body[n..]));
    } else {
      assert body[..n] == body;
    }
  }

  lemma {:induction false} ZeroIsFirst(s: seq<Byte>, n: nat)
    requires n <= |s| && 0 !in s[..n] && (n < |s| ==> s[n] == 0)
    ensures FirstZero(s) == n
    decreases n
  {
    if n > 0 {
      assert s[0] == s[..n][0];
      assert s[1..][..n - 1] == s[..n][1..];
      ZeroIsFirst(s[1..], n - 1);
    }
  }

  /** The text of a suboption is told to the object as it was sent, with its zeros quoted. */
  lemma {:induction false} TextArrives(t: Telnet, body: seq<Byte>)
    requires Sound(t) && t.state.InData? && |body| <= SB_SIZE
    requires body != [] ==> body[0] != TELOPT_TTYPE && body[0] != TELOPT_NAWS
    ensures OnBytes(t, Message(body)).replies == [Suboption(Quoted(body))]
  {
    hide OnBytes, Message, FirstZero;
    SuboptionArrives(t, body);
    var sb := Filled(t.sb, body);
    assert sb[..|body|] == Quoted(body);
    ZeroIsFirst(sb, |body|);
  }

  /** So is the name of a terminal. */
  lemma {:induction false} TerminalTypeArrives(t: Telnet, name: seq<Byte>)
    requires Sound(t) && t.state.InData? && |name| + 2 <= SB_SIZE
    ensures OnBytes(t, Message([TELOPT_TTYPE, 0] + name)).replies == [TerminalType(Quoted(name))]
  {
    hide OnBytes, Message, FirstZero;
    var body := [TELOPT_TTYPE, 0] + name;
    SuboptionArrives(t, body);
    var sb := Filled(t.sb, body);
    assert Quoted(body) == [TELOPT_TTYPE, QUOTED_ZERO] + Quoted(name);
    assert sb[..|body|] == Quoted(body);
    assert sb[2..][..|name|] == sb[..|body|][2..] == Quoted(name);
    ZeroIsFirst(sb[2..], |name|);
  }

  /** A size of a window is told right exactly when no byte of it is 73, which stands for zero. */
  lemma {:induction false} WindowSizeArrives(t: Telnet, a: Byte, b: Byte, c: Byte, d: Byte)
    requires Sound(t) && t.state.InData?
    ensures
      var e := OnBytes(t, Message([TELOPT_NAWS, a, b, c, d]));
      e.replies == [WindowSize(a * 256 + b, c * 256 + d)] <==> QUOTED_ZERO !in [a, b, c, d]
  {
    hide OnBytes, Message, FirstZero;
    var body := [TELOPT_NAWS, a, b, c, d];
    SuboptionArrives(t, body);
    assert Filled(t.sb, body)[..5] == Quoted(body);
    hide Filled;
  }

  // ---------- How data is stored ----------

  /** A newline becomes a space, a backspace that takes the space back, and the zero that ends a command:
      so an empty line is a command too. */
  function StoredByte(b: Byte, single: bool): (s: seq<Byte>)
    ensures |s| <= 3
  {
    if single then [b]
    else if b == RETURN then []
    else if b == NEWLINE then [SPACE, BACKSPACE, 0]
    else [b]
  }

  function Stored(data: seq<Byte>, single: bool): (s: seq<Byte>)
    ensures |s| <= 3 * |data|
    decreases |data|
  {
    if data == [] then [] else StoredByte(data[0], single) + Stored(data[1..], single)
  }

  lemma {:induction false} StoredSplits(a: seq<Byte>, b: seq<Byte>, single: bool)
    ensures Stored(a + b, single) == Stored(a, single) + Stored(b, single)
    decreases |a|
  {
    if a == [] {
      assert a + b == b;
    } else {
      assert (a + b)[1..] == a[1..] + b;
      StoredSplits(a[1..], b, single);
    }
  }

  lemma {:induction false} StoredOne(b: Byte, single: bool)
    ensures Stored([b], single) == StoredByte(b, single)
  {
    assert Stored([b][1..], single) == [];
  }
}
