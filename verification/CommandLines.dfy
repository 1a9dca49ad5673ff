/** Commands in the input buffer of src/comm.c: they end with zero bytes; and the lines of text they come from. */
module CommandLines {
  import opened Bytecode
  import opened TelnetFilter

  /** The commands in a buffer: its pieces between zero bytes, the empty ones left out. */
  function Commands(s: seq<Byte>): seq<seq<Byte>>
    decreases |s|
  {
    if s == [] then []
    else if s[0] == 0 then Commands(s[1..])
    else
      var n := FirstZero(s);
      if n == |s| then [] else [s[..n]] + Commands(s[n + 1..])
  }

  /** What is left behind the last zero: the beginning of the next command. */
  function Tail(s: seq<Byte>): (t: seq<Byte>)
    ensures |t| <= |s|
    decreases |s|
  {
    if s == [] then []
    else if s[0] == 0 then Tail(s[1..])
    else
      var n := FirstZero(s);
      if n == |s| then s else Tail(s[n + 1..])
  }

  lemma {:induction false} FirstZeroIs(s: seq<Byte>, n: nat)
    requires n <= |s| && (forall i :: 0 <= i < n ==> s[i] != 0) && (n == |s| || s[n] == 0)
    ensures FirstZero(s) == n
  {
    var m := FirstZero(s);
    if m < n { assert false; }
  }

  lemma {:induction false} NextPiece(s: seq<Byte>, n: nat)
    requires 0 < n < |s| && (forall i :: 0 <= i < n ==> s[i] != 0) && s[n] == 0
    ensures Commands(s) == [s[..n]] + Commands(s[n + 1..]) && Tail(s) == Tail(s[n + 1..])
  {
    FirstZeroIs(s, n);
    assert s[0] != 0;
  }

  /** Commands are found once; what comes later continues the last piece. */
  lemma {:induction false} CommandsAppend(a: seq<Byte>, b: seq<Byte>)
    ensures Commands(a + b) == Commands(a) + Commands(Tail(a) + b)
    ensures Tail(a + b) == Tail(Tail(a) + b)
    decreases |a|
  {
    if a == [] {
      assert a + b == b;
    } else if a[0] == 0 {
      assert (a + b)[0] == 0 && (a + b)[1..] == a[1..] + b;
      CommandsAppend(a[1..], b);
    } else if FirstZero(a) == |a| {
      NothingYet(a, b);
    } else {
      CommandsAppend(a[FirstZero(a) + 1..], b);
      PieceThen(a, FirstZero(a), b);
    }
  }

  lemma {:induction false} NothingYet(a: seq<Byte>, b: seq<Byte>)
    requires FirstZero(a) == |a| > 0
    ensures Commands(a + b) == Commands(a) + Commands(Tail(a) + b) && Tail(a + b) == Tail(Tail(a) + b)
  {
    assert Commands(a) == [] && Tail(a) == a;
    hide Commands, Tail;
  }

  lemma {:induction false} PieceThen(a: seq<Byte>, n: nat, b: seq<Byte>)
    requires 0 < n < |a| && (forall i :: 0 <= i < n ==> a[i] != 0) && a[n] == 0
    requires
      var rest := a[n + 1..];
      Commands(rest + b) == Commands(rest) + Commands(Tail(rest) + b) && Tail(rest + b) == Tail(Tail(rest) + b)
    ensures Commands(a + b) == Commands(a) + Commands(Tail(a) + b) && Tail(a + b) == Tail(Tail(a) + b)
  {
    hide Commands, Tail;
    var rest := a[n + 1..];
    assert (a + b)[..n] == a[..n] && (a + b)[n + 1..] == rest + b;
    NextPiece(a, n);
    NextPiece(a + b, n);
    Grouped(a[..n], Commands(rest), Commands(Tail(rest) + b));
  }

  lemma {:induction false} Grouped(c: seq<Byte>, x: seq<seq<Byte>>, y: seq<seq<Byte>>)
    ensures [c] + (x + y) == ([c] + x) + y
  {}

  /** Leading zeros mean nothing. */
  lemma {:induction false} SkipZeros(s: seq<Byte>, n: nat)
    requires n <= |s| && forall i :: 0 <= i < n ==> s[i] == 0
    ensures Commands(s[n..]) == Commands(s) && Tail(s[n..]) == Tail(s)
    decreases n
  {
    if n > 0 {
      assert s[n..] == s[1..][n - 1..];
      SkipZeros(s[1..], n - 1);
    } else {
      assert s[0..] == s;
    }
  }

  /** Each stored byte of data makes the beginning of a command longer by at most one. */
  lemma {:induction false} TailGrows(p: seq<Byte>, data: seq<Byte>, single: bool)
    ensures |Tail(p + Stored(data, single))| <= |Tail(p)| + |data|
    decreases |data|
  {
    if data == [] {
      assert p + Stored(data, single) == p;
    } else {
      var b := StoredByte(data[0], single);
      var rest := Stored(data[1..], single);
      assert p + (b + rest) == (p + b) + rest;
      TailGrows(p + b, data[1..], single);
      CommandsAppend(p, b);
      assert |Tail(Tail(p) + b)| <= |Tail(p)| + 1 by {
        if data[0] == NEWLINE && !single { EndsWithZero(Tail(p) + b); }
      }
    }
  }

  lemma {:induction false} EndsWithZero(s: seq<Byte>)
    requires s != [] && s[|s| - 1] == 0
    ensures Tail(s) == []
    decreases |s|
  {
    if s[0] == 0 {
      if |s| > 1 { EndsWithZero(s[1..]); } else { assert s[1..] == []; }
    } else {
      var n := FirstZero(s);
      if n == |s| - 1 { assert s[n + 1..] == []; } else if n < |s| { EndsWithZero(s[n + 1..]); }
    }
  }

  // ---------- Backspaces ----------

  predicate Erases(b: Byte) { b == BACKSPACE || b == DELETE }

  /** The line as the user sees it: every backspace takes the byte before it away. */
  function Resolved(s: seq<Byte>): (r: seq<Byte>)
    ensures |r| <= |s| && forall i :: 0 <= i < |r| ==> !Erases(r[i])
    decreases |s|
  {
    if s == [] then []
    else
      var r := Resolved(s[..|s| - 1]);
      if !Erases(s[|s| - 1]) then r + [s[|s| - 1]]
      else if r == [] then [] else r[..|r| - 1]
  }

  function ResolvedAll(cs: seq<seq<Byte>>): (r: seq<seq<Byte>>)
    ensures |r| == |cs| && forall i :: 0 <= i < |cs| ==> r[i] == Resolved(cs[i])
    decreases |cs|
  {
    if cs == [] then [] else [Resolved(cs[0])] + ResolvedAll(cs[1..])
  }

  lemma {:induction false} ResolvedStep(s: seq<Byte>, b: Byte)
    ensures
      var r := Resolved(s);
      Resolved(s + [b]) == if !Erases(b) then r + [b] else if r == [] then [] else r[..|r| - 1]
  {
    assert (s + [b])[..|s|] == s;
  }

  /** The space and the backspace of a newline leave no trace. */
  lemma {:induction false} NewlineResolves(s: seq<Byte>)
    ensures Resolved(s + [SPACE, BACKSPACE]) == Resolved(s)
  {
    ResolvedStep(s, SPACE);
    ResolvedStep(s + [SPACE], BACKSPACE);
    assert s + [SPACE, BACKSPACE] == (s + [SPACE]) + [BACKSPACE];
    assert (Resolved(s) + [SPACE])[..|Resolved(s)|] == Resolved(s);
  }

  // ---------- Lines ----------

  function FirstNewline(s: seq<Byte>): (n: nat)
    ensures n <= |s| && forall i :: 0 <= i < n ==> s[i] != NEWLINE
    ensures n < |s| ==> s[n] == NEWLINE
  {
    if s == [] || s[0] == NEWLINE then 0 else 1 + FirstNewline(s[1..])
  }

  function NewlinesIn(s: seq<Byte>): nat {
    if s == [] then 0 else (if s[0] == NEWLINE then 1 else 0) + NewlinesIn(s[1..])
  }

  /** The finished lines of a text, in order, empty ones included. */
  function Lines(s: seq<Byte>): seq<seq<Byte>>
    decreases |s|
  {
    var n := FirstNewline(s);
    if n == |s| then [] else [s[..n]] + Lines(s[n + 1..])
  }

  lemma {:induction false} OneLineEach(s: seq<Byte>)
    ensures |Lines(s)| == NewlinesIn(s)
    decreases |s|
  {
    var n := FirstNewline(s);
    NoneBefore(s, n);
    if n < |s| { OneLineEach(s[n + 1..]); }
  }

  lemma {:induction false} NoneBefore(s: seq<Byte>, n: nat)
    requires n <= |s| && forall i :: 0 <= i < n ==> s[i] != NEWLINE
    ensures NewlinesIn(s) == NewlinesIn(s[n..])
    decreases n
  {
    if n > 0 {
      NoneBefore(s[1..], n - 1);
      assert s[n..] == s[1..][n - 1..];
    } else {
      assert s[0..] == s;
    }
  }

  function WithoutReturns(s: seq<Byte>): seq<Byte> {
    if s == [] then [] else (if s[0] == RETURN then [] else [s[0]]) + WithoutReturns(s[1..])
  }

  /** A piece of a line is stored as it is. */
  lemma {:induction false} StoredLine(s: seq<Byte>)
    requires NEWLINE !in s && 0 !in s
    ensures Stored(s, false) == WithoutReturns(s) && 0 !in WithoutReturns(s)
    decreases |s|
  {
    if s != [] { StoredLine(s[1..]); }
  }

  /** What the lines of a text stand for. */
  function LineCommands(lines: seq<seq<Byte>>): (r: seq<seq<Byte>>)
    ensures |r| == |lines| && forall i :: 0 <= i < |lines| ==> r[i] == Resolved(WithoutReturns(lines[i]))
    decreases |lines|
  {
    if lines == [] then [] else [Resolved(WithoutReturns(lines[0]))] + LineCommands(lines[1..])
  }

  /** Every line of a text without zeros is one command, in order, with its backspaces resolved. */
  lemma {:induction false} LinesAreCommands(data: seq<Byte>)
    requires 0 !in data
    ensures ResolvedAll(Commands(Stored(data, false))) == LineCommands(Lines(data))
    decreases |data|
  {
    var n := FirstNewline(data);
    var line := data[..n];
    StoredLine(line);
    var text := WithoutReturns(line);
    StoredFirst(data, n);
    if n < |data| {
      var rest := Stored(data[n + 1..], false);
      LinesAreCommands(data[n + 1..]);
      FirstCommand(text, rest);
      NewlineResolves(text);
      FirstResolved(text + [SPACE, BACKSPACE], Commands(rest));
      FirstLine(line, Lines(data[n + 1..]));
      hide Stored, Resolved, Commands, ResolvedAll, LineCommands, WithoutReturns;
    } else {
      NoCommand(text);
    }
  }

  /** The first line of a text, as it is stored. */
  lemma {:induction false} StoredFirst(data: seq<Byte>, n: nat)
    requires n == FirstNewline(data) && NEWLINE !in data[..n] && 0 !in data
    ensures
      var text := WithoutReturns(data[..n]);
      Stored(data, false) == if n == |data| then text else text + ([SPACE, BACKSPACE, 0] + Stored(data[n + 1..], false))
  {
    StoredLine(data[..n]);
    assert data == data[..n] + data[n..];
    StoredSplits(data[..n], data[n..], false);
    if n < |data| {
      StoredNewline(data[n..]);
      assert data[n..][1..] == data[n + 1..];
    } else {
      assert data[..n] == data;
    }
    hide Stored, WithoutReturns;
  }

  lemma {:induction false} StoredNewline(s: seq<Byte>)
    requires s != [] && s[0] == NEWLINE
    ensures Stored(s, false) == [SPACE, BACKSPACE, 0] + Stored(s[1..], false)
  {}

  lemma {:induction false} FirstResolved(c: seq<Byte>, cs: seq<seq<Byte>>)
    ensures ResolvedAll([c] + cs) == [Resolved(c)] + ResolvedAll(cs)
  {
    assert ([c] + cs)[1..] == cs;
  }

  lemma {:induction false} FirstLine(line: seq<Byte>, lines: seq<seq<Byte>>)
    ensures LineCommands([line] + lines) == [Resolved(WithoutReturns(line))] + LineCommands(lines)
  {
    assert ([line] + lines)[1..] == lines;
  }

  lemma {:induction false} NoCommand(text: seq<Byte>)
    requires 0 !in text
    ensures Commands(text) == []
  {
    FirstZeroIs(text, |text|);
  }

  lemma {:induction false} FirstCommand(text: seq<Byte>, rest: seq<Byte>)
    requires 0 !in text
    ensures Commands(text + ([SPACE, BACKSPACE, 0] + rest)) == [text + [SPACE, BACKSPACE]] + Commands(rest)
  {
    var s, n := text + ([SPACE, BACKSPACE, 0] + rest), |text| + 2;
    FirstZeroIs(s, n);
    assert s[..n] == text + [SPACE, BACKSPACE] && s[n + 1..] == rest;
    assert s[0] != 0;
  }
}
