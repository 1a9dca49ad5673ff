/** The buffer of the line editor (src/ed.c): a ring of lines that is linked in both directions, with a
    header line that stands for line 0. */
module EdBuffer {
  const ED_MAXLINE: nat := 2048

  class Line {
    const text: string
    var next: Line?
    var prev: Line?

    constructor (text: string)
      ensures this.text == text
    {
      this.text := text;
    }
  }

  function Next(i: nat, n: nat): nat { if i + 1 < n then i + 1 else 0 }

  function Prev(i: nat, n: nat): nat
    requires n > 0
  {
    if i == 0 then n - 1 else i - 1
  }

  ghost predicate Different(nodes: seq<Line>) { forall i, j :: 0 <= i < j < |nodes| ==> nodes[i] != nodes[j] }

  /** Line i leads to the lines beside it. */
  ghost predicate Beside(nodes: seq<Line>, i: nat)
    requires i < |nodes|
    reads nodes
  {
    nodes[i].next == nodes[Next(i, |nodes|)] && nodes[i].prev == nodes[Prev(i, |nodes|)]
  }

  /** The lines, in order, with the header first. */
  ghost predicate Ring(nodes: seq<Line>)
    reads nodes
  {
    nodes != [] && Different(nodes) && forall i {:trigger Beside(nodes, i)} :: 0 <= i < |nodes| ==> Beside(nodes, i)
  }

  ghost predicate Follows(block: seq<Line>, i: nat)
    requires i + 1 < |block|
    reads block
  {
    block[i].next == block[i + 1] && block[i + 1].prev == block[i]
  }

  /** A stretch of lines that is linked in itself. */
  ghost predicate Chain(block: seq<Line>)
    reads block
  {
    block != [] && Different(block) && forall i {:trigger Follows(block, i)} :: 0 <= i < |block| - 1 ==> Follows(block, i)
  }

  function Texts(nodes: seq<Line>): (t: seq<string>)
    ensures |t| == |nodes| && forall i :: 0 <= i < |t| ==> t[i] == nodes[i].text
  {
    seq(|nodes|, i requires 0 <= i < |nodes| => nodes[i].text)
  }

  /** Where a block is taken out, and where it is put in. */
  function Taken<T>(s: seq<T>, i: nat, j: nat): seq<T>
    requires i <= j <= |s|
  {
    s[..i] + s[j..]
  }

  function Put<T>(s: seq<T>, k: nat, block: seq<T>): seq<T>
    requires k <= |s|
  {
    s[..k] + block + s[k..]
  }

  lemma {:induction false} TakenAt(s: seq<Line>, i: nat, j: nat, k: nat)
    requires i <= j <= |s| && k < |Taken(s, i, j)|
    ensures |Taken(s, i, j)| == |s| - (j - i)
    ensures Taken(s, i, j)[k] == s[if k < i then k else k + (j - i)]
  {}

  lemma {:induction false} TakenDiffer(s: seq<Line>, i: nat, j: nat)
    requires i < j <= |s| && Different(s)
    ensures Different(Taken(s, i, j)) && Different(s[i..j])
  {
    var t := Taken(s, i, j);
    forall k, l | 0 <= k < l < |t| ensures t[k] != t[l] {
      TakenAt(s, i, j, k);
      TakenAt(s, i, j, l);
    }
  }

  /** The link of a ring at i, except that p leads to q. */
  ghost predicate Bridged(nodes: seq<Line>, p: nat, q: nat, i: nat)
    requires p < |nodes| && q < |nodes| && i < |nodes|
    reads nodes
  {
    && nodes[i].next == (if i == p then nodes[q] else nodes[Next(i, |nodes|)])
    && nodes[i].prev == (if i == q then nodes[p] else nodes[Prev(i, |nodes|)])
  }

  lemma {:induction false} BridgedBeside(nodes: seq<Line>, i: nat, j: nat, k: nat)
    requires 0 < i < j <= |nodes| && k < |Taken(nodes, i, j)|
    requires Bridged(nodes, i - 1, if j < |nodes| then j else 0, if k < i then k else k + (j - i))
    ensures Beside(Taken(nodes, i, j), k)
  {
    var rest := Taken(nodes, i, j);
    TakenAt(nodes, i, j, k);
    TakenAt(nodes, i, j, Next(k, |rest|));
    TakenAt(nodes, i, j, Prev(k, |rest|));
    hide Taken;
  }

  /** The lines i to j - 1 are unlinked; they stay linked among themselves. */
  method Unlink(ghost nodes: seq<Line>, before: Line, after: Line, ghost i: nat, ghost j: nat)
    requires Ring(nodes) && 0 < i < j <= |nodes|
    requires before == nodes[i - 1] && after == nodes[if j < |nodes| then j else 0]
    modifies nodes
    ensures Ring(Taken(nodes, i, j)) && Chain(nodes[i..j])
  {
    ghost var p, q := i - 1, if j < |nodes| then j else 0;
    assert forall k :: 0 <= k < |nodes| ==> Beside(nodes, k);
    after.prev := before;
    before.next := after;
    forall k | 0 <= k < |nodes| ensures Bridged(nodes, p, q, k) {
      assert old(Beside(nodes, k));
    }
    TakenDiffer(nodes, i, j);
    ghost var rest := Taken(nodes, i, j);
    forall k | 0 <= k < |rest| ensures Beside(rest, k) { BridgedBeside(nodes, i, j, k); }
    forall k | 0 <= k < j - i - 1 ensures Follows(nodes[i..j], k) {
      assert Bridged(nodes, p, q, i + k) && Bridged(nodes, p, q, i + k + 1);
    }
  }

  lemma {:induction false} PutAt(s: seq<Line>, k: nat, block: seq<Line>, i: nat)
    requires k <= |s| && i < |Put(s, k, block)|
    ensures |Put(s, k, block)| == |s| + |block|
    ensures Put(s, k, block)[i] == if i < k then s[i] else if i < k + |block| then block[i - k] else s[i - |block|]
  {}

  lemma {:induction false} PutDiffer(s: seq<Line>, k: nat, block: seq<Line>)
    requires k <= |s| && Different(s) && Different(block) && forall x :: x in block ==> x !in s
    ensures Different(Put(s, k, block))
  {
    var t := Put(s, k, block);
    forall i, j | 0 <= i < j < |t| ensures t[i] != t[j] {
      PutAt(s, k, block, i);
      PutAt(s, k, block, j);
      hide Put;
      if k <= i < k + |block| { assert t[i] in block; }
      if k <= j < k + |block| { assert t[j] in block; }
    }
  }

  /** The links that a ring and a block have after the block was linked in before line k. */
  ghost predicate Joined(nodes: seq<Line>, k: nat, block: seq<Line>, i: nat)
    requires 0 < k <= |nodes| && block != [] && i < |nodes| + |block|
    reads nodes, block
  {
    var after, n := if k < |nodes| then k else 0, |block|;
    if k <= i < k + n then
      && block[i - k].next == (if i == k + n - 1 then nodes[after] else block[i - k + 1])
      && block[i - k].prev == (if i == k then nodes[k - 1] else block[i - k - 1])
    else
      var m := if i < k then i else i - n;
      && nodes[m].next == (if m == k - 1 then block[0] else nodes[Next(m, |nodes|)])
      && nodes[m].prev == (if m == after then block[n - 1] else nodes[Prev(m, |nodes|)])
  }

  lemma {:induction false} JoinedBeside(nodes: seq<Line>, k: nat, block: seq<Line>, i: nat)
    requires 0 < k <= |nodes| && block != [] && i < |nodes| + |block| && Joined(nodes, k, block, i)
    ensures |Put(nodes, k, block)| == |nodes| + |block| && Beside(Put(nodes, k, block), i)
  {
    var all := Put(nodes, k, block);
    PutAt(nodes, k, block, i);
    PutAt(nodes, k, block, Next(i, |all|));
    PutAt(nodes, k, block, Prev(i, |all|));
    hide Put;
  }

  /** A block is linked in before line k. */
  method Link(ghost nodes: seq<Line>, before: Line, first: Line, last: Line, after: Line, ghost k: nat, ghost block: seq<Line>)
    requires Ring(nodes) && Chain(block) && 0 < k <= |nodes| && forall x :: x in block ==> x !in nodes
    requires before == nodes[k - 1] && after == nodes[if k < |nodes| then k else 0]
    requires first == block[0] && last == block[|block| - 1]
    modifies nodes, block
    ensures Ring(Put(nodes, k, block))
  {
    first.prev := before;
    last.next := after;
    after.prev := last;
    before.next := first;
    ghost var all, n := Put(nodes, k, block), |block|;
    forall i | 0 <= i < |nodes| + n ensures Beside(all, i) {
      if k <= i < k + n {
        assert block[i - k] in block;
        if i < k + n - 1 { assert old(Follows(block, i - k)); }
        if k < i { assert old(Follows(block, i - k - 1)); }
      } else {
        ghost var m := if i < k then i else i - n;
        assert old(Beside(nodes, m));
        assert nodes[m] in nodes && first in block && last in block;
      }
      assert Joined(nodes, k, block, i);
      JoinedBeside(nodes, k, block, i);
    }
    PutDiffer(nodes, k, block);
  }

  // ---------- The lines as texts ----------

  /** The texts of the lines; the header has none. */
  function Content(nodes: seq<Line>): (t: seq<string>)
    ensures nodes != [] ==> |t| == |nodes| - 1 && forall i :: 0 <= i < |t| ==> t[i] == nodes[i + 1].text
  {
    if nodes == [] then [] else Texts(nodes)[1..]
  }

  lemma {:induction false} ContentTaken(nodes: seq<Line>, i: nat, j: nat)
    requires 0 < i <= j <= |nodes|
    ensures Content(Taken(nodes, i, j)) == Taken(Content(nodes), i - 1, j - 1)
  {
    hide Content;
  }

  lemma {:induction false} ContentPut(nodes: seq<Line>, k: nat, block: seq<Line>)
    requires 0 < k <= |nodes|
    ensures Content(Put(nodes, k, block)) == Put(Content(nodes), k - 1, Texts(block))
  {
    hide Content, Texts;
  }

  function FirstNewline(s: string): (n: nat)
    ensures n <= |s| && (n < |s| ==> s[n] == '\n') && forall i :: 0 <= i < n ==> s[i] != '\n'
  {
    if s == "" || s[0] == '\n' then 0 else 1 + FirstNewline(s[1..])
  }

  /** A text cut at its newlines; there is always a last line, perhaps an empty one. */
  function SplitLines(s: string): (t: seq<string>)
    ensures t != [] && forall i :: 0 <= i < |t| ==> '\n' !in t[i]
    decreases |s|
  {
    var n := FirstNewline(s);
    if n == |s| then [s] else [s[..n]] + SplitLines(s[n + 1..])
  }

  lemma {:induction false} SplitStep(done: seq<string>, s: string)
    ensures
      var n := FirstNewline(s);
      '\n' !in s[..n] &&
      done + SplitLines(s) == if n < |s| then (done + [s[..n]]) + SplitLines(s[n + 1..]) else done + [s[..n]]
  {
    assert s[..|s|] == s;
  }

  predicate Whole(t: seq<string>) { forall i :: 0 <= i < |t| ==> '\n' !in t[i] }

  lemma {:induction false} OneLine(s: string)
    requires '\n' !in s
    ensures SplitLines(s) == [s]
  {
    assert FirstNewline(s) == |s|;
  }

  function Concatenated(t: seq<string>): string {
    if t == [] then "" else Concatenated(t[..|t| - 1]) + t[|t| - 1]
  }

  lemma {:induction false} LineIsWhole(t: seq<string>, i: nat)
    requires i < |t| && Whole(t)
    ensures '\n' !in t[i]
  {}

  lemma {:induction false} PartIsWhole(t: seq<string>, i: nat, j: nat)
    requires i <= j <= |t| && Whole(t)
    ensures Whole(t[i..j])
  {}

  lemma {:induction false} ConcatenatedIsWhole(t: seq<string>)
    requires Whole(t)
    ensures '\n' !in Concatenated(t)
    decreases |t|
  {
    if t != [] { ConcatenatedIsWhole(t[..|t| - 1]); }
  }

  lemma {:induction false} OtherLines(nodes: seq<Line>, i: nat, j: nat)
    requires Different(nodes) && j < |nodes|
    ensures i < |nodes| && i != j ==> nodes[i] != nodes[j]
    ensures 0 < i < |nodes| ==> nodes[i] != nodes[0]
  {}

  function LineSet(nodes: seq<Line>): set<Line> { set x | x in nodes }

  datatype Status = Success | Error | BadLineRange

  class Editor {
    const line0: Line
    var curLn: int
    var curPtr: Line
    var lastLn: int
    var line1: int
    var line2: int
    ghost var nodes: seq<Line>

    ghost function Lines(): seq<string>
      reads `nodes
    {
      Content(nodes)
    }

    ghost function Owned(): set<Line>
      reads `nodes
    {
      LineSet(nodes)
    }

    ghost predicate Valid()
      reads this, nodes
    {
      && nodes != [] && nodes[0] == line0 && Ring(nodes) && lastLn == |nodes| - 1
      && 0 <= curLn <= lastLn && curPtr == nodes[curLn] && Whole(Content(nodes))
    }

    /** An empty buffer. */
    constructor ()
      ensures Valid() && Lines() == [] && fresh(line0) && nodes == [line0]
    {
      var header := new Line("");
      line0, curPtr, curLn, lastLn, line1, line2 := header, header, 0, 0, 0, 0;
      nodes := [header];
      new;
      line0.next := line0;
      line0.prev := line0;
      assert Beside(nodes, 0);
    }

    function NextLn(l: int): int
      reads this
    {
      if l + 1 > lastLn then 0 else l + 1
    }

    function PrevLn(l: int): int
      reads this
    {
      if l - 1 < 0 then lastLn else l - 1
    }

    /** getptr: the line with the number, found from the nearer end. */
    method GetPtr(num: nat) returns (ptr: Line)
      requires nodes != [] && nodes[0] == line0 && Ring(nodes) && lastLn == |nodes| - 1 && num <= lastLn
      ensures ptr == nodes[num]
    {
      if 2 * num > lastLn && num <= lastLn {
        assert Beside(nodes, 0);
        ptr := line0.prev;
        var j: nat := lastLn;
        while j > num
          invariant num <= j <= lastLn && ptr == nodes[j]
        {
          assert Beside(nodes, j);
          ptr := ptr.prev;
          j := j - 1;
        }
      } else {
        ptr := line0;
        var j := 0;
        while j < num
          invariant 0 <= j <= num && ptr == nodes[j]
        {
          assert Beside(nodes, j);
          ptr := ptr.next;
          j := j + 1;
        }
      }
    }

    method SetCurLn(lin: nat)
      requires nodes != [] && nodes[0] == line0 && Ring(nodes) && lastLn == |nodes| - 1 && lin <= lastLn && Whole(Content(nodes))
      modifies `curLn, `curPtr
      ensures Valid() && curLn == lin
    {
      curLn := lin;
      curPtr := GetPtr(lin);
    }

    /** One turn of ins: a new line behind the current one. */
    method InsLine(text: string)
      requires Valid() && '\n' !in text
      modifies this, Owned()
      ensures Valid() && Lines() == Put(old(Lines()), old(curLn), [text]) && curLn == old(curLn) + 1
      ensures line1 == old(line1) && line2 == old(line2) && fresh(Owned() - old(Owned()))
    {
      ghost var all, k := nodes, curLn + 1;
      var line := new Line(text);
      assert Beside(nodes, curLn);
      var nxt: Line := curPtr.next;
      assert Chain([line]);
      ContentPut(all, k, [line]);
      hide Ring, Chain, Content, Put;
      Link(all, curPtr, line, line, nxt, k, [line]);
      Placed(all, k, line, line0);
      nodes := Put(all, k, [line]);
      lastLn := lastLn + 1;
      curLn := curLn + 1;
      curPtr := line;
    }

    /** ins: the lines of the text are put behind the current line. */
    method Ins(text: string)
      requires Valid()
      modifies this, Owned()
      ensures Valid() && Lines() == Put(old(Lines()), old(curLn), SplitLines(text)) && curLn == old(curLn) + |SplitLines(text)|
      ensures line1 == old(line1) && line2 == old(line2) && fresh(Owned() - old(Owned()))
    {
      hide Ring, Content, Put, Texts, Whole, SplitLines;
      var rest, more := text, true;
      ghost var before, at, done: seq<string> := Lines(), curLn, [];
      PutNothing(before, at);
      while more
        invariant Valid() && |done| == curLn - at && Lines() == Put(before, at, done)
        invariant SplitLines(text) == if more then done + SplitLines(rest) else done
        invariant line1 == old(line1) && line2 == old(line2) && fresh(Owned() - old(Owned()))
        decreases more, |rest|
      {
        var n := FirstNewline(rest);
        SplitStep(done, rest);
        PutNext(before, at, done, rest[..n]);
        InsLine(rest[..n]);
        done := done + [rest[..n]];
        more := n < |rest|;
        if more { rest := rest[n + 1..]; }
      }
    }

    /** del: both ends of the range are moved to lines that exist, so that a range behind the last line is that
        line.  Returns the lines that are freed. */
    method Del(from0: int, to0: int) returns (ghost freed: seq<Line>)
      requires Valid() && from0 <= to0
      modifies this, Owned()
      ensures Valid() && line1 == old(line1) && line2 == old(line2) && Owned() <= old(Owned())
      ensures old(lastLn) == 0 ==> nodes == old(nodes) && curLn == old(curLn) && freed == []
      ensures old(lastLn) > 0 ==>
        var from, to := Clamp(from0, old(lastLn)), Clamp(to0, old(lastLn));
        && Lines() == Taken(old(Lines()), from - 1, to) && curLn == from - 1 && freed == old(nodes)[from..to + 1]
    {
      hide Ring, Content, Texts, Whole, Different, Taken;
      freed := [];
      if lastLn == 0 { return; }
      var from, to := from0, to0;
      if from > lastLn { from := lastLn; }
      if to > lastLn { to := lastLn; }
      if from < 1 { from := 1; }
      if to < 1 { to := 1; }
      freed := CutOut(from, to);
      SetCurLn(PrevLn(from));
    }

    /** The lines from..to are freed and the ring is closed behind them. */
    method CutOut(from: nat, to: nat) returns (ghost freed: seq<Line>)
      requires Valid() && 1 <= from <= to <= lastLn
      modifies `nodes, `lastLn, Owned()
      ensures nodes == Taken(old(nodes), from, to + 1) && Ring(nodes) && nodes[0] == line0 && lastLn == |nodes| - 1
      ensures Lines() == Taken(old(Lines()), from - 1, to) && Whole(Lines()) && freed == old(nodes)[from..to + 1]
      ensures |nodes| == |old(nodes)| - (to + 1 - from) && Owned() <= old(Owned())
    {
      hide Content, Texts, Whole, Different, Taken;
      ghost var all := nodes;
      assert all[from - 1 + 1] == all[from] && Beside(all, from) && Beside(all, to) && Beside(all, from - 1);
      var p := GetPtr(from);
      var q := GetPtr(to);
      var first: Line, last: Line := p.prev, q.next;
      freed := FreeLines(first.next, last, from, to);
      TakenIs(all, from, to + 1);
      Unlink(all, first, last, from, to + 1);
      nodes := Taken(all, from, to + 1);
      lastLn := lastLn - ((to - from) + 1);
    }

    /** The loop that frees the lines up to `last`. */
    method FreeLines(next0: Line?, last: Line, ghost from: nat, ghost to: nat) returns (ghost freed: seq<Line>)
      requires Valid() && 1 <= from <= to <= lastLn
      requires next0 == nodes[from] && last == nodes[Next(to, |nodes|)]
      ensures freed == nodes[from..to + 1]
    {
      hide Content, Texts, Whole;
      var next := next0;
      freed := [];
      ghost var k := from;
      while next != last && next != line0
        invariant from <= k <= to + 1 && next == nodes[if k <= to then k else Next(to, |nodes|)] && freed == nodes[from..k]
        decreases (to + 1) - k
      {
        assert Beside(nodes, k);
        assert nodes[from..k + 1] == nodes[from..k] + [nodes[k]];
        freed := freed + [nodes[k]];
        next := next.next;
        k := k + 1;
      }
      OtherLines(nodes, k, Next(to, |nodes|));
    }

    /** join: the texts of the lines first..last become one line. */
    method Join(first: int, last: int) returns (status: Status)
      requires Valid()
      modifies this, Owned()
      ensures Valid() && fresh(Owned() - old(Owned()))
      ensures status == BadLineRange <==> first <= 0 || first > last || last > old(lastLn)
      ensures status != BadLineRange && first < last ==>
        (status == Error <==> |Concatenated(old(Lines())[first - 1..last])| > ED_MAXLINE - 1)
      ensures status != Success ==> nodes == old(nodes) && curLn == old(curLn)
      ensures status == Success ==> curLn == first && first <= last
      ensures status == Success && first == last ==> nodes == old(nodes)
      ensures status == Success && first < last ==>
        Lines() == old(Lines())[..first - 1] + [Concatenated(old(Lines())[first - 1..last])] + old(Lines())[last..]
    {
      hide Texts, Whole, Ring, Content, SplitLines, Concatenated;
      if first <= 0 || first > last || last > lastLn { return BadLineRange; }
      if first == last {
        SetCurLn(first);
        return Success;
      }
      var tooLong, buf := Gather(first, last);
      if tooLong { return Error; }
      ghost var before := Lines();
      PartIsWhole(before, first - 1, last);
      ConcatenatedIsWhole(before[first - 1..last]);
      OneLine(buf);
      ghost var freed := Del(first, last);
      Ins(buf);
      return Success;
    }

    /** The loop of join that copies the texts, as long as they fit. */
    method Gather(first: nat, last: nat) returns (tooLong: bool, buf: string)
      requires Valid() && 1 <= first < last <= lastLn
      ensures tooLong <==> |Concatenated(Lines()[first - 1..last])| > ED_MAXLINE - 1
      ensures !tooLong ==> buf == Concatenated(Lines()[first - 1..last])
    {
      hide Ring, Texts, Whole, Concatenated;
      ghost var t := Lines()[first - 1..last];
      var lin := GetPtr(first);
      tooLong, buf := false, "";
      var num: nat := first;
      ConcatenatedStart(t);
      while num <= last
        invariant first <= num <= last + 1 && buf == Concatenated(t[..num - first]) && |buf| <= ED_MAXLINE - 1
        invariant lin == nodes[Next(num - 1, |nodes|)]
      {
        ConcatenatedNext(t, num - first);
        tooLong, buf := AppendText(buf, lin.text);
        if tooLong { return; }
        lin := NextPtr(lin, num);
        num := num + 1;
      }
    }

    /** lin->l_next */
    method NextPtr(lin: Line, ghost i: nat) returns (next: Line)
      requires Valid() && i < |nodes| && lin == nodes[i]
      ensures next == nodes[Next(i, |nodes|)]
    {
      assert Beside(nodes, i);
      next := lin.next;
    }

    /** move: the lines line1..line2 go behind line num. */
    method Move(num0: int) returns (status: Status)
      requires Valid() && 1 <= line1 <= line2 <= lastLn && 0 <= num0 <= lastLn
      modifies this, Owned()
      ensures Valid() && Owned() == old(Owned()) && lastLn == old(lastLn)
      ensures status == BadLineRange <==> old(line1) <= num0 <= old(line2)
      ensures status != BadLineRange ==> status == Success
      ensures status == BadLineRange ==> nodes == old(nodes) && curLn == old(curLn)
      ensures status == Success ==>
        Lines() == (if num0 < old(line1) then MovedUp(old(Lines()), old(line1), old(line2), num0)
                    else MovedDown(old(Lines()), old(line1), old(line2), num0))
      ensures status == Success ==> curLn == if num0 < old(line1) then num0 + (old(line2) - old(line1) + 1) else num0
    {
      hide Ring, Content, Texts, Whole, Different, Taken, Put, Chain, MovedUp, MovedDown, LineSet;
      var num := num0;
      if line1 <= num && num <= line2 { return BadLineRange; }
      var range := line2 - line1 + 1;
      ghost var all, i, j := nodes, line1, line2 + 1;
      var first, last := UnlinkRange();
      lastLn := lastLn - range;
      if num > line1 { num := num - range; }
      MovedIs(all, i, j, num, num0);
      LinkBehind(num, first, last, all[i..j]);
      lastLn := lastLn + range;
      SetCurLn(num + range);
      return Success;
    }

    /** The lines line1..line2 are unlinked. */
    method UnlinkRange() returns (first: Line, last: Line)
      requires Valid() && 1 <= line1 <= line2 <= lastLn
      modifies `nodes, Owned()
      ensures nodes == Taken(old(nodes), line1, line2 + 1) && |nodes| == |old(nodes)| - (line2 - line1 + 1)
      ensures nodes != [] && nodes[0] == line0 && Ring(nodes)
      ensures var block := old(nodes)[line1..line2 + 1]; Chain(block) && first == block[0] && last == block[|block| - 1]
      ensures LineSet(old(nodes)[line1..line2 + 1]) !! Owned()
      ensures LineSet(old(nodes)[line1..line2 + 1]) <= old(Owned()) && Owned() <= old(Owned())
    {
      hide Content, Texts, Whole, Different, Taken, Chain;
      ghost var all, i, j := nodes, line1, line2 + 1;
      RingParts(all, i, j);
      var before := GetPtr(PrevLn(line1));
      first := GetPtr(line1);
      last := GetPtr(line2);
      var after := GetPtr(NextLn(line2));
      Unlink(all, before, after, i, j);
      nodes := Taken(all, i, j);
    }

    /** The block is linked in behind line num. */
    method LinkBehind(num: nat, first: Line, last: Line, ghost block: seq<Line>)
      requires nodes != [] && nodes[0] == line0 && Ring(nodes) && lastLn == |nodes| - 1 && num <= lastLn
      requires Chain(block) && first == block[0] && last == block[|block| - 1] && LineSet(block) !! Owned()
      modifies `nodes, Owned(), LineSet(block)
      ensures nodes == Put(old(nodes), num + 1, block) && Ring(nodes)
    {
      hide Ring, Chain, Put;
      assert forall x :: x in block ==> x in LineSet(block);
      var before := GetPtr(num);
      var after := GetPtr(NextLn(num));
      Link(nodes, before, first, last, after, num + 1, block);
      nodes := Put(nodes, num + 1, block);
    }

    /** transfer: copies of the lines line1..line2 go behind line num, even when that is one of them. */
    method Transfer(num: nat) returns (status: Status)
      requires Valid() && line2 <= lastLn && num <= lastLn
      modifies this, Owned()
      ensures Valid() && fresh(Owned() - old(Owned()))
      ensures status == if old(line1) <= 0 || old(line1) > old(line2) then Error else Success
      ensures status == Error ==> nodes == old(nodes) && curLn == old(curLn)
      ensures status == Success ==>
        && Lines() == Put(old(Lines()), num, old(Lines())[old(line1) - 1..old(line2)])
        && curLn == num + (old(line2) - old(line1) + 1)
    {
      hide Content, Texts, Whole, Ring, Put;
      if line1 <= 0 || line1 > line2 { return Error; }
      ghost var text, l1, l2 := Lines(), line1, line2;
      var mid := if num < line2 then num else line2;
      SetCurLn(num);
      var ntrans := 0;
      var lin: int := line1;
      PutNothing(text, num);
      assert text[l1 - 1..l1 - 1] == [];
      while lin <= mid
        invariant Valid() && l1 <= lin <= l1 + ntrans && lin == l1 + ntrans && (ntrans > 0 ==> lin <= mid + 1)
        invariant line2 == l2 && line1 == l1 && curLn == num + ntrans && Lines() == Put(text, num, text[l1 - 1..l1 - 1 + ntrans])
        invariant fresh(Owned() - old(Owned()))
      {
        CopyLine(lin, text, num, l1, ntrans);
        ntrans := ntrans + 1;
        lin := lin + 1;
      }
      lin := lin + ntrans;
      line2 := line2 + ntrans;
      ghost var t := ntrans;
      while lin <= line2
        invariant Valid() && ntrans <= t <= l2 - l1 + 1 && lin == l1 + 2 * t && line2 == l2 + t && line1 == l1
        invariant curLn == num + t && Lines() == Put(text, num, text[l1 - 1..l1 - 1 + t])
        invariant l1 + ntrans > mid
        invariant fresh(Owned() - old(Owned()))
        decreases line2 - lin
      {
        CopyLine(lin, text, num, l1, t);
        line2 := line2 + 1;
        lin := lin + 2;
        t := t + 1;
      }
      return Success;
    }

    /** Copies line lin, which holds what line l1 + t held before, behind the t copies made so far. */
    method CopyLine(lin: nat, ghost text: seq<string>, ghost num: nat, ghost l1: nat, ghost t: nat)
      requires Valid() && 1 <= l1 && num <= |text| && l1 + t <= |text|
      requires Lines() == Put(text, num, text[l1 - 1..l1 - 1 + t]) && curLn == num + t
      requires if l1 + t <= num then lin == l1 + t else lin == l1 + 2 * t
      modifies this, Owned()
      ensures Valid() && line1 == old(line1) && line2 == old(line2) && curLn == num + t + 1
      ensures Lines() == Put(text, num, text[l1 - 1..l1 + t])
      ensures fresh(Owned() - old(Owned()))
    {
      hide Texts, Whole, Ring, Put, SplitLines;
      PutText(text, num, l1 - 1, t, lin - 1);
      LineIsWhole(Lines(), lin - 1);
      var ptr := GetPtr(lin);
      OneLine(ptr.text);
      PutNext(text, num, text[l1 - 1..l1 - 1 + t], ptr.text);
      assert text[l1 - 1..l1 - 1 + t] + [text[l1 - 1 + t]] == text[l1 - 1..l1 + t];
      Ins(ptr.text);
    }
  }

  /** Copies a text behind another one, until there is no room any more. */
  method AppendText(buf0: string, str: string) returns (tooLong: bool, buf: string)
    requires |buf0| <= ED_MAXLINE - 1
    ensures tooLong <==> |buf0 + str| > ED_MAXLINE - 1
    ensures !tooLong ==> buf == buf0 + str
  {
    buf := buf0;
    var i := 0;
    while i < |str|
      invariant 0 <= i <= |str| && buf == buf0 + str[..i] && |buf| <= ED_MAXLINE - 1
    {
      if |buf| >= ED_MAXLINE - 1 { return true, buf; }
      buf := buf + [str[i]];
      i := i + 1;
    }
    assert str[..i] == str;
    return false, buf;
  }

  function Clamp(l: int, lastLn: int): int { if l > lastLn then lastLn else if l < 1 then 1 else l }

  /** The lines l1..l2 come behind line num, which is above or below them. */
  function MovedUp(t: seq<string>, l1: int, l2: int, num: int): seq<string>
    requires 0 <= num < l1 <= l2 <= |t|
  {
    t[..num] + t[l1 - 1..l2] + t[num..l1 - 1] + t[l2..]
  }

  function MovedDown(t: seq<string>, l1: int, l2: int, num: int): seq<string>
    requires 1 <= l1 <= l2 < num <= |t|
  {
    t[..l1 - 1] + t[l2..num] + t[l1 - 1..l2] + t[num..]
  }

  lemma {:induction false} PutNext(before: seq<string>, at: nat, done: seq<string>, line: string)
    requires at <= |before|
    ensures Put(Put(before, at, done), at + |done|, [line]) == Put(before, at, done + [line])
  {}

  lemma {:induction false} PutText(text: seq<string>, num: nat, i: nat, t: nat, m: nat)
    requires num <= |text| && i + t < |text|
    requires if i + t < num then m == i + t else m == i + 2 * t
    ensures m < |Put(text, num, text[i..i + t])| && Put(text, num, text[i..i + t])[m] == text[i + t]
  {}

  lemma {:induction false} ConcatenatedGrows(t: seq<string>, n: nat)
    requires n <= |t|
    ensures |Concatenated(t[..n])| <= |Concatenated(t)|
    decreases |t| - n
  {
    if n < |t| {
      ConcatenatedGrows(t, n + 1);
      assert t[..n + 1][..n] == t[..n];
    } else {
      assert t[..n] == t;
    }
  }

  lemma {:induction false} ConcatenatedStart(t: seq<string>)
    ensures Concatenated(t[..0]) == "" && t[..|t|] == t
  {}

  lemma {:induction false} ConcatenatedNext(t: seq<string>, n: nat)
    requires n < |t|
    ensures Concatenated(t[..n + 1]) == Concatenated(t[..n]) + t[n] && |Concatenated(t[..n + 1])| <= |Concatenated(t)|
  {
    assert t[..n + 1][..n] == t[..n];
    ConcatenatedGrows(t, n + 1);
  }

  lemma {:induction false} RingParts(nodes: seq<Line>, i: nat, j: nat)
    requires Ring(nodes) && 0 < i < j <= |nodes|
    ensures
      var rest, block := Taken(nodes, i, j), nodes[i..j];
      && |rest| == |nodes| - (j - i) && rest[0] == nodes[0] && |block| == j - i && block[0] == nodes[i] && block[j - i - 1] == nodes[j - 1]
      && LineSet(block) !! LineSet(rest) && LineSet(block) <= LineSet(nodes) && LineSet(rest) <= LineSet(nodes)
  {
    BlockIsOut(nodes, i, j);
  }

  lemma {:induction false} BlockIsOut(nodes: seq<Line>, i: nat, j: nat)
    requires 0 < i < j <= |nodes| && Different(nodes)
    ensures forall x :: x in nodes[i..j] ==> x !in Taken(nodes, i, j)
  {
    forall k | 0 <= k < |Taken(nodes, i, j)| ensures Taken(nodes, i, j)[k] !in nodes[i..j] { TakenAt(nodes, i, j, k); }
  }

  lemma {:induction false} MovedIs(nodes: seq<Line>, i: nat, j: nat, num: nat, num0: nat)
    requires 0 < i < j <= |nodes| && num <= |nodes| - 1 - (j - i) && (num0 < i || num0 >= j) && Whole(Content(nodes))
    requires num == if num0 < i then num0 else num0 - (j - i)
    ensures
      var rest, block := Taken(nodes, i, j), nodes[i..j];
      var all, text := Put(rest, num + 1, block), Content(nodes);
      && |all| == |nodes| && all[0] == nodes[0] && LineSet(all) == LineSet(nodes) && Whole(Content(all))
      && Content(all) == if num0 < i then MovedUp(text, i, j - 1, num0) else MovedDown(text, i, j - 1, num0)
  {
    hide Content, Texts, Put, Taken, Whole, MovedUp, MovedDown;
    var rest, block := Taken(nodes, i, j), nodes[i..j];
    var text := Content(nodes);
    MovedSame(nodes, i, j, num + 1);
    ContentMoved(nodes, i, j, num);
    if num0 < i { PutBackUp(text, i - 1, j - 1, num); } else { PutBackDown(text, i - 1, j - 1, num); }
  }

  lemma {:induction false} ContentMoved(nodes: seq<Line>, i: nat, j: nat, num: nat)
    requires 0 < i < j <= |nodes| && num <= |nodes| - 1 - (j - i)
    ensures
      var text := Content(nodes);
      && |text| == |nodes| - 1 && |Taken(nodes, i, j)| == |nodes| - (j - i) && |Taken(text, i - 1, j - 1)| == |text| - (j - i)
      && Content(Put(Taken(nodes, i, j), num + 1, nodes[i..j])) == Put(Taken(text, i - 1, j - 1), num, text[i - 1..j - 1])
  {
    hide Put;
    ContentTaken(nodes, i, j);
    assert Texts(nodes[i..j]) == Content(nodes)[i - 1..j - 1];
    ContentPut(Taken(nodes, i, j), num + 1, nodes[i..j]);
  }

  lemma {:induction false} PutBackUp(t: seq<string>, a: nat, b: nat, num: nat)
    requires num <= a <= b <= |t| && a < b && Whole(t)
    ensures Put(Taken(t, a, b), num, t[a..b]) == MovedUp(t, a + 1, b, num) && Whole(MovedUp(t, a + 1, b, num))
  {
    var rest := Taken(t, a, b);
    assert rest[..num] == t[..num];
    assert rest[num..] == t[num..a] + t[b..];
    Grouped(t[..num] + t[a..b], t[num..a], t[b..]);
  }

  lemma {:induction false} PutBackDown(t: seq<string>, a: nat, b: nat, num: nat)
    requires a < b <= |t| && a < num <= |t| - (b - a) && Whole(t)
    ensures Put(Taken(t, a, b), num, t[a..b]) == MovedDown(t, a + 1, b, num + (b - a)) && Whole(MovedDown(t, a + 1, b, num + (b - a)))
  {
    var rest := Taken(t, a, b);
    assert rest[..num] == t[..a] + t[b..num + (b - a)];
    assert rest[num..] == t[num + (b - a)..];
  }

  lemma {:induction false} Grouped(x: seq<string>, y: seq<string>, z: seq<string>)
    ensures x + (y + z) == (x + y) + z
  {}

  lemma {:induction false} MovedSame(nodes: seq<Line>, i: nat, j: nat, k: nat)
    requires 0 < i < j <= |nodes| && 0 < k <= |nodes| - (j - i)
    ensures
      var all := Put(Taken(nodes, i, j), k, nodes[i..j]);
      |all| == |nodes| && all[0] == nodes[0] && LineSet(all) == LineSet(nodes)
  {
    var rest := Taken(nodes, i, j);
    var all := Put(rest, k, nodes[i..j]);
    forall x | x in nodes ensures x in all {
      var m :| 0 <= m < |nodes| && nodes[m] == x;
      if i <= m < j { assert nodes[i..j][m - i] == x && x in nodes[i..j]; }
      else { assert rest[if m < i then m else m - (j - i)] == x && x in rest; }
      assert x in rest ==> x in rest[..k] || x in rest[k..] by { assert rest == rest[..k] + rest[k..]; }
    }
  }

  lemma {:induction false} TakenIs(nodes: seq<Line>, i: nat, j: nat)
    requires 0 < i <= j <= |nodes| && Whole(Content(nodes))
    ensures
      var rest := Taken(nodes, i, j);
      && |rest| == |nodes| - (j - i) && rest[0] == nodes[0] && (forall x :: x in rest ==> x in nodes)
      && Content(rest) == Taken(Content(nodes), i - 1, j - 1) && Whole(Content(rest))
  {
    ContentTaken(nodes, i, j);
  }

  lemma {:induction false} PutNothing(t: seq<string>, at: nat)
    requires at <= |t|
    ensures Put(t, at, []) == t
  {}

  lemma {:induction false} Placed(nodes: seq<Line>, k: nat, line: Line, line0: Line)
    requires 0 < k <= |nodes| && nodes[0] == line0 && Whole(Content(nodes)) && '\n' !in line.text
    ensures
      var all := Put(nodes, k, [line]);
      && |all| == |nodes| + 1 && all[0] == line0 && all[k] == line && Whole(Content(all))
      && Put(Content(nodes), k - 1, Texts([line])) == Put(Content(nodes), k - 1, [line.text])
      && forall x :: x in all ==> x in nodes || x == line
  {
    assert Texts([line]) == [line.text];
    ContentPut(nodes, k, [line]);
  }
}
