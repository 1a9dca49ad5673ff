/** How a switch is compiled: the classification of its cases (prepare_cases, src/compiler.c:2187-2281)
    and the bytes written for it (src/icode.c:523-599). */
module SwitchCompiler {
  import opened Basics
  import opened Bytecode
  import opened Layout
  import opened Patching
  import opened SwitchSearch

  /** A label of the switch body; the parser drops a range whose ends are in the wrong order. */
  datatype Label = Default | Single(key: Int32) | Span(lo: Int32, hi: Int32)

  datatype Kind = Numbers | Ranges | Direct

  function Low(l: Label): Int32
    requires !l.Default?
  {
    if l.Single? then l.key else l.lo
  }

  function High(l: Label): Int32
    requires !l.Default?
  {
    if l.Single? then l.key else l.hi
  }

  /** case_compare */
  predicate Before(a: Label, b: Label) {
    a.Default? || (!b.Default? && Low(a) <= Low(b))
  }

  /** What the parser hands over: at most one default, and the kind says whether there is a range. */
  predicate Parsed(kind: Kind, ls: seq<Label>) {
    && (forall i, j :: 0 <= i < j < |ls| ==> !(ls[i].Default? && ls[j].Default?))
    && (forall i :: 0 <= i < |ls| && ls[i].Span? ==> ls[i].lo <= ls[i].hi)
    && if kind.Ranges? then true else kind.Numbers? && forall i :: 0 <= i < |ls| ==> !ls[i].Span?
  }

  predicate InOrder(ls: seq<Label>) {
    forall i, j :: 0 <= i < j < |ls| ==> Before(ls[i], ls[j])
  }

  predicate Overlap(a: Label, b: Label) {
    !a.Default? && !b.Default? && Low(a) <= High(b) && Low(b) <= High(a)
  }

  ghost predicate SomeOverlap(ls: seq<Label>) {
    exists i, j :: 0 <= i < j < |ls| && Overlap(ls[i], ls[j])
  }

  /** The number of default labels in front. */
  function Skip(ls: seq<Label>): nat { if ls != [] && ls[0].Default? then 1 else 0 }

  predicate Run(ls: seq<Label>) {
    var k := Skip(ls);
    k < |ls| && ls[k].Single? && forall i :: k <= i < |ls| ==> ls[i].Single? && ls[i].key == ls[k].key + (i - k)
  }

  /** prepare_cases on labels that quickSort has put in order: reports overlapping cases of a switch
      with ranges, and picks the direct format when the keys are consecutive. */
  method PrepareCases(kind: Kind, ls: seq<Label>) returns (kind': Kind, overlapping: bool)
    requires Parsed(kind, ls) && InOrder(ls)
    ensures overlapping <==> kind.Ranges? && SomeOverlap(ls)
    ensures kind' == if kind.Numbers? && Run(ls) then Kind.Direct else kind
  {
    hide SomeOverlap;
    kind', overlapping := kind, false;
    if ls == [] {
      NoOverlap(ls, 0);
      return;
    }
    var ce := 0;
    if ls[0].Default? {
      if |ls| == 1 {
        NoOverlap(ls, 1);
        assert ls[..1] == ls;
        return;
      }
      ce := 1;
    }
    var direct := !ls[ce].Span?;
    var last: int := High(ls[ce]);
    ce := ce + 1;
    NoOverlap(ls, ce);
    while ce < |ls|
      invariant Skip(ls) < ce <= |ls| && (forall i :: Skip(ls) <= i < |ls| ==> !ls[i].Default?)
      invariant last == High(ls[ce - 1])
      invariant overlapping <==> kind.Ranges? && SomeOverlap(ls[..ce])
      invariant direct <==> Run(ls[..ce])
    {
      var key := Low(ls[ce]);
      if kind.Ranges? && key <= last { overlapping := true; }
      NextOverlap(ls, ce);
      if ls[ce].Span? {
        direct := false;
      } else if last + 1 != key {
        direct := false;
      }
      last := High(ls[ce]);
      ce := ce + 1;
    }
    assert ls[..ce] == ls;
    if direct && kind.Numbers? { kind' := Kind.Direct; }
  }

  lemma {:induction false} NoOverlap(ls: seq<Label>, n: nat)
    requires n <= |ls| && n <= 1 + Skip(ls)
    ensures !SomeOverlap(ls[..n])
  {}

  /** A label in order overlaps some earlier one if and only if it overlaps the one just before it, or
      there was an overlap before. */
  lemma {:induction false} NextOverlap(ls: seq<Label>, n: nat)
    requires Skip(ls) < n < |ls| && InOrder(ls) && forall i :: Skip(ls) <= i < |ls| ==> !ls[i].Default?
    requires forall i :: 0 <= i < |ls| && ls[i].Span? ==> ls[i].lo <= ls[i].hi
    ensures SomeOverlap(ls[..n + 1]) <==> SomeOverlap(ls[..n]) || Low(ls[n]) <= High(ls[n - 1])
  {
    var a, b := ls[..n], ls[..n + 1];
    if SomeOverlap(a) {
      var i, j :| 0 <= i < j < |a| && Overlap(a[i], a[j]);
      assert Overlap(b[i], b[j]);
    }
    if Low(ls[n]) <= High(ls[n - 1]) {
      assert Overlap(b[n - 1], b[n]);
    }
    if i: nat, j: nat :| i < j < |b| && Overlap(b[i], b[j]) {
      if j < n {
        assert Overlap(a[i], a[j]);
      } else if i < n - 1 {
        assert Overlap(a[i], a[n - 1]);
      }
    }
  }

  // ---------- The body of a switch ----------

  datatype Part = Code(bytes: seq<Byte>) | Mark | Break

  function PartLength(p: Part): nat {
    match p
    case Code(bytes) => |bytes|
    case Mark => 0
    case Break => 3
  }

  function BodyLength(body: seq<Part>): nat {
    if body == [] then 0 else BodyLength(body[..|body| - 1]) + PartLength(body[|body| - 1])
  }

  /** The positions of the labels of a body that begins at `at`. */
  function Marks(body: seq<Part>, at: nat): seq<nat> {
    if body == [] then []
    else
      var init := body[..|body| - 1];
      Marks(init, at) + if body[|body| - 1].Mark? then [at + BodyLength(init)] else []
  }

  /** The offsets of its breaks, last one first. */
  function BreakHoles(body: seq<Part>, at: nat): seq<nat> {
    if body == [] then []
    else
      var init := body[..|body| - 1];
      (if body[|body| - 1].Break? then [at + BodyLength(init) + 1] else []) + BreakHoles(init, at)
  }

  /** A part is in place; the offset of a break is not looked at. */
  predicate HasPart(code: seq<Byte>, p: Part, at: nat) {
    && at + PartLength(p) <= |code|
    && (p.Code? ==> Has(code, at, p.bytes))
    && (p.Break? ==> code[at] == F_BRANCH)
  }

  predicate HasBody(code: seq<Byte>, body: seq<Part>, at: nat) {
    body == []
    || (var init := body[..|body| - 1];
        HasBody(code, init, at) && HasPart(code, body[|body| - 1], at + BodyLength(init)))
  }

  lemma {:induction false} MarksInside(body: seq<Part>, at: nat)
    ensures forall k :: 0 <= k < |Marks(body, at)| ==> at <= Marks(body, at)[k] <= at + BodyLength(body)
  {
    if body != [] { MarksInside(body[..|body| - 1], at); }
  }

  lemma {:induction false} BreaksInside(body: seq<Part>, at: nat)
    ensures var holes := BreakHoles(body, at);
      && (forall k :: 0 <= k < |holes| ==> at < holes[k] && holes[k] + 2 <= at + BodyLength(body))
      && Spread(holes)
  {
    if body != [] { BreaksInside(body[..|body| - 1], at); }
  }

  predicate AgreeOutside(F: seq<Byte>, G: seq<Byte>, lo: nat, hi: nat, holes: seq<nat>) {
    hi <= |F| && hi <= |G| && forall i: nat :: lo <= i < hi && Outside(holes, i) ==> G[i] == F[i]
  }

  /** A body survives changes at the offsets of its breaks; `later` are offsets behind it. */
  lemma {:induction false} KeepBody(F: seq<Byte>, G: seq<Byte>, body: seq<Part>, at: nat, later: seq<nat>)
    requires HasBody(F, body, at) && forall k :: 0 <= k < |later| ==> at + BodyLength(body) <= later[k]
    requires AgreeOutside(F, G, at, at + BodyLength(body), later + BreakHoles(body, at))
    ensures HasBody(G, body, at)
    decreases |body|
  {
    if body != [] {
      hide Outside, BreakHoles, HasPart;
      var init := body[..|body| - 1];
      var p, q := body[|body| - 1], at + BodyLength(init);
      var here := if p.Break? then [q + 1] else [];
      LastPartStays(body, at, later);
      LastHoles(body, at, later);
      KeepPart(F, G, p, q, later + BreakHoles(body, at));
      assert AgreeOutside(F, G, at, q, (later + here) + BreakHoles(init, at));
      hide AgreeOutside;
      KeepBody(F, G, init, at, later + here);
    }
  }

  lemma {:induction false} KeepPart(F: seq<Byte>, G: seq<Byte>, p: Part, q: nat, holes: seq<nat>)
    requires HasPart(F, p, q) && AgreeOutside(F, G, q, q + PartLength(p), holes)
    requires p.Code? ==> forall i: nat :: q <= i < q + |p.bytes| ==> Outside(holes, i)
    requires p.Break? ==> Outside(holes, q)
    ensures HasPart(G, p, q)
  {
    hide Outside;
  }

  lemma {:induction false} LastHoles(body: seq<Part>, at: nat, later: seq<nat>)
    requires body != []
    ensures
      var p, q := body[|body| - 1], at + BodyLength(body[..|body| - 1]);
      later + BreakHoles(body, at) == (later + if p.Break? then [q + 1] else []) + BreakHoles(body[..|body| - 1], at)
  {}

  lemma {:induction false} LastPartStays(body: seq<Part>, at: nat, later: seq<nat>)
    requires body != [] && forall k :: 0 <= k < |later| ==> at + BodyLength(body) <= later[k]
    ensures
      var p, q := body[|body| - 1], at + BodyLength(body[..|body| - 1]);
      var holes := later + BreakHoles(body, at);
      && (p.Code? ==> forall i: nat :: q <= i < q + |p.bytes| ==> Outside(holes, i))
      && (p.Break? ==> Outside(holes, q))
  {
    hide Outside, BreakHoles, BodyLength;
    var p, q := body[|body| - 1], at + BodyLength(body[..|body| - 1]);
    if p.Code? {
      forall i: nat | q <= i < q + |p.bytes| ensures Outside(later + BreakHoles(body, at), i) {
        LastPartByte(body, at, later, i);
      }
    } else if p.Break? {
      LastPartByte(body, at, later, q);
    }
  }

  lemma {:induction false} LastPartByte(body: seq<Part>, at: nat, later: seq<nat>, i: nat)
    requires body != [] && forall k :: 0 <= k < |later| ==> at + BodyLength(body) <= later[k]
    requires
      var p, q := body[|body| - 1], at + BodyLength(body[..|body| - 1]);
      if p.Code? then q <= i < q + |p.bytes| else i == q && p.Break?
    ensures Outside(later + BreakHoles(body, at), i)
  {
    var init := body[..|body| - 1];
    var p, q := body[|body| - 1], at + BodyLength(init);
    LastHoles(body, at, later);
    BreaksInside(init, at);
    assert at + BodyLength(body) == q + PartLength(p);
    hide BodyLength, BreakHoles;
    OutsideAll(later, if p.Break? then [q + 1] else [], BreakHoles(init, at), i);
  }

  lemma {:induction false} OutsideAll(a: seq<nat>, b: seq<nat>, c: seq<nat>, i: nat)
    requires Outside(a, i) && Outside(b, i) && Outside(c, i)
    ensures Outside((a + b) + c, i)
  {}

  // ---------- The table ----------

  function EntryBytes(e: Entry): (b: seq<Byte>)
    requires e.addr < 0x1_0000
    ensures |b| == 6 && EntryAt(b, 0) == e
  {
    var b := IntBytes(e.key) + ShortBytes(e.addr);
    assert b[0] == IntBytes(e.key)[0] && b[1] == IntBytes(e.key)[1] && b[2] == IntBytes(e.key)[2] && b[3] == IntBytes(e.key)[3];
    assert b[4] == ShortBytes(e.addr)[0] && b[5] == ShortBytes(e.addr)[1];
    assert Int(b, 0) == Int(IntBytes(e.key), 0) && Short(b, 4) == Short(ShortBytes(e.addr), 0);
    b
  }

  lemma {:induction false} ReadBack(F: seq<Byte>, b: seq<Byte>, at: nat)
    requires at + |b| <= |F| && forall i :: 0 <= i < |b| ==> F[at + i] == b[i]
    ensures |b| >= 2 ==> Short(F, at) == Short(b, 0)
    ensures |b| >= 4 ==> Int(F, at) == Int(b, 0)
    ensures |b| >= 6 ==> EntryAt(F, at) == EntryAt(b, 0)
  {
    if |b| >= 2 { assert F[at + 0] == b[0] && F[at + 1] == b[1]; }
    if |b| >= 4 { assert F[at + 2] == b[2] && F[at + 3] == b[3]; }
    if |b| >= 6 { assert F[at + 4] == b[4] && F[at + 5] == b[5]; }
  }

  lemma {:induction false} KeepReads(F: seq<Byte>, G: seq<Byte>, at: nat, n: nat)
    requires Agree(F, G, at, at + n)
    ensures n >= 2 ==> Short(G, at) == Short(F, at)
    ensures n >= 4 ==> Int(G, at) == Int(F, at)
    ensures n >= 6 ==> EntryAt(G, at) == EntryAt(F, at)
  {
    if n >= 2 { assert G[at] == F[at] && G[at + 1] == F[at + 1]; }
    if n >= 4 { assert G[at + 2] == F[at + 2] && G[at + 3] == F[at + 3]; }
    if n >= 6 { assert G[at + 4] == F[at + 4] && G[at + 5] == F[at + 5]; }
  }

  lemma {:induction false} KeepTable(F: seq<Byte>, G: seq<Byte>, tab: nat, es: seq<Entry>)
    requires TableAt(F, tab, es) && Agree(F, G, tab, tab + 6 * |es|)
    ensures TableAt(G, tab, es)
  {
    hide Short, Int;
    forall j | 0 <= j < |es| ensures EntryAt(G, tab + 6 * j) == es[j] {
      assert EntryAt(F, tab + 6 * j) == es[j];
      KeepReads(F, G, tab + 6 * j, 6);
    }
  }

  lemma {:induction false} TableGrows(F: seq<Byte>, tab: nat, es: seq<Entry>, e: Entry)
    requires TableAt(F, tab, es) && |F| == tab + 6 * |es| && e.addr < 0x1_0000
    ensures TableAt(F + EntryBytes(e), tab, es + [e])
  {
    hide EntryBytes, Short, Int;
    var G := F + EntryBytes(e);
    KeepTable(F, G, tab, es);
    ReadBack(G, EntryBytes(e), |F|);
    assert EntryAt(G, tab + 6 * |es|) == e;
    assert forall j :: 0 <= j < |es| ==> (es + [e])[j] == es[j];
  }

  method InsertEntries(code0: seq<Byte>, nodes: seq<Entry>) returns (code: seq<Byte>, tableSize: nat)
    requires forall j :: 0 <= j < |nodes| ==> nodes[j].addr < 0x1_0000
    ensures TableAt(code, |code0|, nodes) && |code| == |code0| + 6 * |nodes| && tableSize == |nodes|
    ensures Agree(code0, code, 0, |code0|)
  {
    code, tableSize := code0, 0;
    while tableSize < |nodes|
      invariant tableSize <= |nodes| && |code| == |code0| + 6 * tableSize
      invariant TableAt(code, |code0|, nodes[..tableSize])
      invariant Agree(code0, code, 0, |code0|)
    {
      TableGrows(code, |code0|, nodes[..tableSize], nodes[tableSize]);
      assert nodes[..tableSize + 1] == nodes[..tableSize] + [nodes[tableSize]];
      code := code + EntryBytes(nodes[tableSize]);
      tableSize := tableSize + 1;
    }
    assert nodes[..tableSize] == nodes;
  }

  /** The power of two that tells the search where to begin. */
  method SizeNibble(tableSize: nat) returns (i: nat)
    ensures SizeOf(i, tableSize)
  {
    var power := 1;
    i := 0;
    while power * 2 <= tableSize
      invariant power == Pow2(i) && (tableSize > 0 ==> power <= tableSize) && (tableSize == 0 ==> i == 0)
      decreases tableSize - power
    {
      power := power * 2;
      i := i + 1;
    }
  }

  lemma {:induction false} NibbleFits(i: nat, n: nat)
    requires SizeOf(i, n) && n < 0x4000
    ensures i < 14
  {
    if i >= 14 {
      if i > 14 { PowGrows(14, i); }
      BigPower();
    }
  }

  lemma {:induction false} BigPower()
    ensures Pow2(14) == 0x4000
  {
    assert Pow2(7) == 128;
  }

  predicate AddressesAt(code: seq<Byte>, tab: nat, cs: seq<Case>, n: nat) {
    n <= |cs| && tab + 2 * n <= |code|
    && forall j {:trigger cs[j]} :: 0 <= j < n ==> Short(code, tab + 2 * j) == cs[j].addr
  }

  lemma {:induction false} KeepAddresses(F: seq<Byte>, G: seq<Byte>, tab: nat, cs: seq<Case>, n: nat)
    requires AddressesAt(F, tab, cs, n) && Agree(F, G, tab, tab + 2 * n)
    ensures AddressesAt(G, tab, cs, n)
  {
    hide Short;
    forall j | 0 <= j < n ensures Short(G, tab + 2 * j) == cs[j].addr {
      KeepReads(F, G, tab + 2 * j, 2);
    }
  }

  /** The addresses of a direct table and its least key. */
  method InsertAddresses(code0: seq<Byte>, cs: seq<Case>) returns (code: seq<Byte>)
    requires cs != [] && forall j :: 0 <= j < |cs| ==> cs[j].addr < 0x1_0000
    ensures |code| == |code0| + 2 * |cs| + 4 && Agree(code0, code, 0, |code0|)
    ensures AddressesAt(code, |code0|, cs, |cs|) && Int(code, |code0| + 2 * |cs|) == cs[0].lo
  {
    hide Short, Int, ShortBytes, IntBytes;
    code := code0;
    var n := 0;
    while n < |cs|
      invariant n <= |cs| && |code| == |code0| + 2 * n && Agree(code0, code, 0, |code0|)
      invariant AddressesAt(code, |code0|, cs, n)
    {
      ghost var before := code;
      code := code + ShortBytes(cs[n].addr);
      ReadBack(code, ShortBytes(cs[n].addr), |before|);
      KeepAddresses(before, code, |code0|, cs, n);
      n := n + 1;
    }
    ghost var before := code;
    code := code + IntBytes(cs[0].lo);
    ReadBack(code, IntBytes(cs[0].lo), |before|);
    KeepAddresses(before, code, |code0|, cs, n);
  }

  // ---------- Labels and their addresses ----------

  function LabelCase(l: Label, addr: nat): Case
    requires !l.Default?
  {
    Case(Low(l), High(l), l.Span?, addr)
  }

  /** The cases among the labels, in the same order. */
  function CasesOf(ls: seq<Label>, addr: seq<nat>): (cs: seq<Case>)
    requires |ls| == |addr|
    ensures |cs| <= |ls|
  {
    if ls == [] then []
    else (if ls[0].Default? then [] else [LabelCase(ls[0], addr[0])]) + CasesOf(ls[1..], addr[1..])
  }

  /** Case c comes from label k. */
  predicate ComesFrom(ls: seq<Label>, addr: seq<nat>, k: nat, c: Case)
    requires |ls| == |addr|
  {
    k < |ls| && !ls[k].Default? && c == LabelCase(ls[k], addr[k])
  }

  lemma {:induction false} CaseHasLabel(ls: seq<Label>, addr: seq<nat>, c: Case)
    requires |ls| == |addr|
    ensures c in CasesOf(ls, addr) <==> exists k :: ComesFrom(ls, addr, k, c)
    decreases |ls|
  {
    if ls != [] {
      var ls', addr' := ls[1..], addr[1..];
      CaseHasLabel(ls', addr', c);
      if k: nat :| ComesFrom(ls, addr, k, c) {
        if k > 0 { assert ComesFrom(ls', addr', k - 1, c); }
      }
      if k: nat :| ComesFrom(ls', addr', k, c) {
        assert ComesFrom(ls, addr, k + 1, c);
      }
      if !ls[0].Default? && c == LabelCase(ls[0], addr[0]) {
        assert ComesFrom(ls, addr, 0, c);
      }
    }
  }

  /** Addresses of code behind the header of a switch. */
  predicate Reachable(addr: seq<nat>) {
    forall k :: 0 <= k < |addr| ==> 1 < addr[k] < 0x1_0000
  }

  predicate ProperSpans(ls: seq<Label>) {
    forall i :: 0 <= i < |ls| && ls[i].Span? ==> ls[i].lo <= ls[i].hi
  }

  lemma {:induction false} TailOverlap(ls: seq<Label>)
    requires ls != []
    ensures SomeOverlap(ls[1..]) ==> SomeOverlap(ls)
  {
    var rest := ls[1..];
    if i: nat, j: nat :| i < j < |rest| && Overlap(rest[i], rest[j]) {
      assert Overlap(ls[i + 1], ls[j + 1]);
    }
  }

  /** Labels in order without overlap, or single keys in order, make a sorted table. */
  lemma {:induction false} SortedLabels(ls: seq<Label>, addr: seq<nat>)
    requires |ls| == |addr| && InOrder(ls) && ProperSpans(ls) && Reachable(addr)
    requires !SomeOverlap(ls) || forall i :: 0 <= i < |ls| ==> !ls[i].Span?
    ensures Sorted(CasesOf(ls, addr))
    decreases |ls|
  {
    if ls == [] {
      assert CasesOf(ls, addr) == [];
    } else {
      var ls', addr' := ls[1..], addr[1..];
      TailOverlap(ls);
      hide SomeOverlap, Sorted;
      SortedLabels(ls', addr');
      if !ls[0].Default? {
        FirstIsLeast(ls, addr);
        SortedCons(LabelCase(ls[0], addr[0]), CasesOf(ls', addr'));
      }
    }
  }

  lemma {:induction false} SortedCons(c: Case, rest: seq<Case>)
    requires SwitchSearch.Proper(c) && Sorted(rest)
    requires forall j :: 0 <= j < |rest| ==>
      c.hi <= rest[j].lo && (c.isRange || rest[j].isRange ==> c.hi < rest[j].lo)
    ensures Sorted([c] + rest)
  {}

  lemma {:induction false} FirstIsLeast(ls: seq<Label>, addr: seq<nat>)
    requires |ls| == |addr| && InOrder(ls) && ProperSpans(ls) && ls != [] && !ls[0].Default?
    requires !SomeOverlap(ls) || forall i :: 0 <= i < |ls| ==> !ls[i].Span?
    ensures
      var rest := CasesOf(ls[1..], addr[1..]);
      forall j :: 0 <= j < |rest| ==>
        High(ls[0]) <= rest[j].lo && (ls[0].Span? || rest[j].isRange ==> High(ls[0]) < rest[j].lo)
  {
    var ls', addr' := ls[1..], addr[1..];
    var rest := CasesOf(ls', addr');
    hide CasesOf;
    forall j | 0 <= j < |rest|
      ensures High(ls[0]) <= rest[j].lo && (ls[0].Span? || rest[j].isRange ==> High(ls[0]) < rest[j].lo)
    {
      CaseHasLabel(ls', addr', rest[j]);
      var k: nat :| ComesFrom(ls', addr', k, rest[j]);
      assert ls'[k] == ls[k + 1] && (!SomeOverlap(ls) ==> !Overlap(ls[0], ls[k + 1]));
    }
  }

  lemma {:induction false} DisjointLabels(ls: seq<Label>, addr: seq<nat>)
    requires |ls| == |addr| && ProperSpans(ls) && !SomeOverlap(ls)
    ensures Disjoint(CasesOf(ls, addr))
    decreases |ls|
  {
    if ls != [] {
      var ls', addr' := ls[1..], addr[1..];
      TailOverlap(ls);
      DisjointLabels(ls', addr');
      var rest := CasesOf(ls', addr');
      forall j | 0 <= j < |rest| && !ls[0].Default?
        ensures High(ls[0]) < rest[j].lo || rest[j].hi < Low(ls[0])
      {
        CaseHasLabel(ls', addr', rest[j]);
        var k: nat :| ComesFrom(ls', addr', k, rest[j]);
        assert ls'[k] == ls[k + 1] && !Overlap(ls[0], ls[k + 1]);
      }
    }
  }

  lemma {:induction false} NoDefaults(ls: seq<Label>, addr: seq<nat>)
    requires |ls| == |addr| && forall i :: 0 <= i < |ls| ==> !ls[i].Default?
    ensures var cs := CasesOf(ls, addr);
      |cs| == |ls| && forall i :: 0 <= i < |cs| ==> cs[i] == LabelCase(ls[i], addr[i])
    decreases |ls|
  {
    if ls != [] { NoDefaults(ls[1..], addr[1..]); }
  }

  lemma {:induction false} RunIsConsecutive(ls: seq<Label>, addr: seq<nat>)
    requires |ls| == |addr| && Run(ls)
    ensures CasesOf(ls, addr) != [] && Consecutive(CasesOf(ls, addr))
  {
    var k := Skip(ls);
    NoDefaults(ls[k..], addr[k..]);
    if k == 0 {
      assert ls[k..] == ls && addr[k..] == addr;
    }
  }

  // ---------- Sorting ----------

  lemma {:induction false} SameOverlap(ls: seq<Label>, order: seq<nat>)
    requires Permutes(order, |ls|)
    ensures SomeOverlap(Reordered(ls, order)) <==> SomeOverlap(ls)
  {
    var sl := Reordered(ls, order);
    if i: nat, j: nat :| i < j < |sl| && Overlap(sl[i], sl[j]) {
      var a, b := order[i], order[j];
      assert Overlap(ls[a], ls[b]) && Overlap(ls[b], ls[a]);
      assert a < b || b < a;
    }
    if a: nat, b: nat :| a < b < |ls| && Overlap(ls[a], ls[b]) {
      var i := PlaceInOrder(order, |ls|, a);
      var j := PlaceInOrder(order, |ls|, b);
      assert Overlap(sl[i], sl[j]) && Overlap(sl[j], sl[i]);
      assert i < j || j < i;
    }
  }

  lemma {:induction false} SameCases(ls: seq<Label>, addr: seq<nat>, order: seq<nat>, c: Case)
    requires |ls| == |addr| && Permutes(order, |ls|)
    ensures c in CasesOf(Reordered(ls, order), Reordered(addr, order)) <==> c in CasesOf(ls, addr)
  {
    var sl, sa := Reordered(ls, order), Reordered(addr, order);
    CaseHasLabel(ls, addr, c);
    CaseHasLabel(sl, sa, c);
    hide CasesOf;
    if i: nat :| ComesFrom(sl, sa, i, c) {
      assert ComesFrom(ls, addr, order[i], c);
    }
    if k: nat :| ComesFrom(ls, addr, k, c) {
      var i := PlaceInOrder(order, |ls|, k);
      assert ComesFrom(sl, sa, i, c);
    }
  }

  /** Landing depends only on which cases there are. */
  lemma {:induction false} LandsAlike(cs: seq<Case>, cs': seq<Case>, d: nat, s: int, t: nat)
    requires Lands(cs, d, s, t) && forall c :: c in cs <==> c in cs'
    ensures Lands(cs', d, s, t)
  {
    if i: nat :| i < |cs| && Covers(cs[i], s) && t == cs[i].addr {
      assert cs[i] in cs';
      var j :| 0 <= j < |cs'| && cs'[j] == cs[i];
    } else {
      forall j | 0 <= j < |cs'| ensures !Covers(cs'[j], s) {
        assert cs'[j] in cs;
      }
    }
  }

  /** Where the table built from the sorted labels leads is where a scan of the labels in source order
      leads. */
  lemma {:induction false} SortingIsInvisible(ls: seq<Label>, addr: seq<nat>, order: seq<nat>, d: nat, s: int, t: nat)
    requires |ls| == |addr| && Permutes(order, |ls|) && ProperSpans(ls) && !SomeOverlap(ls)
    requires Lands(CasesOf(Reordered(ls, order), Reordered(addr, order)), d, s, t)
    ensures t == Scan(CasesOf(ls, addr), d, s)
  {
    var cs, cs' := CasesOf(Reordered(ls, order), Reordered(addr, order)), CasesOf(ls, addr);
    forall c ensures c in cs <==> c in cs' { SameCases(ls, addr, order, c); }
    hide CasesOf, SomeOverlap;
    LandsAlike(cs, cs', d, s, t);
    DisjointLabels(ls, addr);
    LandsIsScan(cs', d, s, t);
  }

  // ---------- The whole switch ----------

  method GenerateBody(code0: seq<Byte>, body: seq<Part>) returns (code: seq<Byte>, addr: seq<nat>, breaks: seq<nat>)
    ensures |code| == |code0| + BodyLength(body) && Agree(code0, code, 0, |code0|) && HasBody(code, body, |code0|)
    ensures addr == Marks(body, |code0|) && breaks == BreakHoles(body, |code0|)
  {
    hide HasBody, BreakHoles, Marks, BodyLength, PartBytes, PartLength;
    NoParts(code0);
    assert body[..0] == [];
    code, addr, breaks := code0, [], [];
    var n := 0;
    while n < |body|
      invariant n <= |body| && |code| == |code0| + BodyLength(body[..n])
      invariant Agree(code0, code, 0, |code0|) && HasBody(code, body[..n], |code0|)
      invariant addr == Marks(body[..n], |code0|) && breaks == BreakHoles(body[..n], |code0|)
    {
      ghost var before := code;
      var p := body[n];
      if p.Code? {
        code := code + p.bytes;
      } else if p.Mark? {
        addr := addr + [|code|];
      } else {
        code := code + [F_BRANCH];
        breaks := [|code|] + breaks;
        code := code + ShortBytes(0);
      }
      PartIs(p);
      assert code == before + PartBytes(p);
      NextPart(before, code, body, n, |code0|);
      n := n + 1;
    }
    assert body[..n] == body;
  }

  function PartBytes(p: Part): (b: seq<Byte>)
    ensures |b| == PartLength(p)
  {
    match p
    case Code(bytes) => bytes
    case Mark => []
    case Break => [F_BRANCH] + ShortBytes(0)
  }

  lemma {:induction false} NoParts(code: seq<Byte>)
    ensures BodyLength([]) == 0 && HasBody(code, [], |code|) && Marks([], |code|) == [] && BreakHoles([], |code|) == []
  {}

  lemma {:induction false} PartIs(p: Part)
    ensures PartBytes(p) == if p.Code? then p.bytes else if p.Mark? then [] else [F_BRANCH] + ShortBytes(0)
  {}

  lemma {:induction false} NextPart(F: seq<Byte>, G: seq<Byte>, body: seq<Part>, n: nat, at: nat)
    requires n < |body| && HasBody(F, body[..n], at) && |F| == at + BodyLength(body[..n])
    requires G == F + PartBytes(body[n])
    ensures HasBody(G, body[..n + 1], at) && |G| == at + BodyLength(body[..n + 1])
    ensures Marks(body[..n + 1], at) == Marks(body[..n], at) + if body[n].Mark? then [|F|] else []
    ensures BreakHoles(body[..n + 1], at) == (if body[n].Break? then [|F| + 1] else []) + BreakHoles(body[..n], at)
  {
    var next := body[..n + 1];
    assert next[..|next| - 1] == body[..n] && next[|next| - 1] == body[n];
    AppendKeeps(F, G, body[..n], at);
    PartWritten(F, body[n]);
    hide HasPart, PartBytes;
  }

  lemma {:induction false} PartWritten(F: seq<Byte>, p: Part)
    ensures HasPart(F + PartBytes(p), p, |F|)
  {}

  lemma {:induction false} AppendKeeps(F: seq<Byte>, G: seq<Byte>, body: seq<Part>, at: nat)
    requires HasBody(F, body, at) && |F| == at + BodyLength(body) && F <= G
    ensures HasBody(G, body, at)
  {
    hide HasBody, BodyLength, BreakHoles, Outside;
    KeepBody(F, G, body, at, []);
  }

  function TableStart(base: nat, body: seq<Part>): nat { base + 8 + BodyLength(body) + 3 }

  function TableLength(kind: Kind, cs: seq<Case>): nat {
    if kind.Direct? then 2 * |cs| + 4 else 6 * |Entries(cs)|
  }

  /** The table itself and the byte that tells its format and size. */
  predicate HasTableOf(code: seq<Byte>, pc: nat, tab: nat, kind: Kind, cs: seq<Case>) {
    && pc < tab && tab + TableLength(kind, cs) <= |code|
    && if kind.Direct? then
         && cs != [] && Consecutive(cs) && code[pc] == 0xfe && AddressesAt(code, tab, cs, |cs|)
         && Int(code, tab + 2 * |cs|) == cs[0].lo
       else
         0xf0 <= code[pc] < 0xfe && SizeOf(code[pc] - 0xf0, |Entries(cs)|) && TableAt(code, tab, Entries(cs))
  }

  /** The code of a switch that begins at `base`. */
  predicate Compiled(code: seq<Byte>, base: nat, kind: Kind, body: seq<Part>, cs: seq<Case>, default_: nat) {
    var pc, tab, end := base + 1, TableStart(base, body), |code|;
    && end == tab + TableLength(kind, cs) && code[base] == F_SWITCH
    && (if kind.Direct? then HasDirect(code, pc, tab, cs, default_) else HasTable(code, pc, tab, cs, default_))
    && HasBody(code, body, base + 8) && AllLead(code, BreakHoles(body, base + 8), end)
    && code[tab - 3] == F_BRANCH && Leads(code, tab - 2, end)
  }

  /** The same before the offsets to the end of the switch are known. */
  predicate Draft(code: seq<Byte>, base: nat, kind: Kind, body: seq<Part>, cs: seq<Case>, default_: nat) {
    var tab := TableStart(base, body);
    && |code| == tab + TableLength(kind, cs) && code[base] == F_SWITCH
    && Short(code, base + 2) == tab && Short(code, base + 6) == default_
    && HasTableOf(code, base + 1, tab, kind, cs) && HasBody(code, body, base + 8) && code[tab - 3] == F_BRANCH
  }

  /** The three patches that finish a switch. */
  function Finished(c: seq<Byte>, base: nat, tab: nat, holes: seq<nat>): (r: seq<Byte>)
    requires base + 11 <= tab <= |c| <= 0x7fff && Patchable(holes, |c|)
    ensures |r| == |c|
  {
    Patched(Patched(PatchAll(c, holes, |c|), tab - 2, |c| - (tab - 2)), base + 4, |c|)
  }

  lemma {:induction false} BreaksClosed(c: seq<Byte>, base: nat, body: seq<Part>)
    requires TableStart(base, body) <= |c| <= 0x7fff
    ensures Patchable(BreakHoles(body, base + 8), |c|)
    ensures
      var tab, holes := TableStart(base, body), BreakHoles(body, base + 8);
      var r := PatchAll(c, holes, |c|);
      && AllLead(r, holes, |c|) && AgreeOutside(c, r, 0, |c|, holes)
      && (forall k :: 0 <= k < |holes| ==> base + 8 < holes[k] && holes[k] + 2 <= tab - 3)
      && Agree(c, r, 0, base + 8) && Agree(c, r, tab - 3, |c|)
  {
    var holes := BreakHoles(body, base + 8);
    BreaksInside(body, base + 8);
    hide BreakHoles, BodyLength, AllLead, PatchAll;
    PatchAllLeads(c, holes, |c|);
    PatchedOutside(c, holes, |c|, base + 8, TableStart(base, body) - 3);
  }

  /** Patching offsets between lo and hi changes nothing else. */
  lemma {:induction false} PatchedOutside(c: seq<Byte>, holes: seq<nat>, target: nat, lo: nat, hi: nat)
    requires Patchable(holes, target) && hi <= target == |c|
    requires forall k :: 0 <= k < |holes| ==> lo < holes[k] && holes[k] + 2 <= hi
    ensures
      var r := PatchAll(c, holes, target);
      && AgreeOutside(c, r, 0, |c|, holes) && (lo <= |c| ==> Agree(c, r, 0, lo)) && Agree(c, r, hi, |c|)
  {
    hide PatchAll;
    forall i: nat | i < |c| && Outside(holes, i) ensures PatchAll(c, holes, target)[i] == c[i] {
      PatchAllElsewhere(c, holes, target, i);
    }
    assert forall i: nat :: i < lo || hi <= i ==> Outside(holes, i);
  }

  lemma {:induction false} TwoPatches(c: seq<Byte>, base: nat, tab: nat, holes: seq<nat>)
    requires base + 11 <= tab <= |c| <= 0x7fff && AllLead(c, holes, |c|)
    requires forall k :: 0 <= k < |holes| ==> base + 8 < holes[k] && holes[k] + 2 <= tab - 3
    ensures
      var r := Patched(Patched(c, tab - 2, |c| - (tab - 2)), base + 4, |c|);
      && Agree(c, r, 0, base + 4) && Agree(c, r, base + 6, tab - 2) && Agree(c, r, tab, |c|)
      && Short(r, base + 4) == |c| && Leads(r, tab - 2, |c|) && AllLead(r, holes, |c|)
  {
    hide Patched;
    var r1 := Patched(c, tab - 2, |c| - (tab - 2));
    var r := Patched(r1, base + 4, |c|);
    forall k | 0 <= k < |holes| ensures Leads(r, holes[k], |c|) {
      KeepLeads(c, r, holes[k], |c|);
    }
  }

  /** What finishing changes and what it keeps. */
  predicate FinishedFrom(c: seq<Byte>, r: seq<Byte>, base: nat, body: seq<Part>) {
    var tab, holes := TableStart(base, body), BreakHoles(body, base + 8);
    && |r| == |c| && Agree(c, r, 0, base + 4) && Agree(c, r, base + 6, base + 8)
    && AgreeOutside(c, r, base + 8, tab - 3, holes) && Agree(c, r, tab - 3, tab - 2) && Agree(c, r, tab, |c|)
    && Short(r, base + 4) == |c| && Leads(r, tab - 2, |c|) && AllLead(r, holes, |c|)
  }

  lemma {:induction false} FinishedChanges(c: seq<Byte>, base: nat, body: seq<Part>)
    requires TableStart(base, body) <= |c| <= 0x7fff
    ensures Patchable(BreakHoles(body, base + 8), |c|)
    ensures FinishedFrom(c, Finished(c, base, TableStart(base, body), BreakHoles(body, base + 8)), base, body)
  {
    hide BreakHoles, BodyLength, PatchAll, AllLead, Leads, Outside, Short, Patched;
    var tab, holes := TableStart(base, body), BreakHoles(body, base + 8);
    BreaksClosed(c, base, body);
    TwoPatches(PatchAll(c, holes, |c|), base, tab, holes);
  }

  lemma {:induction false} KeepTableOf(F: seq<Byte>, G: seq<Byte>, pc: nat, tab: nat, kind: Kind, cs: seq<Case>)
    requires HasTableOf(F, pc, tab, kind, cs) && Agree(F, G, pc, pc + 1)
    requires Agree(F, G, tab, tab + TableLength(kind, cs))
    ensures HasTableOf(G, pc, tab, kind, cs)
  {
    hide AddressesAt, TableAt, Int, Entries, Consecutive;
    if kind.Direct? {
      KeepAddresses(F, G, tab, cs, |cs|);
      KeepReads(F, G, tab + 2 * |cs|, 4);
    } else {
      KeepTable(F, G, tab, Entries(cs));
    }
  }

  lemma {:induction false} TableIsFound(code: seq<Byte>, pc: nat, tab: nat, kind: Kind, cs: seq<Case>, default_: nat)
    requires HasTableOf(code, pc, tab, kind, cs) && Header(code, pc, tab, tab + TableLength(kind, cs), default_)
    ensures if kind.Direct? then HasDirect(code, pc, tab, cs, default_) else HasTable(code, pc, tab, cs, default_)
  {
    hide TableAt, Int, Entries, Consecutive;
  }

  lemma {:induction false} BodyIsKept(c: seq<Byte>, r: seq<Byte>, base: nat, body: seq<Part>)
    requires FinishedFrom(c, r, base, body) && HasBody(c, body, base + 8)
    ensures HasBody(r, body, base + 8)
  {
    hide HasBody, AllLead, Outside, BreakHoles, Short, Leads, Agree;
    assert [] + BreakHoles(body, base + 8) == BreakHoles(body, base + 8);
    KeepBody(c, r, body, base + 8, []);
  }

  lemma {:induction false} HeaderIsDone(c: seq<Byte>, r: seq<Byte>, base: nat, body: seq<Part>, default_: nat)
    requires TableStart(base, body) <= |c| && FinishedFrom(c, r, base, body)
    requires Short(c, base + 2) == TableStart(base, body) && Short(c, base + 6) == default_
    ensures Header(r, base + 1, TableStart(base, body), |c|, default_)
  {
    hide AllLead, AgreeOutside, BreakHoles, BodyLength;
    KeepReads(c, r, base + 2, 2);
    KeepReads(c, r, base + 6, 2);
  }

  lemma {:induction false} FinishedCompiles(c: seq<Byte>, base: nat, kind: Kind, body: seq<Part>, cs: seq<Case>, default_: nat)
    requires Draft(c, base, kind, body, cs, default_) && |c| <= 0x7fff
    ensures Patchable(BreakHoles(body, base + 8), |c|)
    ensures Compiled(Finished(c, base, TableStart(base, body), BreakHoles(body, base + 8)), base, kind, body, cs, default_)
  {
    hide Finished, BreakHoles, HasBody, AllLead, AgreeOutside, TableLength, HasTableOf, HasTable, HasDirect, Short, Header,
      BodyLength;
    var tab, holes := TableStart(base, body), BreakHoles(body, base + 8);
    FinishedChanges(c, base, body);
    var r := Finished(c, base, tab, holes);
    BodyIsKept(c, r, base, body);
    HeaderIsDone(c, r, base, body, default_);
    KeepTableOf(c, r, base + 1, tab, kind, cs);
    TableIsFound(r, base + 1, tab, kind, cs, default_);
  }

  /** The default label comes first in the sorted order; without one the default is the branch behind
      the body. */
  function DefaultAddress(ls: seq<Label>, addr: seq<nat>, order: seq<nat>, behind: nat): nat
    requires |ls| == |addr| && forall i :: 0 <= i < |order| ==> order[i] < |ls|
  {
    if order != [] && ls[order[0]].Default? then addr[order[0]] else behind
  }

  /** Header and body of a switch: everything before the table. */
  predicate Framed(code: seq<Byte>, base: nat, body: seq<Part>, default_: nat) {
    var tab := TableStart(base, body);
    && |code| == tab && code[base] == F_SWITCH && Short(code, base + 2) == tab && Short(code, base + 6) == default_
    && HasBody(code, body, base + 8) && code[tab - 3] == F_BRANCH
  }

  /** order sorts the labels; addresses become known while the body is generated. */
  method GenerateFrame(code0: seq<Byte>, ls: seq<Label>, order: seq<nat>, body: seq<Part>)
    returns (code: seq<Byte>, addr: seq<nat>, breaks: seq<nat>, ghost default_: nat)
    requires Permutes(order, |ls|) && |Marks(body, |code0| + 8)| == |ls| && TableStart(|code0|, body) <= 0x7fff
    ensures addr == Marks(body, |code0| + 8) && breaks == BreakHoles(body, |code0| + 8)
    ensures default_ == DefaultAddress(ls, addr, order, TableStart(|code0|, body) - 3)
    ensures Framed(code, |code0|, body, default_) && |code| == TableStart(|code0|, body) && Agree(code0, code, 0, |code0|)
  {
    MarksInside(body, |code0| + 8);
    PermutesBounds(order, |ls|);
    hide HasBody, Marks, BreakHoles, Permutes, BodyLength, Short, Patched, ShortBytes, Framed, Agree;
    HeaderWritten(code0);
    code := code0 + [F_SWITCH, 0xff];
    var at := |code|;
    code := code + [0, 0, 0, 0, 0, 0];
    ghost var c1 := code;
    code, addr, breaks := GenerateBody(code, body);
    ghost var c2 := code;
    var d := if order != [] && ls[order[0]].Default? then addr[order[0]] else |code|;
    code := Patched(code, at + 4, d);
    code := code + [F_BRANCH];
    code := code + ShortBytes(0);
    code := Patched(code, at, |code|);
    default_ := d;
    FrameDone(code0, c1, c2, code, body, d);
  }

  lemma {:induction false} HeaderWritten(code0: seq<Byte>)
    ensures
      var c1 := code0 + [F_SWITCH, 0xff] + [0, 0, 0, 0, 0, 0];
      c1[|code0|] == F_SWITCH && Agree(code0, c1, 0, |code0|)
  {}

  lemma {:induction false} PermutesBounds(order: seq<nat>, n: nat)
    requires Permutes(order, n)
    ensures |order| == n && forall i :: 0 <= i < n ==> order[i] < n
  {}

  lemma {:induction false} FrameDone(code0: seq<Byte>, c1: seq<Byte>, c2: seq<Byte>, c: seq<Byte>, body: seq<Part>, d: nat)
    requires var base := |code0|; |c1| == base + 8 && c1[base] == F_SWITCH && Agree(c1, c2, 0, base + 8) && Agree(code0, c1, 0, base)
    requires HasBody(c2, body, |code0| + 8) && |c2| == |code0| + 8 + BodyLength(body) <= 0x7ffc && d <= 0x7fff
    requires c == Patched(Patched(c2, |code0| + 6, d) + [F_BRANCH] + ShortBytes(0), |code0| + 2, |c2| + 3)
    ensures Framed(c, |code0|, body, d) && |c| == TableStart(|code0|, body) && Agree(code0, c, 0, |code0|)
  {
    var base := |code0|;
    hide HasBody, BodyLength, Patched, BreakHoles, Outside;
    var e := Patched(c2, base + 6, d) + [F_BRANCH] + ShortBytes(0);
    assert forall i :: 0 <= i < |c2| && !(base + 6 <= i < base + 8) ==> e[i] == c2[i];
    KeepReads(Patched(c2, base + 6, d), e, base + 6, 2);
    KeepReads(e, c, base + 6, 2);
    KeepBody(c2, c, body, base + 8, []);
  }

  /** The table, and the byte at pc that describes it. */
  method AppendTable(code0: seq<Byte>, pc: nat, kind: Kind, cs: seq<Case>) returns (code: seq<Byte>)
    requires pc < |code0| && |code0| + TableLength(kind, cs) <= 0x7fff
    requires forall i :: 0 <= i < |cs| ==> SwitchSearch.Proper(cs[i])
    requires kind.Direct? ==> cs != [] && Consecutive(cs)
    ensures HasTableOf(code, pc, |code0|, kind, cs) && |code| == |code0| + TableLength(kind, cs)
    ensures Agree(code0, code, 0, pc) && Agree(code0, code, pc + 1, |code0|)
  {
    hide Consecutive, Int, Short;
    ghost var c: seq<Byte>;
    if kind.Direct? {
      code := InsertAddresses(code0, cs);
      c := code;
      code := code[pc := 0xfe];
      KeepAddresses(c, code, |code0|, cs, |cs|);
      KeepReads(c, code, |code0| + 2 * |cs|, 4);
    } else {
      AddressesFit(cs);
      hide Entries;
      var size: nat;
      code, size := InsertEntries(code0, Entries(cs));
      c := code;
      var i := SizeNibble(size);
      NibbleFits(i, size);
      code := code[pc := 0xf0 + i];
      KeepTable(c, code, |code0|, Entries(cs));
    }
  }

  lemma {:induction false} AddressesFit(cs: seq<Case>)
    requires forall i :: 0 <= i < |cs| ==> SwitchSearch.Proper(cs[i])
    ensures forall j :: 0 <= j < |Entries(cs)| ==> Entries(cs)[j].addr < 0x1_0000
  {
    forall j | 0 <= j < |Entries(cs)| ensures Entries(cs)[j].addr < 0x1_0000 {
      var c := OwnerOf(cs, j);
    }
  }

  /** i_update_branch_list on the breaks of the switch. */
  method CloseBreaks(code0: seq<Byte>, breaks: seq<nat>) returns (code: seq<Byte>)
    requires Patchable(breaks, |code0|)
    ensures code == PatchAll(code0, breaks, |code0|)
  {
    code := code0;
    var rest := breaks;
    while rest != []
      invariant |code| == |code0| && Patchable(rest, |code0|)
      invariant PatchAll(code, rest, |code0|) == PatchAll(code0, breaks, |code0|)
    {
      code := Patched(code, rest[0], |code| - rest[0]);
      rest := rest[1..];
    }
  }

  /** The cases of the table, in the order of their keys. */
  function SortedCases(ls: seq<Label>, addr: seq<nat>, order: seq<nat>): seq<Case>
    requires |ls| == |addr| && forall i :: 0 <= i < |order| ==> order[i] < |ls|
  {
    CasesOf(Reordered(ls, order), Reordered(addr, order))
  }

  /** What GenerateSwitch asks for: the labels mark the body, order sorts them, and the code fits. */
  ghost predicate Generable(base: nat, kind: Kind, ls: seq<Label>, order: seq<nat>, body: seq<Part>) {
    var addr := Marks(body, base + 8);
    && Permutes(order, |ls|) && |addr| == |ls| && ProperSpans(ls)
    && (kind.Direct? ==> Run(Reordered(ls, order)))
    && TableStart(base, body) + TableLength(kind, SortedCases(ls, addr, order)) <= 0x7fff
  }

  method GenerateSwitch(code0: seq<Byte>, kind: Kind, ls: seq<Label>, order: seq<nat>, body: seq<Part>)
    returns (code: seq<Byte>, addr: seq<nat>, ghost default_: nat)
    requires Generable(|code0|, kind, ls, order, body)
    ensures addr == Marks(body, |code0| + 8)
    ensures default_ == DefaultAddress(ls, addr, order, TableStart(|code0|, body) - 3)
    ensures Compiled(code, |code0|, kind, body, SortedCases(ls, addr, order), default_) && Agree(code0, code, 0, |code0|)
  {
    Prepared(|code0|, kind, ls, order, body);
    hide *;
    var breaks: seq<nat>;
    code, addr, breaks, default_ := GenerateFrame(code0, ls, order, body);
    ghost var c1 := code;
    var lastBreak := |code| - 2;
    var cs := SortedCases(ls, addr, order);
    code := AppendTable(code, |code0| + 1, kind, cs);
    ghost var c2 := code;
    DraftDone(c1, c2, |code0|, kind, body, cs, default_);
    FinishedCompiles(c2, |code0|, kind, body, cs, default_);
    ghost var tab := TableStart(|code0|, body);
    FinishedKeeps(code0, c1, c2, |code0|, body);
    code := FinishSwitch(code, |code0|, lastBreak, breaks);
  }

  method FinishSwitch(code0: seq<Byte>, base: nat, lastBreak: nat, breaks: seq<nat>) returns (code: seq<Byte>)
    requires base + 11 <= lastBreak + 2 <= |code0| <= 0x7fff && Patchable(breaks, |code0|)
    ensures code == Finished(code0, base, lastBreak + 2, breaks)
  {
    code := CloseBreaks(code0, breaks);
    code := Patched(code, lastBreak, |code| - lastBreak);
    code := Patched(code, base + 4, |code|);
  }

  lemma {:induction false} FinishedKeeps(code0: seq<Byte>, c1: seq<Byte>, c2: seq<Byte>, base: nat, body: seq<Part>)
    requires TableStart(base, body) <= |c2| <= 0x7fff && base == |code0|
    requires Agree(code0, c1, 0, base) && Agree(c1, c2, 0, base + 1)
    ensures base + 11 <= TableStart(base, body) && Patchable(BreakHoles(body, base + 8), |c2|)
    ensures Agree(code0, Finished(c2, base, TableStart(base, body), BreakHoles(body, base + 8)), 0, base)
  {
    FinishedChanges(c2, base, body);
    hide Finished, BreakHoles;
  }

  /** What the steps of GenerateSwitch need to know about the cases. */
  lemma {:induction false} Prepared(base: nat, kind: Kind, ls: seq<Label>, order: seq<nat>, body: seq<Part>)
    requires Generable(base, kind, ls, order, body)
    ensures
      var addr := Marks(body, base + 8);
      && Permutes(order, |ls|) && |addr| == |ls| && (forall i :: 0 <= i < |order| ==> order[i] < |ls|)
      && var cs := SortedCases(ls, addr, order);
         && TableStart(base, body) + TableLength(kind, cs) <= 0x7fff && base + 11 <= TableStart(base, body)
         && (forall i :: 0 <= i < |cs| ==> SwitchSearch.Proper(cs[i]))
         && (kind.Direct? ==> cs != [] && Consecutive(cs))
  {
    var addr := Marks(body, base + 8);
    CasesAreProper(ls, addr, order, base, body);
    if kind.Direct? { RunIsConsecutive(Reordered(ls, order), Reordered(addr, order)); }
  }

  lemma {:induction false} DraftDone(c1: seq<Byte>, c2: seq<Byte>, base: nat, kind: Kind, body: seq<Part>, cs: seq<Case>, default_: nat)
    requires Framed(c1, base, body, default_) && HasTableOf(c2, base + 1, |c1|, kind, cs)
    requires |c2| == |c1| + TableLength(kind, cs)
    requires Agree(c1, c2, 0, base + 1) && Agree(c1, c2, base + 2, |c1|)
    ensures Draft(c2, base, kind, body, cs, default_)
  {
    hide HasBody, HasTableOf, TableLength, BreakHoles, Outside, BodyLength, Short;
    KeepReads(c1, c2, base + 2, 2);
    KeepReads(c1, c2, base + 6, 2);
    KeepBody(c1, c2, body, base + 8, []);
  }

  lemma {:induction false} CasesAreProper(ls: seq<Label>, addr: seq<nat>, order: seq<nat>, base: nat, body: seq<Part>)
    requires Permutes(order, |ls|) && |addr| == |ls| && ProperSpans(ls) && addr == Marks(body, base + 8)
    requires TableStart(base, body) <= 0x7fff
    ensures forall i :: 0 <= i < |SortedCases(ls, addr, order)| ==> SwitchSearch.Proper(SortedCases(ls, addr, order)[i])
    ensures Reachable(addr)
  {
    MarksInside(body, base + 8);
    var sl, sa := Reordered(ls, order), Reordered(addr, order);
    hide Marks, BodyLength;
    var cs := SortedCases(ls, addr, order);
    forall i | 0 <= i < |cs| ensures SwitchSearch.Proper(cs[i]) {
      CaseHasLabel(sl, sa, cs[i]);
      var k: nat :| ComesFrom(sl, sa, k, cs[i]);
      assert sl[k] == ls[order[k]] && sa[k] == addr[order[k]];
    }
  }

  // ---------- Compiling and running a switch ----------

  /** A switch as the parser leaves it: what prepare_cases makes of it, then its code. */
  method CompileSwitch(code0: seq<Byte>, kind: Kind, ls: seq<Label>, order: seq<nat>, body: seq<Part>)
    returns (r: Option<seq<Byte>>, kind': Kind, ghost default_: nat)
    requires Parsed(kind, ls) && Permutes(order, |ls|) && InOrder(Reordered(ls, order))
    requires |Marks(body, |code0| + 8)| == |ls|
    requires forall k: Kind {:trigger TableLength(k, SortedCases(ls, Marks(body, |code0| + 8), order))} ::
      TableStart(|code0|, body) + TableLength(k, SortedCases(ls, Marks(body, |code0| + 8), order)) <= 0x7fff
    ensures r.None? <==> kind.Ranges? && SomeOverlap(ls)
    ensures r.Some? ==>
      && Compiled(r.value, |code0|, kind', body, SortedCases(ls, Marks(body, |code0| + 8), order), default_)
      && default_ == DefaultAddress(ls, Marks(body, |code0| + 8), order, TableStart(|code0|, body) - 3)
    ensures kind'.Direct? <==> kind.Numbers? && Run(Reordered(ls, order))
  {
    var sl := Reordered(ls, order);
    ParsedAlike(kind, ls, order);
    SameOverlap(ls, order);
    hide SomeOverlap, Compiled, InOrder, Permutes, Run, TableLength, SortedCases, DefaultAddress;
    var overlapping;
    kind', overlapping := PrepareCases(kind, sl);
    default_ := 0;
    if overlapping { return None, kind', 0; }
    var code: seq<Byte>;
    var addr: seq<nat>;
    code, addr, default_ := GenerateSwitch(code0, kind', ls, order, body);
    r := Some(code);
  }

  lemma {:induction false} ParsedAlike(kind: Kind, ls: seq<Label>, order: seq<nat>)
    requires Parsed(kind, ls) && Permutes(order, |ls|)
    ensures Parsed(kind, Reordered(ls, order)) && ProperSpans(ls)
  {
    var sl := Reordered(ls, order);
    forall i, j | 0 <= i < j < |sl| ensures !(sl[i].Default? && sl[j].Default?) {
      var a, b := order[i], order[j];
      assert a < b || b < a;
    }
  }

  lemma {:induction false} TableIsSorted(base: nat, kind: Kind, ls: seq<Label>, order: seq<nat>, body: seq<Part>)
    requires Generable(base, kind, ls, order, body) && InOrder(Reordered(ls, order))
    requires !SomeOverlap(ls) || forall i :: 0 <= i < |ls| ==> !ls[i].Span?
    ensures Sorted(SortedCases(ls, Marks(body, base + 8), order))
  {
    var addr := Marks(body, base + 8);
    CasesAreProper(ls, addr, order, base, body);
    SameOverlap(ls, order);
    hide SomeOverlap, InOrder;
    SortedLabels(Reordered(ls, order), Reordered(addr, order));
  }

  lemma {:induction false} SomeCase(ls: seq<Label>, addr: seq<nat>, order: seq<nat>)
    requires |ls| == |addr| && Permutes(order, |ls|) && exists k :: 0 <= k < |ls| && !ls[k].Default?
    ensures SortedCases(ls, addr, order) != []
  {
    var k: nat :| k < |ls| && !ls[k].Default?;
    var c := LabelCase(ls[k], addr[k]);
    assert ComesFrom(ls, addr, k, c);
    CaseHasLabel(ls, addr, c);
    SameCases(ls, addr, order, c);
  }

  lemma {:induction false} SourceLands(ls: seq<Label>, addr: seq<nat>, order: seq<nat>, d: nat, s: int, t: nat)
    requires |ls| == |addr| && Permutes(order, |ls|) && Lands(SortedCases(ls, addr, order), d, s, t)
    ensures Lands(CasesOf(ls, addr), d, s, t)
  {
    var cs, cs' := SortedCases(ls, addr, order), CasesOf(ls, addr);
    forall c ensures c in cs <==> c in cs' { SameCases(ls, addr, order, c); }
    hide CasesOf, SortedCases;
    LandsAlike(cs, cs', d, s, t);
  }

  lemma {:induction false} CompiledTable(code: seq<Byte>, base: nat, kind: Kind, body: seq<Part>, cs: seq<Case>, default_: nat)
    requires Compiled(code, base, kind, body, cs, default_)
    ensures
      var pc, tab := base + 1, TableStart(base, body);
      if kind.Direct? then HasDirect(code, pc, tab, cs, default_) else HasTable(code, pc, tab, cs, default_)
  {
    hide HasDirect, HasTable, HasBody, AllLead;
  }

  /** The table is found as well when there is more code behind it. */
  lemma {:induction false} TableBeforeMore(code: seq<Byte>, behind: seq<Byte>, pc: nat, tab: nat, cs: seq<Case>, default_: nat)
    requires HasTable(code, pc, tab, cs, default_) || HasDirect(code, pc, tab, cs, default_)
    ensures HasTable(code, pc, tab, cs, default_) ==> HasTable(code + behind, pc, tab, cs, default_)
    ensures HasDirect(code, pc, tab, cs, default_) ==> HasDirect(code + behind, pc, tab, cs, default_)
  {
    var more := code + behind;
    assert Agree(code, more, 0, |code|);
    if HasTable(code, pc, tab, cs, default_) {
      hide HasDirect, Short, Int, Entries;
      HeaderBeforeMore(code, behind, pc, tab, tab + 6 * |Entries(cs)|, default_);
      KeepTable(code, more, tab, Entries(cs));
    } else {
      hide HasTable, Short, Int;
      HeaderBeforeMore(code, behind, pc, tab, tab + 2 * |cs| + 4, default_);
      KeepAddresses(code, more, tab, cs, |cs|);
      KeepReads(code, more, tab + 2 * |cs|, 4);
    }
  }

  lemma {:induction false} HeaderBeforeMore(code: seq<Byte>, behind: seq<Byte>, pc: nat, tab: nat, end: nat, default_: nat)
    requires Header(code, pc, tab, end, default_)
    ensures Header(code + behind, pc, tab, end, default_)
  {}

  lemma {:induction false} NoCase(ls: seq<Label>, addr: seq<nat>, order: seq<nat>)
    requires |ls| == |addr| && Permutes(order, |ls|) && forall k :: 0 <= k < |ls| ==> ls[k].Default?
    ensures SortedCases(ls, addr, order) == []
  {
    var sl, sa := Reordered(ls, order), Reordered(addr, order);
    var cs := SortedCases(ls, addr, order);
    if cs != [] {
      CaseHasLabel(sl, sa, cs[0]);
    }
  }

  /** The switch at `base`, with any code behind it, jumps to the code of the first label, in source order,
      that covers the key, and to the default when no label does.  When there is no label but the
      default, the code behind the switch decides. */
  method RunSwitch(code: seq<Byte>, behind: seq<Byte>, base: nat, s: Int32, ghost kind: Kind, ghost ls: seq<Label>,
                   ghost order: seq<nat>, ghost body: seq<Part>, ghost default_: nat)
    returns (target: Option<nat>)
    requires Generable(base, kind, ls, order, body) && InOrder(Reordered(ls, order))
    requires !SomeOverlap(ls) || forall i :: 0 <= i < |ls| ==> !ls[i].Span?
    requires base < |code| && TableStart(base, body) <= |code|
    requires (forall k :: 0 <= k < |ls| ==> ls[k].Default?) ==> |behind| >= 12
    requires Compiled(code, base, kind, body, SortedCases(ls, Marks(body, base + 8), order), default_)
    ensures |Marks(body, base + 8)| == |ls|
    ensures (exists k :: 0 <= k < |ls| && !ls[k].Default?) ==>
      target.Some? && Lands(CasesOf(ls, Marks(body, base + 8)), default_, s, target.value)
    ensures (exists k :: 0 <= k < |ls| && !ls[k].Default?) && !SomeOverlap(ls) ==>
      target == Some(Scan(CasesOf(ls, Marks(body, base + 8)), default_, s))
    ensures (forall k :: 0 <= k < |ls| ==> ls[k].Default?) ==>
      target == EmptyLookup(code + behind, |code|, default_, s)
  {
    ghost var addr := Marks(body, base + 8);
    ghost var cs := SortedCases(ls, addr, order);
    ghost var only := forall k :: 0 <= k < |ls| ==> ls[k].Default?;
    TableIsSorted(base, kind, ls, order, body);
    CompiledTable(code, base, kind, body, cs, default_);
    CompiledEnds(code, base, kind, body, cs, default_);
    if only { NoCase(ls, addr, order); } else { SomeCase(ls, addr, order); }
    assert only == forall k :: 0 <= k < |ls| ==> ls[k].Default?;
    hide *;
    TableBeforeMore(code, behind, base + 1, TableStart(base, body), cs, default_);
    target := FSwitch(code + behind, base + 1, s, TableStart(base, body), cs, default_);
    if cs != [] {
      SourceLands(ls, addr, order, default_, s, target.value);
      if !SomeOverlap(ls) { SortingIsInvisible(ls, addr, order, default_, s, target.value); }
    }
  }

  lemma {:induction false} CompiledEnds(code: seq<Byte>, base: nat, kind: Kind, body: seq<Part>, cs: seq<Case>, default_: nat)
    requires Compiled(code, base, kind, body, cs, default_)
    ensures cs == [] ==> |code| == TableStart(base, body)
  {}

  /** void f(int x) { switch (x) { default: } } and int g(int y) { return y * 1000 + y; } behind it, as they are
      compiled: for one value of x the switch jumps to the address 1000. */
  lemma {:induction false} DefaultAloneFails()
    ensures
      var code: seq<Byte> := [F_LOCAL, 0, F_SWITCH, 0xf0, 13, 0, 13, 0, 10, 0, F_BRANCH, 2, 0];
      var behind: seq<Byte> :=
        [F_RETURN_ZERO, F_LOCAL, 0, F_NUMBER, 0xe8, 3, 0, 0, F_MULTIPLY, F_LOCAL, 0, F_ADD, F_RETURN];
      && Compiled(code, 2, Numbers, [Mark], SortedCases([Default], Marks([Mark], 10), [0]), 10)
      && !StraysHome(code + behind, |code|, 10) && EmptyLookup(code + behind, |code|, 10, 0x800_3c2e) == Some(1000)
  {
    var code: seq<Byte> := [F_LOCAL, 0, F_SWITCH, 0xf0, 13, 0, 13, 0, 10, 0, F_BRANCH, 2, 0];
    var behind: seq<Byte> :=
      [F_RETURN_ZERO, F_LOCAL, 0, F_NUMBER, 0xe8, 3, 0, 0, F_MULTIPLY, F_LOCAL, 0, F_ADD, F_RETURN];
    CompiledDefault(code);
    var all := code + behind;
    assert all[13..23] == behind[..10];
    assert all[13] == 46 && all[14] == 60 && all[15] == 0 && all[16] == 8 && all[17] == 0xe8 && all[18] == 3;
    assert Int(all, 13) == 0x800_3c2e && Short(all, 17) == 1000;
    hide Int, Short, Compiled;
    EmptyTakesDefault(all, 13, 10);
  }

  lemma {:induction false} CompiledDefault(code: seq<Byte>)
    requires code == [F_LOCAL, 0, F_SWITCH, 0xf0, 13, 0, 13, 0, 10, 0, F_BRANCH, 2, 0]
    ensures Compiled(code, 2, Numbers, [Mark], SortedCases([Default], Marks([Mark], 10), [0]), 10)
  {
    assert [Mark][..0] == [] && HasPart(code, Mark, 10) && HasBody(code, [], 10);
    assert HasBody(code, [Mark], 10);
    assert Marks([Mark], 10) == [10] && BodyLength([Mark]) == 0 && BreakHoles([Mark], 10) == [];
    NoCase([Default], [10], [0]);
  }
}
