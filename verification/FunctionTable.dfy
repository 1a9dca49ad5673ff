/** The function table of a program that is loaded from a binary (src/binaries.c): it is put in order in
    place, by swaps, and the runtime entries follow. */
module FunctionTable {
  import opened Basics

  /** A function: the address of its name, whether that begins with '#', and what else there is to it. */
  datatype Function = Function(name: nat, initial: bool, body: nat)

  /** compare_compiler_funcs: by the address of the name, the functions with a '#' last. */
  function Compare(f: Function, g: Function): int {
    if f.initial then if g.initial then 0 else 1
    else if g.initial then -1
    else if f.name < g.name then -1
    else if f.name > g.name then 1
    else 0
  }

  /** Something that can be sorted by: exactly one of less, equal and greater, and it is passed on. */
  lemma {:induction false} CompareIsOrder(f: Function, g: Function, h: Function)
    ensures Compare(g, f) == -Compare(f, g)
    ensures Compare(f, g) <= 0 && Compare(g, h) <= 0 ==> Compare(f, h) <= 0
    ensures Compare(f, g) == 0 && Compare(g, h) == 0 ==> Compare(f, h) == 0
  {}

  /** p and q undo each other from n on. */
  predicate InverseFrom(p: seq<nat>, q: seq<nat>, n: nat) {
    && |p| == |q|
    && (forall k :: n <= k < |p| ==> n <= p[k] < |p| && q[p[k]] == k)
    && (forall k :: n <= k < |q| ==> n <= q[k] < |q| && p[q[k]] == k)
  }

  /** What the loop has done: the first n cells are right, and sorttmp tells where the others are found. */
  predicate Placed(s0: seq<Function>, s: seq<Function>, p: seq<nat>, sorttmp: seq<nat>, n: nat) {
    && |s| == |s0| == |p| == |sorttmp|
    && (forall k :: 0 <= k < |p| ==> p[k] < |s0|)
    && (forall k :: 0 <= k < n <= |s| ==> s[k] == s0[p[k]])
    && (forall k :: n <= k < |s| ==> sorttmp[k] < |s| && s[sorttmp[k]] == s0[p[k]])
  }

  /** One turn: a swap, and the rest of the permutation is worked out again. */
  lemma {:induction false} SwapPlaces(s0: seq<Function>, s: seq<Function>, p: seq<nat>, sorttmp: seq<nat>, invtmp: seq<nat>, i: nat)
    requires Placed(s0, s, p, sorttmp, i) && InverseFrom(sorttmp, invtmp, i) && i < |s|
    requires sorttmp[i] != i
    ensures
      var where := sorttmp[i];
      && i < where < |s| && i < invtmp[i] < |s|
      && Placed(s0, s[i := s[where]][where := s[i]], p, sorttmp[invtmp[i] := where], i + 1)
      && InverseFrom(sorttmp[invtmp[i] := where], invtmp[where := invtmp[i]], i + 1)
  {}

  lemma {:induction false} AlreadyPlaced(s0: seq<Function>, s: seq<Function>, p: seq<nat>, sorttmp: seq<nat>, invtmp: seq<nat>, i: nat)
    requires Placed(s0, s, p, sorttmp, i) && InverseFrom(sorttmp, invtmp, i) && i < |s| && sorttmp[i] == i
    ensures Placed(s0, s, p, sorttmp, i + 1) && InverseFrom(sorttmp, invtmp, i + 1)
  {}

  /** With one cell left there is nothing to do. */
  lemma {:induction false} LastIsPlaced(s0: seq<Function>, s: seq<Function>, p: seq<nat>, sorttmp: seq<nat>, invtmp: seq<nat>)
    requires s != [] && Placed(s0, s, p, sorttmp, |s| - 1) && InverseFrom(sorttmp, invtmp, |s| - 1)
    ensures s == Reordered(s0, p)
  {}

  /** The index of each entry. */
  method Invert(temp: seq<nat>) returns (inverse: seq<nat>)
    requires Permutes(temp, |temp|)
    ensures InverseFrom(temp, inverse, 0)
  {
    inverse := seq(|temp|, _ => 0);
    var i := 0;
    while i < |temp|
      invariant 0 <= i <= |temp| == |inverse|
      invariant forall k :: 0 <= k < i ==> inverse[temp[k]] == k
      invariant forall k :: 0 <= k < |inverse| ==> inverse[k] < |temp|
    {
      inverse := inverse[temp[i] := i];
      i := i + 1;
    }
    Onto(temp, inverse);
  }

  lemma {:induction false} Onto(p: seq<nat>, q: seq<nat>)
    requires Permutes(p, |p|) && |q| == |p| && forall k :: 0 <= k < |p| ==> q[p[k]] == k
    ensures InverseFrom(p, q, 0)
  {
    forall m | 0 <= m < |p| ensures q[m] < |p| && p[q[m]] == m {
      var k := PlaceInOrder(p, |p|, m);
    }
  }

  /** sort_function_table: temp is what the sort of the indices gave. */
  method SortFunctionTable(table: array<Function>, temp: seq<nat>) returns (inverse: seq<nat>)
    requires |temp| == table.Length && Permutes(temp, |temp|)
    modifies table
    ensures table[..] == Reordered(old(table[..]), temp) && InverseFrom(temp, inverse, 0)
  {
    inverse := [];
    var num := table.Length;
    if num == 0 { return; }
    inverse := Invert(temp);
    var sorttmp, invtmp := temp, inverse;
    ghost var s0 := table[..];
    var i := 0;
    while i < num - 1
      invariant 0 <= i <= num - 1 && Placed(s0, table[..], temp, sorttmp, i) && InverseFrom(sorttmp, invtmp, i)
    {
      ghost var s := table[..];
      var where := sorttmp[i];
      if i == where {
        AlreadyPlaced(s0, s, temp, sorttmp, invtmp, i);
      } else {
        SwapPlaces(s0, s, temp, sorttmp, invtmp, i);
        var cft := table[i];
        table[i] := table[where];
        sorttmp := sorttmp[invtmp[i] := where];
        invtmp := invtmp[where := invtmp[i]];
        table[where] := cft;
        assert table[..] == s[i := s[where]][where := s[i]];
      }
      i := i + 1;
    }
    LastIsPlaced(s0, table[..], temp, sorttmp, invtmp);
  }

  /** Sorted indices make a sorted table. */
  lemma {:induction false} TableIsSorted(s: seq<Function>, temp: seq<nat>, i: nat, j: nat)
    requires |temp| == |s| && Permutes(temp, |temp|) && i < j < |s|
    requires forall k, m :: 0 <= k < m < |s| ==> Compare(s[temp[k]], s[temp[m]]) <= 0
    ensures Compare(Reordered(s, temp)[i], Reordered(s, temp)[j]) <= 0
    ensures Reordered(s, temp)[i].initial ==> Reordered(s, temp)[j].initial
  {
    assert Compare(s[temp[i]], s[temp[j]]) <= 0;
  }

  /** A runtime entry: where the function is defined in the table, or something inherited. */
  datatype Runtime = Defined(index: nat) | Inherited(offset: nat)

  /** The entries after the sort: every one leads to the function it led to before. */
  method RemapEntries(entries: array<Runtime>, inverse: seq<nat>, ghost temp: seq<nat>, ghost before: seq<Function>)
    requires |temp| == |before| && InverseFrom(temp, inverse, 0)
    requires forall k :: 0 <= k < entries.Length && entries[k].Defined? ==> entries[k].index < |inverse|
    modifies entries
    ensures forall k :: 0 <= k < entries.Length ==>
      match old(entries[k])
      case Inherited(_) => entries[k] == old(entries[k])
      case Defined(index) => entries[k].Defined? && entries[k].index < |temp| && Reordered(before, temp)[entries[k].index] == before[index]
  {
    var i := 0;
    while i < entries.Length
      invariant 0 <= i <= entries.Length
      invariant forall k :: i <= k < entries.Length ==> entries[k] == old(entries[k])
      invariant forall k :: 0 <= k < i ==>
        entries[k] == match old(entries[k]) case Inherited(offset) => Inherited(offset) case Defined(index) => Defined(inverse[index])
    {
      if entries[i].Defined? { entries[i] := Defined(inverse[entries[i].index]); }
      i := i + 1;
    }
  }

  // ---------- The types of the arguments ----------

  /** The loop over type_start: cells are copied within one array, in turn. */
  function CopiedFrom(s: seq<nat>, temp: seq<nat>, i: nat): (r: seq<nat>)
    requires |temp| == |s| && i <= |s| && forall k :: 0 <= k < |temp| ==> temp[k] < |s|
    ensures |r| == |s|
    decreases |s| - i
  {
    if i == |s| then s else CopiedFrom(s[i := s[temp[i]]], temp, i + 1)
  }

  /** A cell that was overwritten already is read with its new value. */
  lemma {:induction false} CopyReads(s: seq<nat>, temp: seq<nat>, i: nat, k: nat)
    requires |temp| == |s| && i <= |s| && k < |s| && forall k :: 0 <= k < |temp| ==> temp[k] < |s|
    ensures
      var r := CopiedFrom(s, temp, i);
      r[k] == if k < i then s[k] else if temp[k] < i || temp[k] >= k then s[temp[k]] else r[temp[k]]
    decreases |s| - i
  {
    if i < |s| {
      var s1 := s[i := s[temp[i]]];
      CopyReads(s1, temp, i + 1, k);
      if k >= i { CopyReads(s1, temp, i + 1, temp[k]); }
    }
  }

  predicate Identity(p: seq<nat>) { forall k :: 0 <= k < |p| ==> p[k] == k }

  /** Where a cell is taken from one already overwritten, the two final values must be the same. */
  predicate Harmless(s: seq<nat>, temp: seq<nat>)
    requires |temp| == |s| && forall k :: 0 <= k < |temp| ==> temp[k] < |s|
  {
    forall k :: 0 <= k < |s| && temp[k] < k ==> s[temp[temp[k]]] == s[temp[k]]
  }

  /** The loop gives the rearranged array exactly when no cell that was overwritten too early matters. */
  lemma {:induction false} CopyIsRight(s: seq<nat>, temp: seq<nat>)
    requires |temp| == |s| && forall k :: 0 <= k < |temp| ==> temp[k] < |s|
    ensures CopiedFrom(s, temp, 0) == Reordered(s, temp) <==> Harmless(s, temp)
  {
    var r := CopiedFrom(s, temp, 0);
    forall k | 0 <= k < |s| && temp[k] < k ensures r[k] == r[temp[k]] { CopyReads(s, temp, 0, k); }
    if Harmless(s, temp) {
      forall k | 0 <= k < |s| ensures r[k] == s[temp[k]] { CopyIsHarmless(s, temp, k); }
      assert r == Reordered(s, temp);
    }
  }

  lemma {:induction false} CopyIsHarmless(s: seq<nat>, temp: seq<nat>, k: nat)
    requires |temp| == |s| && k < |s| && (forall k :: 0 <= k < |temp| ==> temp[k] < |s|) && Harmless(s, temp)
    ensures CopiedFrom(s, temp, 0)[k] == s[temp[k]]
    decreases k
  {
    CopyReads(s, temp, 0, k);
    if temp[k] < k { CopyIsHarmless(s, temp, temp[k]); }
  }

  /** When the cells are different that is so exactly when there was nothing to rearrange. */
  lemma {:induction false} CopyOfDifferentCells(s: seq<nat>, temp: seq<nat>)
    requires |temp| == |s| && Permutes(temp, |temp|) && forall i, j :: 0 <= i < j < |s| ==> s[i] != s[j]
    ensures CopiedFrom(s, temp, 0) == Reordered(s, temp) <==> Identity(temp)
  {
    CopyIsRight(s, temp);
    if !Identity(temp) {
      var i := FirstMoved(temp, 0);
      var k := PlaceInOrder(temp, |temp|, i);
      assert temp[k] == i < k && s[temp[i]] != s[i];
    }
  }

  /** The smallest input that goes wrong: two cells that change places. */
  lemma {:induction false} ExchangeLosesCell(a: nat, b: nat)
    ensures CopiedFrom([a, b], [1, 0], 0) == [b, b] && Reordered([a, b], [1, 0]) == [b, a]
  {
    CopyReads([a, b], [1, 0], 0, 0);
    CopyReads([a, b], [1, 0], 0, 1);
  }

  /** The first index that does not stay where it is; it goes up. */
  lemma {:induction false} FirstMoved(p: seq<nat>, n: nat) returns (i: nat)
    requires Permutes(p, |p|) && n <= |p| && (forall k :: 0 <= k < n ==> p[k] == k) && !Identity(p)
    ensures i < |p| && p[i] > i && forall k :: 0 <= k < i ==> p[k] == k
    decreases |p| - n
  {
    if p[n] == n { i := FirstMoved(p, n + 1); }
    else {
      i := n;
      var m := p[n];
      assert m < n ==> p[m] == m;
    }
  }
}
