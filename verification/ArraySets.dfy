/** The sorting of src/array.c, by a heap with holes, and the set operations on arrays that are built on it.
    Two values compare as equal only when they are the same, so a value is its key. */
module ArraySets {
  /** A place of the table: a value, or T_INVALID. */
  datatype Cell = Invalid | Item(v: int)

  function Parent(k: nat): (p: nat)
    requires k > 0
    ensures p < k && (k == 2 * p + 1 || k == 2 * p + 2)
  {
    (k - 1) / 2
  }

  function One(c: Cell): multiset<int> { if c.Item? then multiset{c.v} else multiset{} }

  /** The values of a table. */
  function Items(s: seq<Cell>): multiset<int> {
    if s == [] then multiset{} else Items(s[..|s| - 1]) + One(s[|s| - 1])
  }

  lemma {:induction false} ItemsUpdate(s: seq<Cell>, i: nat, c: Cell)
    requires i < |s|
    ensures One(s[i]) <= Items(s) && Items(s[i := c]) == Items(s) - One(s[i]) + One(c)
    decreases |s|
  {
    hide One;
    var n, s' := |s| - 1, s[i := c];
    assert Items(s) == Items(s[..n]) + One(s[n]) && Items(s') == Items(s'[..n]) + One(s'[n]);
    if i < n {
      ItemsUpdate(s[..n], i, c);
      assert s'[..n] == s[..n][i := c];
      Exchanged(Items(s[..n]), One(s[i]), One(c), One(s[n]));
    } else {
      assert s'[..n] == s[..n];
    }
  }

  lemma {:induction false} Exchanged(m: multiset<int>, a: multiset<int>, b: multiset<int>, c: multiset<int>)
    requires a <= m
    ensures a <= m + c && (m - a + b) + c == (m + c) - a + b
  {}

  lemma {:induction false} SomeItem(s: seq<Cell>) returns (i: nat)
    requires Items(s) != multiset{}
    ensures i < |s| && s[i].Item?
    decreases |s|
  {
    var n := |s| - 1;
    if s[n].Item? { i := n; } else { i := SomeItem(s[..n]); }
  }

  lemma {:induction false} ItemIsThere(s: seq<Cell>, x: int) returns (i: nat)
    requires x in Items(s)
    ensures i < |s| && s[i] == Item(x)
    decreases |s|
  {
    var n := |s| - 1;
    if s[n] == Item(x) { i := n; } else { i := ItemIsThere(s[..n], x); }
  }

  predicate NoHoles(s: seq<Cell>) { forall k :: 0 <= k < |s| ==> s[k].Item? }

  /** A value is not less than the one above it, and there are no values below a hole. */
  predicate Above(s: seq<Cell>, k: nat)
    requires 0 < k < |s|
  {
    s[k].Item? ==> s[Parent(k)].Item? && s[Parent(k)].v <= s[k].v
  }

  predicate Heap(s: seq<Cell>) { forall k {:trigger Above(s, k)} :: 0 < k < |s| ==> Above(s, k) }

  lemma {:induction false} RootIsLeast(s: seq<Cell>, k: nat)
    requires Heap(s) && k < |s| && s[k].Item?
    ensures s[0].Item? && s[0].v <= s[k].v
    decreases k
  {
    if k > 0 {
      assert Above(s, k);
      RootIsLeast(s, Parent(k));
    }
  }

  lemma {:induction false} RootIsMinimum(s: seq<Cell>)
    requires Heap(s) && Items(s) != multiset{}
    ensures s != [] && s[0].Item? && forall x :: x in Items(s) ==> s[0].v <= x
  {
    var i := SomeItem(s);
    RootIsLeast(s, i);
    forall y | y in Items(s) ensures s[0].v <= y {
      var j := ItemIsThere(s, y);
      RootIsLeast(s, j);
    }
  }

  // ---------- Building the heap ----------

  /** All is in order, except perhaps between cur and the place above it. */
  predicate Rising(s: seq<Cell>, cur: nat) {
    && cur < |s| && NoHoles(s)
    && (forall k {:trigger Above(s, k)} :: 0 < k < |s| && k != cur ==> Above(s, k))
    && (forall k {:trigger Above(s, k)} :: 0 < k < |s| && Parent(k) == cur > 0 ==> s[Parent(cur)].v <= s[k].v)
  }

  lemma {:induction false} RiseOn(s: seq<Cell>, cur: nat)
    requires Rising(s, cur) && cur > 0 && s[Parent(cur)].v <= s[cur].v
    ensures Heap(s) && Rising(s, Parent(cur))
  {
    assert Above(s, cur);
    var p := Parent(cur);
    forall k | 0 < k < |s| && Parent(k) == p > 0 ensures s[Parent(p)].v <= s[k].v {
      assert Above(s, k) && Above(s, p);
    }
  }

  function Swapped(s: seq<Cell>, i: nat, j: nat): seq<Cell>
    requires i < |s| && j < |s|
  {
    s[i := s[j]][j := s[i]]
  }

  lemma {:induction false} SwapKeepsItems(s: seq<Cell>, i: nat, j: nat)
    requires i < |s| && j < |s| && i != j
    ensures Items(Swapped(s, i, j)) == Items(s)
  {
    ItemsUpdate(s, i, s[j]);
    ItemsUpdate(s[i := s[j]], j, s[i]);
    hide Items, One;
  }

  lemma {:induction false} RiseStarts(s: seq<Cell>, cur: nat)
    requires cur > 0 && |s| == cur + 1 && NoHoles(s) && Heap(s[..cur])
    ensures Rising(s, cur)
  {
    forall k | 0 < k < |s| && k != cur ensures Above(s, k) {
      assert Above(s[..cur], k);
    }
    forall k | 0 < k < |s| ensures Parent(k) != cur {}
  }

  lemma {:induction false} RiseBySwap(s: seq<Cell>, cur: nat)
    requires Rising(s, cur) && cur > 0 && s[Parent(cur)].v > s[cur].v
    ensures Rising(Swapped(s, cur, Parent(cur)), Parent(cur))
  {
    var p := Parent(cur);
    var t := Swapped(s, cur, p);
    forall k | 0 < k < |t| && k != p ensures Above(t, k) {
      if k != cur { assert Above(s, k); }
    }
    forall k | 0 < k < |t| && Parent(k) == p > 0 ensures t[Parent(p)].v <= t[k].v {
      assert Above(s, p);
      if k != cur { assert Above(s, k); }
    }
  }

  lemma {:induction false} RisenToRoot(s: seq<Cell>)
    requires s != [] && Rising(s, 0)
    ensures Heap(s)
  {}

  /** The value that rises is at cur, or all is in order. */
  predicate Carries(s: seq<Cell>, cur: nat, val: Cell) {
    cur < |s| && (cur == 0 || s[cur] == val || Above(s, cur))
  }

  lemma {:induction false} MustSwap(s: seq<Cell>, cur: nat, val: Cell)
    requires Rising(s, cur) && Carries(s, cur, val) && cur > 0
    ensures s[cur].Item? && s[Parent(cur)].Item?
    ensures if s[Parent(cur)].v > s[cur].v then s[cur] == val && Carries(Swapped(s, cur, Parent(cur)), Parent(cur), val)
            else Carries(s, Parent(cur), val)
  {
    if s[Parent(cur)].v <= s[cur].v && Parent(cur) > 0 { assert Above(s, Parent(cur)); }
  }

  lemma {:induction false} AllItems(s: seq<Cell>, cur: nat)
    requires Rising(s, cur)
    ensures NoHoles(s)
  {}

  /** One level of the loop. */
  method SiftStep(a: array<Cell>, n: nat, cur: nat, val: Cell) returns (par: nat)
    requires 0 < cur < n <= a.Length && Rising(a[..n], cur) && Carries(a[..n], cur, val)
    modifies a
    ensures par < cur && Rising(a[..n], par) && Carries(a[..n], par, val)
    ensures Items(a[..n]) == Items(old(a[..n])) && a[n..] == old(a[n..])
  {
    ghost var s := a[..n];
    par := (cur - 1) / 2;
    assert par == Parent(cur);
    MustSwap(s, cur, val);
    hide Heap, Items, Rising, Above, Carries;
    if a[par].v > a[cur].v {
      RiseBySwap(s, cur);
      SwapKeepsItems(s, cur, par);
      a[cur] := a[par];
      a[par] := val;
      assert a[..n] == Swapped(s, cur, par);
    } else {
      RiseOn(s, cur);
    }
  }

  /** The do-while loop that lets the value at j rise; it goes on to the root even when the value has found
      its place. */
  method SiftUp(a: array<Cell>, j: nat)
    requires j < a.Length && NoHoles(a[..j + 1]) && Heap(a[..j])
    modifies a
    ensures Heap(a[..j + 1]) && Items(a[..j + 1]) == Items(old(a[..j + 1])) && a[j + 1..] == old(a[j + 1..])
    ensures NoHoles(a[..j + 1])
  {
    var cur, n := j, j + 1;
    ghost var before, behind := a[..n], a[n..];
    if cur == 0 { return; }
    var val := a[j];
    assert before[..j] == a[..j];
    RiseStarts(before, j);
    assert Carries(before, j, val);
    hide Heap, Items, Rising, Above, Carries;
    while cur != 0
      invariant 0 <= cur <= j && Rising(a[..n], cur) && Carries(a[..n], cur, val)
      invariant Items(a[..n]) == Items(before) && a[n..] == behind
      decreases cur
    {
      cur := SiftStep(a, n, cur, val);
    }
    AllItems(a[..n], 0);
    RisenToRoot(a[..n]);
  }

  // ---------- Taking values out ----------

  /** The value at cur is out, or has moved up: cur is a hole that the values below may fill. */
  predicate Sinking(s: seq<Cell>, cur: nat) {
    && cur < |s|
    && (forall k {:trigger Above(s, k)} :: 0 < k < |s| && k != cur && Parent(k) != cur ==> Above(s, k))
    && (cur > 0 ==> s[Parent(cur)].Item?)
    && (forall k {:trigger Above(s, k)} :: 0 < k < |s| && Parent(k) == cur && s[k].Item? ==>
          cur > 0 ==> s[Parent(cur)].v <= s[k].v)
  }

  /** The values without the one at cur. */
  function Rest(s: seq<Cell>, cur: nat): multiset<int>
    requires cur < |s|
  {
    Items(s[cur := Invalid])
  }

  lemma {:induction false} SinkStarts(s: seq<Cell>)
    requires Heap(s) && s != [] && s[0].Item?
    ensures Sinking(s, 0) && Rest(s, 0) == Items(s) - multiset{s[0].v}
  {
    ItemsUpdate(s, 0, Invalid);
  }

  /** The smaller child moves up. */
  lemma {:induction false} SinkOn(s: seq<Cell>, cur: nat, child: nat)
    requires Sinking(s, cur) && child < |s| && s[child].Item? && (child == 2 * cur + 1 || child == 2 * cur + 2)
    requires forall k :: 2 * cur + 1 <= k <= 2 * cur + 2 && k < |s| && s[k].Item? ==> s[child].v <= s[k].v
    ensures Sinking(s[cur := s[child]], child) && Rest(s[cur := s[child]], child) == Rest(s, cur)
  {
    var t := s[cur := s[child]];
    SinkKeepsItems(s, cur, child);
    SinkKeepsOrder(s, cur, child);
  }

  lemma {:induction false} SinkKeepsItems(s: seq<Cell>, cur: nat, child: nat)
    requires cur < child < |s|
    ensures Rest(s[cur := s[child]], child) == Rest(s, cur)
  {
    var t := s[cur := Invalid];
    assert s[cur := s[child]][child := Invalid] == t[cur := s[child]][child := Invalid];
    ItemsUpdate(t, cur, s[child]);
    ItemsUpdate(t[cur := s[child]], child, Invalid);
    hide Items, One;
  }

  lemma {:induction false} LeastBelow(s: seq<Cell>, cur: nat, child: nat)
    requires Sinking(s, cur) && child < |s| && s[child].Item? && (child == 2 * cur + 1 || child == 2 * cur + 2)
    ensures cur > 0 ==> s[Parent(cur)].Item? && s[Parent(cur)].v <= s[child].v
  {
    assert Parent(child) == cur;
    ghost var above := Above(s, child);
  }

  lemma {:induction false} SinkKeepsOrder(s: seq<Cell>, cur: nat, child: nat)
    requires Sinking(s, cur) && child < |s| && s[child].Item? && (child == 2 * cur + 1 || child == 2 * cur + 2)
    requires forall k :: 2 * cur + 1 <= k <= 2 * cur + 2 && k < |s| && s[k].Item? ==> s[child].v <= s[k].v
    ensures Sinking(s[cur := s[child]], child)
  {
    var t := s[cur := s[child]];
    assert Parent(child) == cur;
    forall k | 0 < k < |t| && k != child && Parent(k) != child ensures Above(t, k) {
      if k != cur && Parent(k) != cur { assert Above(s, k); }
      else if k == cur { LeastBelow(s, cur, child); }
    }
    forall k | 0 < k < |t| && Parent(k) == child && t[k].Item? ensures t[cur].v <= t[k].v {
      assert Above(s, k);
    }
  }

  /** With no value below it the hole stays. */
  lemma {:induction false} SinkEnds(s: seq<Cell>, cur: nat)
    requires Sinking(s, cur) && forall k :: 2 * cur + 1 <= k <= 2 * cur + 2 && k < |s| ==> s[k].Invalid?
    ensures Heap(s[cur := Invalid]) && Items(s[cur := Invalid]) == Rest(s, cur)
  {
    var t := s[cur := Invalid];
    forall k | 0 < k < |t| ensures Above(t, k) {
      if k != cur && Parent(k) != cur { assert Above(s, k); }
    }
  }

  /** Takes the root out; the smaller values below move up one after the other. */
  method TakeRoot(a: array<Cell>)
    requires a.Length > 0 && Heap(a[..]) && a[0].Item?
    modifies a
    ensures Heap(a[..]) && Items(a[..]) == Items(old(a[..])) - multiset{old(a[0]).v}
  {
    var size, cur := a.Length, 0;
    SinkStarts(a[..]);
    ghost var rest := Rest(a[..], 0);
    hide Heap, Items, Rest, Sinking;
    while true
      invariant 0 <= cur < size == a.Length && Sinking(a[..], cur) && Rest(a[..], cur) == rest
      decreases size - cur
    {
      ghost var s := a[..];
      var child := LesserChild(a, cur);
      if child == size {
        SinkEnds(s, cur);
        break;
      }
      SinkOn(s, cur, child);
      a[cur] := a[child];
      assert a[..] == s[cur := s[child]];
      cur := child;
    }
    ghost var s := a[..];
    a[cur] := Invalid;
    assert a[..] == s[cur := Invalid];
  }

  /** The lesser of the two values below cur; the size of the table when there is none. */
  method LesserChild(a: array<Cell>, cur: nat) returns (child: nat)
    requires cur < a.Length
    ensures child == a.Length ==> forall k :: 2 * cur + 1 <= k <= 2 * cur + 2 && k < a.Length ==> a[k].Invalid?
    ensures child != a.Length ==>
      && child < a.Length && a[child].Item? && (child == 2 * cur + 1 || child == 2 * cur + 2)
      && forall k :: 2 * cur + 1 <= k <= 2 * cur + 2 && k < a.Length && a[k].Item? ==> a[child].v <= a[k].v
  {
    var size := a.Length;
    var child1 := 2 * cur + 1;
    var child2 := child1 + 1;
    if child2 < size && a[child2].Item? && (a[child1].Invalid? || a[child1].v > a[child2].v) {
      child1 := child2;
    }
    child := if child1 < size && a[child1].Item? then child1 else size;
  }

  // ---------- Sorting ----------

  lemma {:induction false} ItemsAppend(s: seq<Cell>, t: seq<Cell>)
    ensures Items(s + t) == Items(s) + Items(t)
    decreases |t|
  {
    if t == [] {
      assert s + t == s;
    } else {
      assert (s + t)[..|s + t| - 1] == s + t[..|t| - 1];
      ItemsAppend(s, t[..|t| - 1]);
    }
  }

  lemma {:induction false} Rejoined(s: seq<Cell>, n: nat)
    requires n <= |s|
    ensures s[..n] + s[n..] == s
  {}

  lemma {:induction false} PrefixChanges(s: seq<Cell>, t: seq<Cell>, n: nat)
    requires n <= |s| == |t| && Items(s[..n]) == Items(t[..n]) && s[n..] == t[n..]
    ensures Items(s) == Items(t)
  {
    hide Items;
    ItemsAppend(s[..n], s[n..]);
    ItemsAppend(t[..n], t[n..]);
    Rejoined(s, n);
    Rejoined(t, n);
  }

  lemma {:induction false} ItemsCount(s: seq<Cell>)
    requires NoHoles(s)
    ensures |Items(s)| == |s|
    decreases |s|
  {
    if s != [] { ItemsCount(s[..|s| - 1]); }
  }

  /** The first loop of alist_sort: one value after the other joins the heap. */
  method MakeHeap(a: array<Cell>)
    requires NoHoles(a[..])
    modifies a
    ensures Heap(a[..]) && NoHoles(a[..]) && Items(a[..]) == Items(old(a[..]))
  {
    ghost var m := Items(a[..]);
    var j := 0;
    hide Items, Heap, NoHoles;
    assert Heap(a[..0]) by { NothingIsHeap(a[..0]); }
    while j < a.Length
      invariant 0 <= j <= a.Length && NoHoles(a[..]) && Heap(a[..j]) && Items(a[..]) == m
    {
      JoinHeap(a, j);
      j := j + 1;
    }
    assert a[..j] == a[..];
  }

  lemma {:induction false} NothingIsHeap(s: seq<Cell>)
    requires s == []
    ensures Heap(s)
  {}

  /** One value joins the heap. */
  method JoinHeap(a: array<Cell>, j: nat)
    requires j < a.Length && NoHoles(a[..]) && Heap(a[..j])
    modifies a
    ensures NoHoles(a[..]) && Heap(a[..j + 1]) && Items(a[..]) == Items(old(a[..]))
  {
    ghost var s := a[..];
    hide Items, Heap, NoHoles;
    PartHasNoHoles(s, j + 1);
    assert s[..j + 1] == a[..j + 1];
    SiftUp(a, j);
    ghost var t := a[..];
    assert s[..j + 1] == old(a[..j + 1]) && s[j + 1..] == old(a[j + 1..]);
    assert t[..j + 1] == a[..j + 1] && t[j + 1..] == a[j + 1..];
    PrefixChanges(s, t, j + 1);
    StillNoHoles(s, t, j + 1);
  }

  lemma {:induction false} PartHasNoHoles(s: seq<Cell>, n: nat)
    requires n <= |s| && NoHoles(s)
    ensures NoHoles(s[..n])
  {}

  lemma {:induction false} StillNoHoles(s: seq<Cell>, t: seq<Cell>, n: nat)
    requires n <= |s| == |t| && NoHoles(s) && NoHoles(t[..n]) && s[n..] == t[n..]
    ensures NoHoles(t)
  {
    forall k | 0 <= k < |t| ensures t[k].Item? {
      if k < n { assert t[k] == t[..n][k]; } else { assert t[k] == t[n..][k - n] == s[n..][k - n] == s[k]; }
    }
  }

  predicate Sorted(s: seq<int>) { forall i, j :: 0 <= i < j < |s| ==> s[i] <= s[j] }

  /** Every value of the sequence comes before every one of the multiset. */
  predicate Precede(s: seq<int>, m: multiset<int>) { forall i, x :: 0 <= i < |s| && x in m ==> s[i] <= x }

  /** What is taken out next goes to the end of what was taken out before. */
  lemma {:induction false} NextIsGreater(s: seq<int>, m: multiset<int>, x: int)
    requires Sorted(s) && Precede(s, m) && x in m && forall y :: y in m ==> x <= y
    ensures Sorted(s + [x]) && Precede(s + [x], m - multiset{x}) && multiset(s + [x]) + (m - multiset{x}) == multiset(s) + m
  {}

  /** The second loop of alist_sort: the table in ascending order. */
  method Drain(a: array<Cell>) returns (table: seq<int>)
    requires Heap(a[..]) && NoHoles(a[..])
    modifies a
    ensures Sorted(table) && multiset(table) == Items(old(a[..]))
  {
    ghost var m := Items(a[..]);
    ItemsCount(a[..]);
    table := [];
    hide Items;
    while |table| < a.Length
      invariant Heap(a[..]) && Sorted(table) && Precede(table, Items(a[..])) && multiset(table) + Items(a[..]) == m
      invariant |table| <= a.Length == |m|
    {
      ghost var rest := Items(a[..]);
      RootIsMinimum(a[..]);
      RootIsIn(a[..]);
      NextIsGreater(table, rest, a[0].v);
      table := table + [a[0].v];
      TakeRoot(a);
    }
    assert Items(a[..]) == multiset{};
  }

  lemma {:induction false} RootIsIn(s: seq<Cell>)
    requires s != [] && s[0].Item?
    ensures s[0].v in Items(s)
  {
    ItemsUpdate(s, 0, Invalid);
  }

  /** alist_sort.  An array that somebody else refers to is copied first; any other one is used up. */
  method AlistSort(inlist: array<Cell>, shared: bool) returns (table: seq<int>)
    requires NoHoles(inlist[..])
    modifies inlist
    ensures Sorted(table) && multiset(table) == Items(old(inlist[..])) && |table| == inlist.Length
    ensures shared ==> inlist[..] == old(inlist[..])
  {
    ItemsCount(inlist[..]);
    if inlist.Length == 0 { return []; }
    var svTab := WorkingCopy(inlist, shared);
    MakeHeap(svTab);
    table := Drain(svTab);
    assert |table| == |multiset(table)|;
  }

  /** A copy of a shared array, any other one itself. */
  method WorkingCopy(a: array<Cell>, shared: bool) returns (svTab: array<Cell>)
    ensures svTab[..] == a[..] && if shared then fresh(svTab) else svTab == a
  {
    if !shared { return a; }
    svTab := new Cell[a.Length];
    var j := 0;
    while j < a.Length
      invariant 0 <= j <= a.Length && svTab[..j] == a[..j]
    {
      svTab[j] := a[j];
      j := j + 1;
    }
  }

  // ---------- Difference ----------

  /** An element of the minuend; Unfound is a string the table of shared strings does not know, so no
      shared string is equal to it. */
  datatype Element = Key(v: int) | Unfound(text: string)

  /** The elements whose values are not in the multiset, in order. */
  function Without(s: seq<Element>, m: multiset<int>): seq<Element> {
    if s == [] then []
    else Without(s[..|s| - 1], m) + if s[|s| - 1].Key? && s[|s| - 1].v in m then [] else [s[|s| - 1]]
  }

  /** Nothing else is left out, and nothing is left in. */
  lemma {:induction false} WithoutKeeps(s: seq<Element>, m: multiset<int>, e: Element)
    ensures multiset(Without(s, m))[e] == if e.Key? && e.v in m then 0 else multiset(s)[e]
    decreases |s|
  {
    if s != [] {
      WithoutKeeps(s[..|s| - 1], m, e);
      assert s == s[..|s| - 1] + [s[|s| - 1]];
    }
  }

  /** The binary search of subtract_array. */
  method Finds(svt: seq<int>, x: int) returns (found: bool)
    requires svt != [] && Sorted(svt)
    ensures found == (x in svt)
  {
    var l, h := 0, |svt| - 1;
    var o := h / 2;
    while x != svt[o]
      invariant 0 <= l <= o <= h < |svt|
      invariant forall i :: 0 <= i < l ==> svt[i] < x
      invariant forall i :: h < i < |svt| ==> x < svt[i]
      decreases h - l
    {
      if x < svt[o] { h := o - 1; } else { l := o + 1; }
      if l > h { return false; }
      o := (l + h) / 2;
    }
    return true;
  }

  /** subtract_array: what the minuend has and the subtrahend has not, in the order of the minuend. */
  method Subtract(minuend: seq<Element>, subtrahend: array<Cell>, shared: bool) returns (difference: seq<Element>)
    requires NoHoles(subtrahend[..])
    modifies subtrahend
    ensures difference == Without(minuend, Items(old(subtrahend[..])))
    ensures shared ==> subtrahend[..] == old(subtrahend[..])
  {
    ghost var m := Items(subtrahend[..]);
    if subtrahend.Length == 0 {
      NothingIsTaken(minuend);
      return minuend;
    }
    if minuend == [] { return []; }
    var svt := AlistSort(subtrahend, shared);
    hide Items;
    ghost var after := subtrahend[..];
    difference := [];
    var i := 0;
    while i < |minuend|
      invariant subtrahend[..] == after
      invariant 0 <= i <= |minuend| && difference == Without(minuend[..i], m)
    {
      var source := minuend[i];
      assert minuend[..i + 1][..i] == minuend[..i];
      i := i + 1;
      if source.Unfound? {
        difference := difference + [source];
        continue;
      }
      var found := Finds(svt, source.v);
      assert found == (source.v in m) by { assert source.v in svt <==> source.v in multiset(svt); }
      if !found { difference := difference + [source]; }
    }
    assert minuend[..i] == minuend;
  }

  lemma {:induction false} NothingIsTaken(s: seq<Element>)
    ensures Without(s, multiset{}) == s
    decreases |s|
  {
    if s != [] { NothingIsTaken(s[..|s| - 1]); }
  }

  // ---------- Intersection ----------

  /** How often x counts: as often as in m, when m1 has it. */
  function Common(m1: multiset<int>, m: multiset<int>, x: int): nat { if x in m1 then m[x] else 0 }

  /** What was put out so far and what is still to come make up the intersection. */
  ghost predicate Dealt(ntab: seq<int>, rest: multiset<int>, m1: multiset<int>, m2: multiset<int>) {
    forall x :: multiset(ntab)[x] + Common(m1, rest, x) == Common(m1, m2, x)
  }

  lemma {:induction false} DealOne(ntab: seq<int>, rest: multiset<int>, m1: multiset<int>, m2: multiset<int>, v: int)
    requires Dealt(ntab, rest, m1, m2) && v in rest
    ensures Dealt(if v in m1 then ntab + [v] else ntab, rest - multiset{v}, m1, m2)
  {
    var next := if v in m1 then ntab + [v] else ntab;
    forall x ensures multiset(next)[x] + Common(m1, rest - multiset{v}, x) == Common(m1, m2, x) {
      assert multiset(ntab)[x] + Common(m1, rest, x) == Common(m1, m2, x);
    }
  }

  /** With every value of m1 below what is still to come, nothing of that is common. */
  lemma {:induction false} NoneLeft(ntab: seq<int>, rest: multiset<int>, m1: multiset<int>, m2: multiset<int>, svt: seq<int>, val: int)
    requires Dealt(ntab, rest, m1, m2) && multiset(svt) == m1
    requires (forall k :: 0 <= k < |svt| ==> svt[k] < val) && forall x :: x in rest ==> val <= x
    ensures Dealt(ntab, multiset{}, m1, m2)
  {
    forall x ensures multiset(ntab)[x] + Common(m1, multiset{}, x) == Common(m1, m2, x) {
      assert multiset(ntab)[x] + Common(m1, rest, x) == Common(m1, m2, x);
      if x in m1 { assert x in svt; }
    }
  }

  /** intersect_array: the values of the second array that the first one has, in ascending order, each as
      often as the second array has it. */
  method Intersect(a1: array<Cell>, a2: array<Cell>, shared1: bool, shared2: bool) returns (ntab: seq<int>)
    requires NoHoles(a1[..]) && NoHoles(a2[..]) && (a1 == a2 ==> shared1 && shared2)
    modifies a1, a2
    ensures Sorted(ntab) && forall x :: multiset(ntab)[x] == Common(Items(old(a1[..])), Items(old(a2[..])), x)
    ensures (shared1 ==> a1[..] == old(a1[..])) && (shared2 ==> a2[..] == old(a2[..]))
  {
    ghost var m1, m2 := Items(a1[..]), Items(a2[..]);
    ItemsCount(a1[..]);
    ItemsCount(a2[..]);
    hide Items, Heap, NoHoles, Sorted, Dealt, Common;
    ntab := [];
    if a1.Length == 0 || a2.Length == 0 {
      NothingCommon(m1, m2);
      return;
    }
    var svt1 := AlistSort(a1, shared1);
    var svTab := WorkingCopy(a2, shared2);
    MakeHeap(svTab);
    ntab := Merge(svt1, svTab, m1);
    AllDealt(ntab, m1, m2);
  }

  lemma {:induction false} NothingCommon(m1: multiset<int>, m2: multiset<int>)
    requires |m1| == 0 || |m2| == 0
    ensures Sorted([]) && forall x :: multiset{}[x] == Common(m1, m2, x)
  {}

  lemma {:induction false} AllDealt(ntab: seq<int>, m1: multiset<int>, m2: multiset<int>)
    requires Dealt(ntab, multiset{}, m1, m2)
    ensures forall x :: multiset(ntab)[x] == Common(m1, m2, x)
  {
    forall x ensures multiset(ntab)[x] == Common(m1, m2, x) {
      assert multiset(ntab)[x] + Common(m1, multiset{}, x) == Common(m1, m2, x);
    }
  }

  /** The last loop of intersect_array. */
  method Merge(svt1: seq<int>, a: array<Cell>, ghost m1: multiset<int>) returns (ntab: seq<int>)
    requires Sorted(svt1) && svt1 != [] && multiset(svt1) == m1 && Heap(a[..]) && NoHoles(a[..])
    modifies a
    ensures Sorted(ntab) && Dealt(ntab, multiset{}, m1, Items(old(a[..])))
  {
    ghost var m2 := Items(a[..]);
    ItemsCount(a[..]);
    ntab := [];
    var i, j := 0, 0;
    hide Items, Heap, NoHoles, Sorted, Precede, Dealt, Under, Common;
    NothingDealt(svt1, m1, m2);
    while j < a.Length
      invariant 0 <= j <= a.Length && 0 <= i < |svt1| && |Items(a[..])| == a.Length - j
      invariant Heap(a[..]) && Dealt(ntab, Items(a[..]), m1, m2)
      invariant Sorted(ntab) && Precede(ntab, Items(a[..])) && Under(svt1, i, Items(a[..]))
    {
      ghost var rest := Items(a[..]);
      RootIsMinimum(a[..]);
      RootIsIn(a[..]);
      var val := a[0].v;
      StillUnder(svt1, i, rest, val);
      i := CatchUp(svt1, i, val);
      if i == |svt1| {
        NoneLeft(ntab, rest, m1, m2, svt1, val);
        return;
      }
      DealOne(ntab, rest, m1, m2, val);
      NextIsGreater(ntab, rest, val);
      PartIsLater(ntab, rest, val);
      OnTheSpot(svt1, i, rest, val);
      if val == svt1[i] { ntab := ntab + [val]; }
      TakeRoot(a);
      j := j + 1;
    }
    assert Items(a[..]) == multiset{};
  }

  /** The first i values are less than all that are still to come. */
  predicate Under(svt: seq<int>, i: nat, rest: multiset<int>) {
    forall k, x :: 0 <= k < i <= |svt| && x in rest ==> svt[k] < x
  }

  lemma {:induction false} NothingDealt(svt: seq<int>, m1: multiset<int>, m2: multiset<int>)
    ensures Dealt([], m2, m1, m2) && Sorted([]) && Precede([], m2) && Under(svt, 0, m2)
  {}

  lemma {:induction false} StillUnder(svt: seq<int>, i: nat, rest: multiset<int>, val: int)
    requires i <= |svt| && Under(svt, i, rest) && val in rest
    ensures forall k :: 0 <= k < i ==> svt[k] < val
  {}

  lemma {:induction false} PartIsLater(ntab: seq<int>, rest: multiset<int>, val: int)
    requires Precede(ntab, rest)
    ensures Precede(ntab, rest - multiset{val})
  {}

  /** What the place of the least value tells. */
  lemma {:induction false} OnTheSpot(svt: seq<int>, i: nat, rest: multiset<int>, val: int)
    requires Sorted(svt) && i < |svt| && val <= svt[i] && (forall k :: 0 <= k < i ==> svt[k] < val) && forall x :: x in rest ==> val <= x
    ensures (val == svt[i] <==> val in multiset(svt)) && Under(svt, i, rest - multiset{val})
  {
    if val in multiset(svt) {
      assert val in svt;
      var k :| 0 <= k < |svt| && svt[k] == val;
    }
  }

  /** Skips the values that are less than val. */
  method CatchUp(svt: seq<int>, i0: nat, val: int) returns (i: nat)
    requires i0 < |svt| && forall k :: 0 <= k < i0 ==> svt[k] < val
    ensures i <= |svt| && (forall k :: 0 <= k < i ==> svt[k] < val) && (i < |svt| ==> val <= svt[i])
  {
    i := i0;
    while val > svt[i]
      invariant 0 <= i < |svt| && forall k :: 0 <= k < i ==> svt[k] < val
      decreases |svt| - i
    {
      i := i + 1;
      if i >= |svt| { return; }
    }
  }
}
