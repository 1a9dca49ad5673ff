/** Balanced trees as values: what src/avltree.c computes, and why its trees stay ordered and balanced. */
module AvlTree {
  import opened Basics


  /** The caller's data; the comparison routine looks at the key only. */
  datatype Datum = Datum(key: int, item: nat)

  datatype Tree = Empty | Bin(l: Tree, d: Datum, b: int, r: Tree)

  function Max(a: int, b: int): int { if a < b then b else a }

  function Height(t: Tree): (h: nat)
    ensures h == 0 <==> t.Empty?
  {
    if t.Empty? then 0 else 1 + Max(Height(t.l), Height(t.r))
  }

  /** The stored balance is the height of the right subtree less that of the left one. */
  predicate Balanced(t: Tree) {
    t.Bin? ==> Balanced(t.l) && Balanced(t.r) && t.b == Height(t.r) - Height(t.l) && -1 <= t.b <= 1
  }

  function Items(t: Tree): set<Datum> {
    if t.Empty? then {} else Items(t.l) + {t.d} + Items(t.r)
  }

  predicate Below(s: set<Datum>, key: int) { forall d :: d in s ==> d.key < key }

  predicate Above(s: set<Datum>, key: int) { forall d :: d in s ==> key < d.key }

  /** Search order; keys occur once. */
  predicate Ordered(t: Tree) {
    t.Bin? ==> Ordered(t.l) && Ordered(t.r) && Below(Items(t.l), t.d.key) && Above(Items(t.r), t.d.key)
  }

  function Without(s: set<Datum>, key: int): set<Datum> {
    set d | d in s && d.key != key
  }

  // ---------- Insertion ----------

  /** The left subtree has grown: src/avltree.c:125-166. */
  function GrownLeft(l: Tree, d: Datum, b: int, r: Tree): (Tree, bool)
    requires b == -1 ==> l.Bin? && (l.b == -1 || l.r.Bin?)
  {
    if b == 1 then (Bin(l, d, 0, r), false)
    else if b == 0 then (Bin(l, d, -1, r), true)
    else if b != -1 then (Bin(l, d, b, r), true)
    else if l.b == -1 then
      (Bin(l.l, l.d, 0, Bin(l.r, d, 0, r)), false)
    else
      var p2 := l.r;
      (Bin(Bin(l.l, l.d, if p2.b == 1 then -1 else 0, p2.l), p2.d, 0, Bin(p2.r, d, if p2.b == -1 then 1 else 0, r)), false)
  }

  /** The right subtree has grown: src/avltree.c:178-219. */
  function GrownRight(l: Tree, d: Datum, b: int, r: Tree): (Tree, bool)
    requires b == 1 ==> r.Bin? && (r.b == 1 || r.l.Bin?)
  {
    if b == -1 then (Bin(l, d, 0, r), false)
    else if b == 0 then (Bin(l, d, 1, r), true)
    else if b != 1 then (Bin(l, d, b, r), true)
    else if r.b == 1 then
      (Bin(Bin(l, d, 0, r.l), r.d, 0, r.r), false)
    else
      var p2 := r.l;
      (Bin(Bin(l, d, if p2.b == 1 then -1 else 0, p2.l), p2.d, 0, Bin(p2.r, r.d, if p2.b == -1 then 1 else 0, r.r)), false)
  }

  /** What a growing subtree looks like: a fresh leaf, or one that leans to a side. */
  predicate GrewInto(t: Tree) { t.Bin? && (Height(t) == 1 || t.b != 0) }

  lemma {:induction false} Leaning(t: Tree)
    requires t.Bin? && Balanced(t)
    ensures (t.b > 0 ==> t.r.Bin?) && (t.b < 0 ==> t.l.Bin?)
    ensures Height(t) == 1 + (if t.b > 0 then Height(t.r) else Height(t.l))
    ensures Height(t) == 1 <==> t.l.Empty? && t.r.Empty?
  {}

  lemma {:induction false} Joined(l: Tree, d: Datum, b: int, r: Tree)
    requires Balanced(l) && Balanced(r) && b == Height(r) - Height(l) && -1 <= b <= 1
    ensures Balanced(Bin(l, d, b, r)) && Height(Bin(l, d, b, r)) == 1 + if b > 0 then Height(r) else Height(l)
  {}

  /** l has grown by one since b was right. */
  lemma {:induction false} GrownLeftIsBalanced(l: Tree, d: Datum, b: int, r: Tree)
    requires Balanced(l) && Balanced(r) && GrewInto(l) && b == Height(r) - (Height(l) - 1) && -1 <= b <= 1
    ensures b == -1 ==> l.Bin? && (l.b == -1 || l.r.Bin?)
    ensures
      var (t, grown) := GrownLeft(l, d, b, r);
      && Balanced(t) && Height(t) == 1 + (if b == 1 then Height(r) else Height(l) - 1) + (if grown then 1 else 0)
      && (grown ==> GrewInto(t)) && t.Bin?
  {
    Leaning(l);
    if b == 1 { Joined(l, d, 0, r); }
    else if b == 0 { Joined(l, d, -1, r); }
    else if l.b == -1 {
      hide Balanced, Height;
      BalancedParts(l);
      Joined(l.r, d, 0, r);
      Joined(l.l, l.d, 0, Bin(l.r, d, 0, r));
    } else {
      DoubleIsBalanced(l.l, l.d, l.r, d, r);
    }
  }

  lemma {:induction false} BalancedParts(t: Tree)
    requires t.Bin? && Balanced(t)
    ensures Balanced(t.l) && Balanced(t.r) && t.b == Height(t.r) - Height(t.l) && -1 <= t.b <= 1
  {}

  /** The tree a double rotation builds from the outer subtrees a and c and the middle one. */
  function Doubled(a: Tree, x: Datum, mid: Tree, y: Datum, c: Tree): Tree
    requires mid.Bin?
  {
    Bin(Bin(a, x, if mid.b == 1 then -1 else 0, mid.l), mid.d, 0, Bin(mid.r, y, if mid.b == -1 then 1 else 0, c))
  }

  lemma {:induction false} DoubleIsBalanced(a: Tree, x: Datum, mid: Tree, y: Datum, c: Tree)
    requires mid.Bin? && Balanced(a) && Balanced(mid) && Balanced(c)
    requires Height(a) == Height(c) == Height(mid) - 1
    ensures Balanced(Doubled(a, x, mid, y, c)) && Height(Doubled(a, x, mid, y, c)) == Height(mid) + 1
  {
    BalancedParts(mid);
    Leaning(mid);
    hide Balanced, Height;
    var b1, b2 := if mid.b == 1 then -1 else 0, if mid.b == -1 then 1 else 0;
    Joined(a, x, b1, mid.l);
    Joined(mid.r, y, b2, c);
    Joined(Bin(a, x, b1, mid.l), mid.d, 0, Bin(mid.r, y, b2, c));
  }

  lemma {:induction false} GrownRightIsBalanced(l: Tree, d: Datum, b: int, r: Tree)
    requires Balanced(l) && Balanced(r) && GrewInto(r) && b == Height(r) - 1 - Height(l) && -1 <= b <= 1
    ensures b == 1 ==> r.Bin? && (r.b == 1 || r.l.Bin?)
    ensures
      var (t, grown) := GrownRight(l, d, b, r);
      && Balanced(t) && Height(t) == 1 + (if b == -1 then Height(l) else Height(r) - 1) + (if grown then 1 else 0)
      && (grown ==> GrewInto(t)) && t.Bin?
  {
    Leaning(r);
    if b == -1 { Joined(l, d, 0, r); }
    else if b == 0 { Joined(l, d, 1, r); }
    else if r.b == 1 {
      hide Balanced, Height;
      BalancedParts(r);
      Joined(l, d, 0, r.l);
      Joined(Bin(l, d, 0, r.l), r.d, 0, r.r);
    } else {
      DoubleIsBalanced(l, d, r.l, r.d, r.r);
    }
  }

  /** sprout; the flag reports that the tree has become higher. */
  function Insert(t: Tree, d: Datum): (r: (Tree, bool))
    requires Balanced(t)
    ensures Balanced(r.0) && r.0.Bin? && Height(r.0) == Height(t) + (if r.1 then 1 else 0)
    ensures r.1 ==> GrewInto(r.0)
  {
    if t.Empty? then (Bin(Empty, d, 0, Empty), true)
    else if d.key < t.d.key then
      var (l, grown) := Insert(t.l, d);
      if grown then
        GrownLeftIsBalanced(l, t.d, t.b, t.r);
        GrownLeft(l, t.d, t.b, t.r)
      else
        (Bin(l, t.d, t.b, t.r), false)
    else if d.key > t.d.key then
      var (r, grown) := Insert(t.r, d);
      if grown then
        GrownRightIsBalanced(t.l, t.d, t.b, r);
        GrownRight(t.l, t.d, t.b, r)
      else
        (Bin(t.l, t.d, t.b, r), false)
    else (Bin(t.l, d, t.b, t.r), false)
  }

  // ---------- Rotations keep the items and their order ----------

  /** Rotating to the right or back. */
  lemma {:induction false} Rotation(a: Tree, x: Datum, b1: int, m: Tree, y: Datum, b2: int, c: Tree, b3: int, b4: int)
    ensures
      var s, t := Bin(Bin(a, x, b1, m), y, b2, c), Bin(a, x, b3, Bin(m, y, b4, c));
      Items(s) == Items(t) && (Ordered(s) <==> Ordered(t))
  {
    var s, t := Bin(Bin(a, x, b1, m), y, b2, c), Bin(a, x, b3, Bin(m, y, b4, c));
    assert Items(s) == Items(a) + {x} + Items(m) + {y} + Items(c);
    if Ordered(s) {
      assert Ordered(s.l) && x in Items(s.l);
      assert Below(Items(m), y.key) && Above(Items(m), x.key);
      assert Above(Items(t.r), x.key);
    }
    if Ordered(t) {
      assert Ordered(t.r) && y in Items(t.r);
      assert Below(Items(m), y.key) && Above(Items(m), x.key);
      assert Below(Items(s.l), y.key);
    }
  }

  /** Two rotations, inner one first. */
  lemma {:induction false} DoubleRotation(a: Tree, x: Datum, mid: Tree, y: Datum, c: Tree, b1: int, b2: int)
    requires mid.Bin?
    ensures
      var t := Doubled(a, x, mid, y, c);
      && Items(t) == Items(Bin(Bin(a, x, b1, mid), y, b2, c)) == Items(Bin(a, x, b1, Bin(mid, y, b2, c)))
      && (Ordered(Bin(Bin(a, x, b1, mid), y, b2, c)) ==> Ordered(t))
      && (Ordered(Bin(a, x, b1, Bin(mid, y, b2, c))) ==> Ordered(t))
  {
    var i, j := if mid.b == 1 then -1 else 0, if mid.b == -1 then 1 else 0;
    Rotation(a, x, b1, mid, y, b2, c, b1, b2);
    Rotation(Bin(a, x, i, mid.l), mid.d, 0, mid.r, y, b2, c, 0, j);
    Rotation(a, x, i, mid.l, mid.d, mid.b, mid.r, b1, 0);
    var s := Bin(Bin(Bin(a, x, i, mid.l), mid.d, 0, mid.r), y, b2, c);
    Rotation(a, x, i, mid.l, mid.d, 0, mid.r, b1, mid.b);
    SameInside(Bin(a, x, b1, mid), s.l, y, b2, c);
  }

  lemma {:induction false} SameInside(s: Tree, t: Tree, y: Datum, b: int, c: Tree)
    requires Items(s) == Items(t) && (Ordered(s) <==> Ordered(t))
    ensures Items(Bin(s, y, b, c)) == Items(Bin(t, y, b, c)) && (Ordered(Bin(s, y, b, c)) <==> Ordered(Bin(t, y, b, c)))
  {}

  /** The stored balance does not matter. */
  lemma {:induction false} Rebalanced(l: Tree, d: Datum, b: int, r: Tree, b': int)
    ensures Items(Bin(l, d, b, r)) == Items(Bin(l, d, b', r)) && (Ordered(Bin(l, d, b, r)) <==> Ordered(Bin(l, d, b', r)))
  {}

  /** A rebuilt tree holds the same items, in order if they were. */
  predicate Rebuilt(s: Tree, t: Tree) { Items(t) == Items(s) && (Ordered(s) ==> Ordered(t)) }

  lemma {:induction false} GrownLeftItems(l: Tree, d: Datum, b: int, r: Tree)
    requires b == -1 ==> l.Bin? && (l.b == -1 || l.r.Bin?)
    ensures Rebuilt(Bin(l, d, b, r), GrownLeft(l, d, b, r).0)
  {
    if b == 1 { Rebalanced(l, d, b, r, 0); }
    else if b == 0 { Rebalanced(l, d, b, r, -1); }
    else if b == -1 {
      if l.b == -1 { Rotation(l.l, l.d, l.b, l.r, d, b, r, 0, 0); }
      else { DoubleRotation(l.l, l.d, l.r, d, r, l.b, b); }
    }
  }

  lemma {:induction false} GrownRightItems(l: Tree, d: Datum, b: int, r: Tree)
    requires b == 1 ==> r.Bin? && (r.b == 1 || r.l.Bin?)
    ensures Rebuilt(Bin(l, d, b, r), GrownRight(l, d, b, r).0)
  {
    if b == -1 { Rebalanced(l, d, b, r, 0); }
    else if b == 0 { Rebalanced(l, d, b, r, 1); }
    else if b == 1 {
      if r.b == 1 { Rotation(l, d, 0, r.l, r.d, 0, r.r, b, r.b); }
      else { DoubleRotation(l, d, r.l, r.d, r.r, b, r.b); }
    }
  }

  /** What an update or a removal in one subtree means for the whole tree. */
  lemma {:induction false} UpdatedLeft(l: Tree, l': Tree, d: Datum, b: int, r: Tree, key: int, more: set<Datum>)
    requires Ordered(Bin(l, d, b, r)) && Ordered(l') && key < d.key
    requires Items(l') == Without(Items(l), key) + more && forall m :: m in more ==> m.key == key
    ensures Ordered(Bin(l', d, b, r)) && Items(Bin(l', d, b, r)) == Without(Items(Bin(l, d, b, r)), key) + more
  {
    assert Above(Items(r), d.key);
    WithoutElsewhere(Items(l), {d} + Items(r), key);
    assert Items(Bin(l, d, b, r)) == Items(l) + ({d} + Items(r));
    assert Items(Bin(l', d, b, r)) == Items(l') + ({d} + Items(r));
  }

  lemma {:induction false} WithoutElsewhere(s: set<Datum>, rest: set<Datum>, key: int)
    requires forall m :: m in rest ==> m.key != key
    ensures Without(s + rest, key) == Without(s, key) + rest
  {}

  lemma {:induction false} UpdatedRight(l: Tree, d: Datum, b: int, r: Tree, r': Tree, key: int, more: set<Datum>)
    requires Ordered(Bin(l, d, b, r)) && Ordered(r') && d.key < key
    requires Items(r') == Without(Items(r), key) + more && forall m :: m in more ==> m.key == key
    ensures Ordered(Bin(l, d, b, r')) && Items(Bin(l, d, b, r')) == Without(Items(Bin(l, d, b, r)), key) + more
  {
    assert Below(Items(l), d.key);
    WithoutElsewhere(Items(r), {d} + Items(l), key);
    assert Items(Bin(l, d, b, r)) == Items(r) + ({d} + Items(l));
    assert Items(Bin(l, d, b, r')) == Items(r') + ({d} + Items(l));
  }

  /** Insertion keeps the order and replaces what had the same key. */
  lemma {:induction false} InsertUpdates(t: Tree, d: Datum)
    requires Balanced(t) && Ordered(t)
    ensures Ordered(Insert(t, d).0) && Items(Insert(t, d).0) == Without(Items(t), d.key) + {d}
  {
    if t.Empty? {
      assert Items(Insert(t, d).0) == {d};
    } else if d.key < t.d.key {
      InsertUpdates(t.l, d);
      var (l, grown) := Insert(t.l, d);
      UpdatedLeft(t.l, l, t.d, t.b, t.r, d.key, {d});
      if grown {
        GrownLeftIsBalanced(l, t.d, t.b, t.r);
        GrownLeftItems(l, t.d, t.b, t.r);
      }
      hide Items, Ordered, GrownLeft;
    } else if d.key > t.d.key {
      InsertUpdates(t.r, d);
      var (r, grown) := Insert(t.r, d);
      UpdatedRight(t.l, t.d, t.b, t.r, r, d.key, {d});
      if grown {
        GrownRightIsBalanced(t.l, t.d, t.b, r);
        GrownRightItems(t.l, t.d, t.b, r);
      }
      hide Items, Ordered, GrownRight;
    } else {
      assert forall m :: m in Items(t.l) + Items(t.r) ==> m.key != d.key;
    }
  }

  // ---------- Deletion ----------

  /** balanceL: the left subtree has become lower. */
  function ShrunkLeft(l: Tree, d: Datum, b: int, r: Tree): (Tree, bool)
    requires b == 1 ==> r.Bin? && (r.b >= 0 || r.l.Bin?)
  {
    if b == -1 then (Bin(l, d, 0, r), true)
    else if b == 0 then (Bin(l, d, 1, r), false)
    else if b != 1 then (Bin(l, d, b, r), true)
    else if r.b >= 0 then
      if r.b == 0 then (Bin(Bin(l, d, 1, r.l), r.d, -1, r.r), false)
      else (Bin(Bin(l, d, 0, r.l), r.d, 0, r.r), true)
    else
      var p2 := r.l;
      (Bin(Bin(l, d, if p2.b == 1 then -1 else 0, p2.l), p2.d, 0, Bin(p2.r, r.d, if p2.b == -1 then 1 else 0, r.r)), true)
  }

  /** balanceR: the right subtree has become lower. */
  function ShrunkRight(l: Tree, d: Datum, b: int, r: Tree): (Tree, bool)
    requires b == -1 ==> l.Bin? && (l.b <= 0 || l.r.Bin?)
  {
    if b == 1 then (Bin(l, d, 0, r), true)
    else if b == 0 then (Bin(l, d, -1, r), false)
    else if b != -1 then (Bin(l, d, b, r), true)
    else if l.b <= 0 then
      if l.b == 0 then (Bin(l.l, l.d, 1, Bin(l.r, d, -1, r)), false)
      else (Bin(l.l, l.d, 0, Bin(l.r, d, 0, r)), true)
    else
      var p2 := l.r;
      (Bin(Bin(l.l, l.d, if p2.b == 1 then -1 else 0, p2.l), p2.d, 0, Bin(p2.r, d, if p2.b == -1 then 1 else 0, r)), true)
  }

  /** l has shrunk by one since b was right. */
  lemma {:induction false} ShrunkLeftIsBalanced(l: Tree, d: Datum, b: int, r: Tree)
    requires Balanced(l) && Balanced(r) && b == Height(r) - (Height(l) + 1) && -1 <= b <= 1
    ensures b == 1 ==> r.Bin? && (r.b >= 0 || r.l.Bin?)
    ensures
      var (t, shrunk) := ShrunkLeft(l, d, b, r);
      Balanced(t) && Height(t) == 1 + (if b == 1 then Height(r) else Height(l) + 1) - (if shrunk then 1 else 0)
  {
    if b == -1 { Joined(l, d, 0, r); }
    else if b == 0 { Joined(l, d, 1, r); }
    else {
      BalancedParts(r);
      Leaning(r);
      hide Balanced, Height;
      if r.b == 0 {
        Joined(l, d, 1, r.l);
        Joined(Bin(l, d, 1, r.l), r.d, -1, r.r);
      } else if r.b > 0 {
        Joined(l, d, 0, r.l);
        Joined(Bin(l, d, 0, r.l), r.d, 0, r.r);
      } else {
        DoubleIsBalanced(l, d, r.l, r.d, r.r);
      }
    }
  }

  lemma {:induction false} ShrunkRightIsBalanced(l: Tree, d: Datum, b: int, r: Tree)
    requires Balanced(l) && Balanced(r) && b == Height(r) + 1 - Height(l) && -1 <= b <= 1
    ensures b == -1 ==> l.Bin? && (l.b <= 0 || l.r.Bin?)
    ensures
      var (t, shrunk) := ShrunkRight(l, d, b, r);
      Balanced(t) && Height(t) == 1 + (if b == -1 then Height(l) else Height(r) + 1) - (if shrunk then 1 else 0)
  {
    if b == 1 { Joined(l, d, 0, r); }
    else if b == 0 { Joined(l, d, -1, r); }
    else {
      BalancedParts(l);
      Leaning(l);
      hide Balanced, Height;
      if l.b == 0 {
        Joined(l.r, d, -1, r);
        Joined(l.l, l.d, 1, Bin(l.r, d, -1, r));
      } else if l.b < 0 {
        Joined(l.r, d, 0, r);
        Joined(l.l, l.d, 0, Bin(l.r, d, 0, r));
      } else {
        DoubleIsBalanced(l.l, l.d, l.r, d, r);
      }
    }
  }

  /** del: takes the greatest element out; the flag reports that the tree has become lower. */
  function TakeLast(t: Tree): (r: (Tree, bool, Datum))
    requires t.Bin? && Balanced(t)
    ensures Balanced(r.0) && Height(r.0) == Height(t) - (if r.1 then 1 else 0)
  {
    if t.r.Bin? then
      var (r, shrunk, last) := TakeLast(t.r);
      if shrunk then
        ShrunkRightIsBalanced(t.l, t.d, t.b, r);
        var (t', s) := ShrunkRight(t.l, t.d, t.b, r);
        (t', s, last)
      else
        (Bin(t.l, t.d, t.b, r), false, last)
    else
      (t.l, true, t.d)
  }

  /** The case of delete that has found the key. */
  function RemoveRoot(t: Tree): (r: (Tree, bool))
    requires t.Bin? && Balanced(t)
    ensures Balanced(r.0) && Height(r.0) == Height(t) - (if r.1 then 1 else 0)
  {
    if t.r.Empty? then (t.l, true)
    else if t.l.Empty? then (t.r, true)
    else
      var (l, shrunk, last) := TakeLast(t.l);
      if shrunk then
        ShrunkLeftIsBalanced(l, last, t.b, t.r);
        ShrunkLeft(l, last, t.b, t.r)
      else
        (Bin(l, last, t.b, t.r), false)
  }

  /** delete; the removed datum is handed to the caller's routine. */
  function Remove(t: Tree, key: int): (r: (Tree, bool, Option<Datum>))
    requires Balanced(t)
    ensures Balanced(r.0) && Height(r.0) == Height(t) - (if r.1 then 1 else 0)
  {
    if t.Empty? then (t, false, None)
    else if t.d.key > key then
      var (l, shrunk, gone) := Remove(t.l, key);
      if shrunk then
        ShrunkLeftIsBalanced(l, t.d, t.b, t.r);
        var (t', s) := ShrunkLeft(l, t.d, t.b, t.r);
        (t', s, gone)
      else
        (Bin(l, t.d, t.b, t.r), false, gone)
    else if t.d.key < key then
      var (r, shrunk, gone) := Remove(t.r, key);
      if shrunk then
        ShrunkRightIsBalanced(t.l, t.d, t.b, r);
        var (t', s) := ShrunkRight(t.l, t.d, t.b, r);
        (t', s, gone)
      else
        (Bin(t.l, t.d, t.b, r), false, gone)
    else
      var (t', shrunk) := RemoveRoot(t);
      (t', shrunk, Some(t.d))
  }

  lemma {:induction false} ShrunkLeftItems(l: Tree, d: Datum, b: int, r: Tree)
    requires b == 1 ==> r.Bin? && (r.b >= 0 || r.l.Bin?)
    ensures Rebuilt(Bin(l, d, b, r), ShrunkLeft(l, d, b, r).0)
  {
    if b == -1 { Rebalanced(l, d, b, r, 0); }
    else if b == 0 { Rebalanced(l, d, b, r, 1); }
    else if b == 1 {
      if r.b >= 0 { Rotation(l, d, if r.b == 0 then 1 else 0, r.l, r.d, if r.b == 0 then -1 else 0, r.r, b, r.b); }
      else { DoubleRotation(l, d, r.l, r.d, r.r, b, r.b); }
    }
  }

  lemma {:induction false} ShrunkRightItems(l: Tree, d: Datum, b: int, r: Tree)
    requires b == -1 ==> l.Bin? && (l.b <= 0 || l.r.Bin?)
    ensures Rebuilt(Bin(l, d, b, r), ShrunkRight(l, d, b, r).0)
  {
    if b == 1 { Rebalanced(l, d, b, r, 0); }
    else if b == 0 { Rebalanced(l, d, b, r, -1); }
    else if b == -1 {
      if l.b <= 0 { Rotation(l.l, l.d, l.b, l.r, d, b, r, if l.b == 0 then 1 else 0, if l.b == 0 then -1 else 0); }
      else { DoubleRotation(l.l, l.d, l.r, d, r, l.b, b); }
    }
  }

  lemma {:induction false} TakeLastRemoves(t: Tree)
    requires t.Bin? && Balanced(t) && Ordered(t)
    ensures
      var (t', _, last) := TakeLast(t);
      && Ordered(t') && last in Items(t) && Below(Items(t'), last.key)
      && Items(t) == Items(t') + {last}
  {
    hide Balanced, Items, Ordered, Below, ShrunkRight, Rebuilt;
    if t.r.Bin? {
      RightParts(t);
      TakeLastRemoves(t.r);
      var (r, shrunk, last) := TakeLast(t.r);
      LastOfRight(t, r, last);
      if shrunk {
        ShrunkRightIsBalanced(t.l, t.d, t.b, r);
        ShrunkRightItems(t.l, t.d, t.b, r);
        SameItems(Bin(t.l, t.d, t.b, r), ShrunkRight(t.l, t.d, t.b, r).0);
      }
    } else {
      LastIsRoot(t);
    }
  }

  lemma {:induction false} RightParts(t: Tree)
    requires t.Bin? && Balanced(t) && Ordered(t)
    ensures Balanced(t.l) && Balanced(t.r) && Ordered(t.r) && t.b == Height(t.r) - Height(t.l) && -1 <= t.b <= 1
  {}

  lemma {:induction false} SameItems(t: Tree, t': Tree)
    requires Rebuilt(t, t') && Ordered(t)
    ensures Ordered(t') && Items(t') == Items(t)
  {
    hide Items, Ordered;
  }

  /** The root of a tree without a right subtree is its greatest item. */
  lemma {:induction false} LastIsRoot(t: Tree)
    requires t.Bin? && t.r.Empty? && Ordered(t)
    ensures Ordered(t.l) && t.d in Items(t) && Below(Items(t.l), t.d.key) && Items(t) == Items(t.l) + {t.d}
  {}

  /** The greatest item of the right subtree is that of the tree. */
  lemma {:induction false} LastOfRight(t: Tree, r: Tree, last: Datum)
    requires t.Bin? && Ordered(t) && Ordered(r) && last in Items(t.r) && Items(t.r) == Items(r) + {last} && Below(Items(r), last.key)
    ensures var t' := Bin(t.l, t.d, t.b, r); Ordered(t') && Below(Items(t'), last.key) && Items(t) == Items(t') + {last} && last in Items(t)
  {}

  /** Replacing the root by the greatest item of its left subtree. */
  lemma {:induction false} RootReplaced(t: Tree, l: Tree, last: Datum)
    requires t.Bin? && Ordered(t) && Ordered(l) && Items(t.l) == Items(l) + {last} && Below(Items(l), last.key)
    ensures Ordered(Bin(l, last, t.b, t.r)) && Items(Bin(l, last, t.b, t.r)) == Without(Items(t), t.d.key)
  {
    assert last in Items(t.l);
    assert forall m :: m in Items(t.l) + Items(t.r) ==> m.key != t.d.key;
  }

  lemma {:induction false} RootRemoved(t: Tree)
    requires t.Bin? && Ordered(t)
    ensures t.l.Empty? ==> Items(t.r) == Without(Items(t), t.d.key)
    ensures t.r.Empty? ==> Items(t.l) == Without(Items(t), t.d.key)
    ensures t.d in Items(t)
  {
    assert forall m :: m in Items(t.l) + Items(t.r) ==> m.key != t.d.key;
  }

  lemma {:induction false} ItemsElsewhere(t: Tree, key: int)
    requires t.Bin? && Ordered(t)
    ensures Items(t.l) <= Items(t) && Items(t.r) <= Items(t)
    ensures key < t.d.key ==> forall m :: m in Items(t) && m.key == key ==> m in Items(t.l)
    ensures key > t.d.key ==> forall m :: m in Items(t) && m.key == key ==> m in Items(t.r)
  {}

  /** The datum handed out is the one that had the key; None means there was none. */
  predicate Found(s: set<Datum>, key: int, gone: Option<Datum>) {
    match gone
    case Some(d) => d in s && d.key == key
    case None => forall d :: d in s ==> d.key != key
  }

  /** Deletion keeps the order and removes exactly the datum with the key. */
  lemma {:induction false} RemoveRemoves(t: Tree, key: int)
    requires Balanced(t) && Ordered(t)
    ensures
      var (t', _, gone) := Remove(t, key);
      Ordered(t') && Items(t') == Without(Items(t), key) && Found(Items(t), key, gone)
    decreases t, 1
  {
    if t.Bin? {
      ItemsElsewhere(t, key);
      if t.d.key > key {
        RemoveLeft(t, key);
      } else if t.d.key < key {
        RemoveRight(t, key);
      } else if t.r.Empty? || t.l.Empty? {
        RootRemoved(t);
      } else {
        RootRemoved(t);
        TakeLastRemoves(t.l);
        var (l, shrunk, last) := TakeLast(t.l);
        RootReplaced(t, l, last);
        hide Items, Ordered, ShrunkLeft;
        if shrunk {
          ShrunkLeftIsBalanced(l, last, t.b, t.r);
          ShrunkLeftItems(l, last, t.b, t.r);
        }
      }
    }
  }

  lemma {:induction false} RemoveLeft(t: Tree, key: int)
    requires Balanced(t) && Ordered(t) && t.Bin? && key < t.d.key
    ensures
      var (t', _, gone) := Remove(t, key);
      Ordered(t') && Items(t') == Without(Items(t), key) && Found(Items(t), key, gone)
    decreases t, 0
  {
    ItemsElsewhere(t, key);
    RemoveRemoves(t.l, key);
    var (l, shrunk, gone) := Remove(t.l, key);
    UpdatedLeft(t.l, l, t.d, t.b, t.r, key, {});
    hide Items, Ordered, ShrunkLeft;
    if shrunk {
      ShrunkLeftIsBalanced(l, t.d, t.b, t.r);
      ShrunkLeftItems(l, t.d, t.b, t.r);
    }
  }

  lemma {:induction false} RemoveRight(t: Tree, key: int)
    requires Balanced(t) && Ordered(t) && t.Bin? && key > t.d.key
    ensures
      var (t', _, gone) := Remove(t, key);
      Ordered(t') && Items(t') == Without(Items(t), key) && Found(Items(t), key, gone)
    decreases t, 0
  {
    ItemsElsewhere(t, key);
    RemoveRemoves(t.r, key);
    var (r, shrunk, gone) := Remove(t.r, key);
    UpdatedRight(t.l, t.d, t.b, t.r, r, key, {});
    hide Items, Ordered, ShrunkRight;
    if shrunk {
      ShrunkRightIsBalanced(t.l, t.d, t.b, r);
      ShrunkRightItems(t.l, t.d, t.b, r);
    }
  }

  // ---------- Searching ----------

  /** tree_srch, with the number of comparisons it makes. */
  function Search(t: Tree, key: int): (Option<Datum>, nat) {
    if t.Empty? then (None, 0)
    else if key == t.d.key then (Some(t.d), 1)
    else
      var (found, n) := Search(if key > t.d.key then t.r else t.l, key);
      (found, n + 1)
  }

  lemma {:induction false} SearchFinds(t: Tree, key: int)
    requires Ordered(t)
    ensures Found(Items(t), key, Search(t, key).0) && Search(t, key).1 <= Height(t)
  {
    if t.Bin? {
      ItemsElsewhere(t, key);
      SearchFinds(t.l, key);
      SearchFinds(t.r, key);
    }
  }

  function Fib(n: nat): nat { if n < 2 then n else Fib(n - 1) + Fib(n - 2) }

  function Size(t: Tree): nat { if t.Empty? then 0 else Size(t.l) + 1 + Size(t.r) }

  lemma {:induction false} SizeIsItems(t: Tree)
    requires Ordered(t)
    ensures |Items(t)| == Size(t)
  {
    if t.Bin? {
      SizeIsItems(t.l);
      SizeIsItems(t.r);
      assert Items(t.l) !! {t.d} && Items(t.l) + {t.d} !! Items(t.r);
      assert |Items(t.l) + {t.d}| == |Items(t.l)| + 1;
    }
  }

  lemma {:induction false} FibGrows(n: nat)
    ensures Fib(n) <= Fib(n + 1)
  {
    if n > 1 {
      FibGrows(n - 1);
      FibGrows(n - 2);
    }
  }

  /** A balanced tree of height h holds at least Fib(h + 2) - 1 items, so a search among n items makes
      only logarithmically many comparisons. */
  lemma {:induction false} BalancedTreesAreLow(t: Tree)
    requires Balanced(t)
    ensures Size(t) >= Fib(Height(t) + 2) - 1
  {
    if t.Bin? {
      var h, a, b := Height(t), Height(t.l), Height(t.r);
      BalancedTreesAreLow(t.l);
      BalancedTreesAreLow(t.r);
      assert Size(t) == Size(t.l) + 1 + Size(t.r) && h >= 1;
      assert h == a + 1 || h == b + 1;
      assert h <= a + 2 && h <= b + 2;
      assert Fib(h + 2) == Fib(h + 1) + Fib(h);
      hide Balanced, Height, Size, Fib;
      FibIsMonotone(h, if h == a + 1 then b + 2 else a + 2);
    }
  }

  lemma {:induction false} SearchIsFast(t: Tree, key: int)
    requires Balanced(t) && Ordered(t)
    ensures Fib(Search(t, key).1 + 2) <= |Items(t)| + 1
  {
    hide *;
    SearchFinds(t, key);
    SizeIsItems(t);
    BalancedTreesAreLow(t);
    FibIsMonotone(Search(t, key).1 + 2, Height(t) + 2);
  }

  lemma {:induction false} FibIsMonotone(a: nat, b: nat)
    requires a <= b
    ensures Fib(a) <= Fib(b)
    decreases b - a
  {
    if a < b {
      FibGrows(a);
      FibIsMonotone(a + 1, b);
    }
  }
}
