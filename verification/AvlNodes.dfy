/** src/avltree.c on linked nodes: insertion and deletion relink and rebalance the nodes in place, and
    do what AvlTree says. */
module AvlNodes {
  import opened Basics
  import opened AvlTree

  class Node {
    var left: Node?
    var right: Node?
    var data: Datum
    var balance: int

    constructor (d: Datum)
      ensures left == null && right == null && data == d && balance == 0
    {
      left, right, data, balance := null, null, d, 0;
    }
  }

  /** Which nodes make up a tree, and how. */
  datatype Shape = Nil | Fork(l: Shape, n: Node, r: Shape)

  ghost function Nodes(s: Shape): set<Node> {
    match s
    case Nil => {}
    case Fork(l, n, r) => Nodes(l) + {n} + Nodes(r)
  }

  /** The links of the nodes are those of the shape, and no node occurs twice. */
  ghost predicate Linked(root: Node?, s: Shape)
    reads Nodes(s)
  {
    match s
    case Nil => root == null
    case Fork(l, n, r) =>
      && root == n && Linked(n.left, l) && Linked(n.right, r)
      && n !in Nodes(l) && n !in Nodes(r) && Nodes(l) !! Nodes(r)
  }

  /** The tree the nodes hold. */
  ghost function Value(s: Shape): Tree
    reads Nodes(s)
  {
    match s
    case Nil => Empty
    case Fork(l, n, r) => Bin(Value(l), n.data, n.balance, Value(r))
  }

  /** Nodes reached by links are allocated. */
  lemma {:induction false} AllAllocated(root: Node?, s: Shape)
    requires Linked(root, s)
    ensures forall n :: n in Nodes(s) ==> allocated(n)
    decreases s
  {
    if s.Fork? {
      AllAllocated(root.left, s.l);
      AllAllocated(root.right, s.r);
    }
  }

  /** tree_srch, counting its comparisons. */
  method FindNode(root: Node?, key: int, ghost s: Shape) returns (found: Option<Datum>, ghost comparisons: nat)
    requires Linked(root, s)
    ensures found == Search(Value(s), key).0 && comparisons == Search(Value(s), key).1
  {
    var p := root;
    ghost var t := s;
    comparisons := 0;
    while p != null
      invariant Linked(p, t) && Search(Value(t), key).0 == Search(Value(s), key).0
      invariant comparisons + Search(Value(t), key).1 == Search(Value(s), key).1
      decreases t
    {
      comparisons := comparisons + 1;
      if key > p.data.key {
        p := p.right;
        t := t.r;
      } else if key < p.data.key {
        p := p.left;
        t := t.l;
      } else {
        return Some(p.data), comparisons;
      }
    }
    found := None;
  }

  /** LL: the left child becomes the root. */
  method RotateRight(p: Node, ghost s: Shape) returns (p1: Node, ghost s': Shape)
    requires Linked(p, s) && s.Fork? && s.l.Fork?
    modifies s.n`left, s.l.n`right
    ensures p1 == s.l.n && s' == Fork(s.l.l, s.l.n, Fork(s.l.r, s.n, s.r)) && Linked(p1, s')
  {
    p1 := p.left;
    p.left := p1.right;
    p1.right := p;
    s' := Fork(s.l.l, s.l.n, Fork(s.l.r, s.n, s.r));
  }

  method RotateLeft(p: Node, ghost s: Shape) returns (p1: Node, ghost s': Shape)
    requires Linked(p, s) && s.Fork? && s.r.Fork?
    modifies s.n`right, s.r.n`left
    ensures p1 == s.r.n && s' == Fork(Fork(s.l, s.n, s.r.l), s.r.n, s.r.r) && Linked(p1, s')
  {
    p1 := p.right;
    p.right := p1.left;
    p1.left := p;
    s' := Fork(Fork(s.l, s.n, s.r.l), s.r.n, s.r.r);
  }

  /** LR: the right child of the left child becomes the root. */
  method RotateLeftRight(p: Node, ghost s: Shape) returns (p1: Node, p2: Node, ghost s': Shape)
    requires Linked(p, s) && s.Fork? && s.l.Fork? && s.l.r.Fork?
    modifies s.n`left, s.l.n`right, s.l.r.n`left, s.l.r.n`right
    ensures p1 == s.l.n && p2 == s.l.r.n
    ensures s' == Fork(Fork(s.l.l, s.l.n, s.l.r.l), s.l.r.n, Fork(s.l.r.r, s.n, s.r)) && Linked(p2, s')
    ensures Value(s.l.l) == old(Value(s.l.l)) && Value(s.l.r.l) == old(Value(s.l.r.l))
    ensures Value(s.l.r.r) == old(Value(s.l.r.r)) && Value(s.r) == old(Value(s.r))
  {
    assert Linked(p.left, s.l) && Linked(p.left.right, s.l.r);
    p1 := p.left;
    p2 := p1.right;
    p1.right := p2.left;
    p2.left := p1;
    p.left := p2.right;
    p2.right := p;
    s' := Fork(Fork(s.l.l, s.l.n, s.l.r.l), s.l.r.n, Fork(s.l.r.r, s.n, s.r));
    assert Linked(p1, s'.l) && Linked(p, s'.r);
  }

  method RotateRightLeft(p: Node, ghost s: Shape) returns (p1: Node, p2: Node, ghost s': Shape)
    requires Linked(p, s) && s.Fork? && s.r.Fork? && s.r.l.Fork?
    modifies s.n`right, s.r.n`left, s.r.l.n`left, s.r.l.n`right
    ensures p1 == s.r.n && p2 == s.r.l.n
    ensures s' == Fork(Fork(s.l, s.n, s.r.l.l), s.r.l.n, Fork(s.r.l.r, s.r.n, s.r.r)) && Linked(p2, s')
    ensures Value(s.l) == old(Value(s.l)) && Value(s.r.l.l) == old(Value(s.r.l.l))
    ensures Value(s.r.l.r) == old(Value(s.r.l.r)) && Value(s.r.r) == old(Value(s.r.r))
  {
    assert Linked(p.right, s.r) && Linked(p.right.left, s.r.l);
    p1 := p.right;
    p2 := p1.left;
    p1.left := p2.right;
    p2.right := p1;
    p.right := p2.left;
    p2.left := p;
    s' := Fork(Fork(s.l, s.n, s.r.l.l), s.r.l.n, Fork(s.r.l.r, s.r.n, s.r.r));
    assert Linked(p, s'.l) && Linked(p1, s'.r);
  }

  /** A single rotation with the balances it leaves behind. */
  method SingleRight(p: Node, b: int, b1: int, ghost s: Shape) returns (root: Node, ghost s': Shape)
    requires Linked(p, s) && s.Fork? && s.l.Fork?
    modifies Nodes(s)
    ensures Linked(root, s') && Nodes(s') == Nodes(s)
    ensures
      var l, d, r := old(Value(s.l)), old(p.data), old(Value(s.r));
      Value(s') == Bin(l.l, l.d, b1, Bin(l.r, d, b, r))
  {
    assert Linked(p.left, s.l);
    AllAllocated(p, s);
    root, s' := RotateRight(p, s);
    p.balance := b;
    root.balance := b1;
    assert Value(s'.r) == Bin(old(Value(s.l.r)), p.data, b, old(Value(s.r)));
  }

  method SingleLeft(p: Node, b: int, b1: int, ghost s: Shape) returns (root: Node, ghost s': Shape)
    requires Linked(p, s) && s.Fork? && s.r.Fork?
    modifies Nodes(s)
    ensures Linked(root, s') && Nodes(s') == Nodes(s)
    ensures
      var l, d, r := old(Value(s.l)), old(p.data), old(Value(s.r));
      Value(s') == Bin(Bin(l, d, b, r.l), r.d, b1, r.r)
  {
    assert Linked(p.right, s.r);
    AllAllocated(p, s);
    root, s' := RotateLeft(p, s);
    p.balance := b;
    root.balance := b1;
    assert Value(s'.l) == Bin(old(Value(s.l)), p.data, b, old(Value(s.r.l)));
  }

  /** The balances of three nodes of which two are the children of the third. */
  method SetBalances(p2: Node, bl: int, br: int, ghost s: Shape)
    requires Linked(p2, s) && s.Fork? && s.l.Fork? && s.r.Fork?
    modifies s.n`balance, s.l.n`balance, s.r.n`balance
    ensures Linked(p2, s)
    ensures Value(s) == old(
      Bin(Bin(Value(s.l.l), s.l.n.data, bl, Value(s.l.r)), s.n.data, 0, Bin(Value(s.r.l), s.r.n.data, br, Value(s.r.r))))
  {
    assert Linked(p2.left, s.l) && Linked(p2.right, s.r);
    p2.left.balance := bl;
    p2.right.balance := br;
    p2.balance := 0;
    assert Value(s.l) == Bin(old(Value(s.l.l)), s.l.n.data, bl, old(Value(s.l.r)));
    assert Value(s.r) == Bin(old(Value(s.r.l)), s.r.n.data, br, old(Value(s.r.r)));
  }

  /** A double rotation with the balances it leaves behind. */
  method DoubleRight(p: Node, ghost s: Shape) returns (root: Node, ghost s': Shape)
    requires Linked(p, s) && s.Fork? && s.l.Fork? && s.l.r.Fork? && Value(s.l).r.Bin?
    modifies Nodes(s)
    ensures Linked(root, s') && Nodes(s') == Nodes(s)
    ensures Value(s') == old(var l := Value(s.l); Doubled(l.l, l.d, l.r, p.data, Value(s.r)))
  {
    var p1, p2;
    p1, p2, s' := RotateLeftRight(p, s);
    root := p2;
    SetBalances(p2, if p2.balance == 1 then -1 else 0, if p2.balance == -1 then 1 else 0, s');
  }

  method DoubleLeft(p: Node, ghost s: Shape) returns (root: Node, ghost s': Shape)
    requires Linked(p, s) && s.Fork? && s.r.Fork? && s.r.l.Fork? && Value(s.r).l.Bin?
    modifies Nodes(s)
    ensures Linked(root, s') && Nodes(s') == Nodes(s)
    ensures Value(s') == old(var r := Value(s.r); Doubled(Value(s.l), p.data, r.l, r.d, r.r))
  {
    var p1, p2;
    p1, p2, s' := RotateRightLeft(p, s);
    root := p2;
    SetBalances(p2, if p2.balance == 1 then -1 else 0, if p2.balance == -1 then 1 else 0, s');
  }

  lemma {:induction false} ChildBalance(p: Node, s: Shape)
    requires Linked(p, s) && s.Fork?
    ensures Value(s.l).Bin? ==> s.l.Fork? && p.left != null && p.left.balance == Value(s.l).b
    ensures Value(s.l).Bin? && Value(s.l).r.Bin? ==> s.l.Fork? && s.l.r.Fork?
    ensures Value(s.r).Bin? ==> s.r.Fork? && p.right != null && p.right.balance == Value(s.r).b
    ensures Value(s.r).Bin? && Value(s.r).l.Bin? ==> s.r.Fork? && s.r.l.Fork?
  {}

  /** Rebalances after the left subtree of p has grown. */
  method GrowLeft(p: Node, ghost s: Shape, ghost t: Tree) returns (root: Node, grown: bool, ghost s': Shape)
    requires Linked(p, s) && s.Fork? && t == Value(s)
    requires t.b == -1 ==> t.l.Bin? && (t.l.b == -1 || t.l.r.Bin?)
    modifies Nodes(s)
    ensures Linked(root, s') && Nodes(s') == Nodes(s)
    ensures (Value(s'), grown) == GrownLeft(t.l, t.d, t.b, t.r)
  {
    ChildBalance(p, s);
    root, grown, s' := p, true, s;
    if p.balance == 1 {
      p.balance := 0;
      grown := false;
    } else if p.balance == 0 {
      p.balance := -1;
    } else if p.balance == -1 {
      if p.left.balance == -1 {
        root, s' := SingleRight(p, 0, 0, s);
      } else {
        root, s' := DoubleRight(p, s);
      }
      grown := false;
    }
  }

  /** Rebalances after the right subtree of p has grown. */
  method GrowRight(p: Node, ghost s: Shape, ghost t: Tree) returns (root: Node, grown: bool, ghost s': Shape)
    requires Linked(p, s) && s.Fork? && t == Value(s)
    requires t.b == 1 ==> t.r.Bin? && (t.r.b == 1 || t.r.l.Bin?)
    modifies Nodes(s)
    ensures Linked(root, s') && Nodes(s') == Nodes(s)
    ensures (Value(s'), grown) == GrownRight(t.l, t.d, t.b, t.r)
  {
    ChildBalance(p, s);
    root, grown, s' := p, true, s;
    if p.balance == -1 {
      p.balance := 0;
      grown := false;
    } else if p.balance == 0 {
      p.balance := 1;
    } else if p.balance == 1 {
      if p.right.balance == 1 {
        root, s' := SingleLeft(p, 0, 0, s);
      } else {
        root, s' := DoubleLeft(p, s);
      }
      grown := false;
    }
  }

  /** balanceL */
  method ShrinkLeft(p: Node, ghost s: Shape, ghost t: Tree) returns (root: Node, shrunk: bool, ghost s': Shape)
    requires Linked(p, s) && s.Fork? && t == Value(s)
    requires t.b == 1 ==> t.r.Bin? && (t.r.b >= 0 || t.r.l.Bin?)
    modifies Nodes(s)
    ensures Linked(root, s') && Nodes(s') == Nodes(s)
    ensures (Value(s'), shrunk) == ShrunkLeft(t.l, t.d, t.b, t.r)
  {
    ChildBalance(p, s);
    root, shrunk, s' := p, true, s;
    if p.balance == -1 {
      p.balance := 0;
    } else if p.balance == 0 {
      p.balance := 1;
      shrunk := false;
    } else if p.balance == 1 {
      if p.right.balance == 0 {
        root, s' := SingleLeft(p, 1, -1, s);
        shrunk := false;
      } else if p.right.balance > 0 {
        root, s' := SingleLeft(p, 0, 0, s);
      } else {
        root, s' := DoubleLeft(p, s);
      }
    }
  }

  /** balanceR */
  method ShrinkRight(p: Node, ghost s: Shape, ghost t: Tree) returns (root: Node, shrunk: bool, ghost s': Shape)
    requires Linked(p, s) && s.Fork? && t == Value(s)
    requires t.b == -1 ==> t.l.Bin? && (t.l.b <= 0 || t.l.r.Bin?)
    modifies Nodes(s)
    ensures Linked(root, s') && Nodes(s') == Nodes(s)
    ensures (Value(s'), shrunk) == ShrunkRight(t.l, t.d, t.b, t.r)
  {
    ChildBalance(p, s);
    root, shrunk, s' := p, true, s;
    if p.balance == 1 {
      p.balance := 0;
    } else if p.balance == 0 {
      p.balance := -1;
      shrunk := false;
    } else if p.balance == -1 {
      if p.left.balance == 0 {
        root, s' := SingleRight(p, -1, 1, s);
        shrunk := false;
      } else if p.left.balance < 0 {
        root, s' := SingleRight(p, 0, 0, s);
      } else {
        root, s' := DoubleRight(p, s);
      }
    }
  }

  lemma {:induction false} ShapeParts(p: Node, s: Shape, t: Tree)
    requires Linked(p, s) && s.Fork? && t == Value(s)
    ensures Linked(p.left, s.l) && Linked(p.right, s.r) && p == s.n && (p.left == null <==> s.l.Nil?) && (p.right == null <==> s.r.Nil?)
    ensures Nodes(s) == Nodes(s.l) + {p} + Nodes(s.r) && p !in Nodes(s.l) && p !in Nodes(s.r) && Nodes(s.l) !! Nodes(s.r)
    ensures t == Bin(Value(s.l), p.data, p.balance, Value(s.r)) && (t.l.Bin? <==> s.l.Fork?) && (t.r.Bin? <==> s.r.Fork?)
    ensures forall n :: n in Nodes(s) ==> allocated(n)
  {
    AllAllocated(p, s);
  }

  /** Puts a new left subtree in place of the old one. */
  method RelinkLeft(p: Node, l: Node?, ghost ls: Shape, ghost rs: Shape, ghost t: Tree)
    requires Linked(l, ls) && Linked(p.right, rs) && p !in Nodes(ls) && p !in Nodes(rs) && Nodes(ls) !! Nodes(rs)
    requires t == Bin(Value(ls), p.data, p.balance, Value(rs))
    modifies p`left
    ensures Linked(p, Fork(ls, p, rs)) && Value(Fork(ls, p, rs)) == t
    ensures Nodes(Fork(ls, p, rs)) == Nodes(ls) + {p} + Nodes(rs)
  {
    p.left := l;
  }

  method RelinkRight(p: Node, r: Node?, ghost ls: Shape, ghost rs: Shape, ghost t: Tree)
    requires Linked(p.left, ls) && Linked(r, rs) && p !in Nodes(ls) && p !in Nodes(rs) && Nodes(ls) !! Nodes(rs)
    requires t == Bin(Value(ls), p.data, p.balance, Value(rs))
    modifies p`right
    ensures Linked(p, Fork(ls, p, rs)) && Value(Fork(ls, p, rs)) == t
    ensures Nodes(Fork(ls, p, rs)) == Nodes(ls) + {p} + Nodes(rs)
  {
    p.right := r;
  }

  /** One step of Insert. */
  lemma {:induction false} InsertSteps(t: Tree, d: Datum)
    requires Balanced(t) && t.Bin?
    ensures d.key == t.d.key ==> Insert(t, d) == (Bin(t.l, d, t.b, t.r), false)
    ensures d.key < t.d.key ==>
      var (l, grown) := Insert(t.l, d);
      && Balanced(t.l) && (grown ==> t.b == -1 ==> l.Bin? && (l.b == -1 || l.r.Bin?))
      && Insert(t, d) == if grown then GrownLeft(l, t.d, t.b, t.r) else (Bin(l, t.d, t.b, t.r), false)
    ensures d.key > t.d.key ==>
      var (r, grown) := Insert(t.r, d);
      && Balanced(t.r) && (grown ==> t.b == 1 ==> r.Bin? && (r.b == 1 || r.l.Bin?))
      && Insert(t, d) == if grown then GrownRight(t.l, t.d, t.b, r) else (Bin(t.l, t.d, t.b, r), false)
  {
    if d.key < t.d.key {
      if Insert(t.l, d).1 { GrownLeftIsBalanced(Insert(t.l, d).0, t.d, t.b, t.r); }
    } else if d.key > t.d.key {
      if Insert(t.r, d).1 { GrownRightIsBalanced(t.l, t.d, t.b, Insert(t.r, d).0); }
    }
  }

  /** sprout: the new or changed root, whether the tree has grown, and the datum that was replaced. */
  method Sprout(root: Node?, d: Datum, ghost s: Shape, ghost t: Tree)
    returns (r: Node, grown: bool, released: Option<Datum>, ghost s': Shape)
    requires Linked(root, s) && t == Value(s) && Balanced(t)
    modifies Nodes(s)
    ensures Linked(r, s') && Nodes(s) <= Nodes(s') && fresh(Nodes(s') - Nodes(s))
    ensures Value(s') == Insert(t, d).0 && grown == Insert(t, d).1
    ensures released == Search(t, d.key).0
    decreases s, 1
  {
    if root == null {
      r := new Node(d);
      released, grown, s' := None, true, Fork(Nil, r, Nil);
    } else {
      InsertSteps(t, d);
      hide Insert, Balanced;
      if d.key < root.data.key {
        r, grown, released, s' := SproutLeft(root, d, s, t);
      } else if d.key > root.data.key {
        r, grown, released, s' := SproutRight(root, d, s, t);
      } else {
        AllAllocated(root, s);
        released := Some(root.data);
        root.data := d;
        r, grown, s' := root, false, s;
      }
    }
  }

  method SproutLeft(root: Node, d: Datum, ghost s: Shape, ghost t: Tree)
    returns (r: Node, grown: bool, released: Option<Datum>, ghost s': Shape)
    requires Linked(root, s) && s.Fork? && t == Value(s) && Balanced(t) && d.key < t.d.key
    modifies Nodes(s)
    ensures Linked(r, s') && Nodes(s) <= Nodes(s') && fresh(Nodes(s') - Nodes(s))
    ensures Value(s') == Insert(t, d).0 && grown == Insert(t, d).1
    ensures released == Search(t, d.key).0
    decreases s, 0
  {
    hide Nodes, Linked, Value;
    hide Insert, GrownLeft, Balanced;
    ShapeParts(root, s, t);
    InsertSteps(t, d);
    ghost var ls;
    r, grown, released, ls := Sprout(root.left, d, s.l, t.l);
    ghost var t1 := Bin(Insert(t.l, d).0, t.d, t.b, t.r);
    RelinkLeft(root, r, ls, s.r, t1);
    r, s' := root, Fork(ls, root, s.r);
    if grown { r, grown, s' := GrowLeft(root, s', t1); }
  }

  method SproutRight(root: Node, d: Datum, ghost s: Shape, ghost t: Tree)
    returns (r: Node, grown: bool, released: Option<Datum>, ghost s': Shape)
    requires Linked(root, s) && s.Fork? && t == Value(s) && Balanced(t) && d.key > t.d.key
    modifies Nodes(s)
    ensures Linked(r, s') && Nodes(s) <= Nodes(s') && fresh(Nodes(s') - Nodes(s))
    ensures Value(s') == Insert(t, d).0 && grown == Insert(t, d).1
    ensures released == Search(t, d.key).0
    decreases s, 0
  {
    hide Nodes, Linked, Value;
    hide Insert, GrownRight, Balanced;
    ShapeParts(root, s, t);
    InsertSteps(t, d);
    ghost var rs;
    r, grown, released, rs := Sprout(root.right, d, s.r, t.r);
    ghost var t1 := Bin(t.l, t.d, t.b, Insert(t.r, d).0);
    RelinkRight(root, r, s.l, rs, t1);
    r, s' := root, Fork(s.l, root, rs);
    if grown { r, grown, s' := GrowRight(root, s', t1); }
  }

  /** One step of TakeLast. */
  lemma {:induction false} TakeLastSteps(t: Tree)
    requires Balanced(t) && t.Bin?
    ensures t.r.Empty? ==> TakeLast(t) == (t.l, true, t.d)
    ensures t.r.Bin? ==>
      var (r, shrunk, last) := TakeLast(t.r);
      && Balanced(t.r) && (shrunk ==> t.b == -1 ==> t.l.Bin? && (t.l.b <= 0 || t.l.r.Bin?))
      && TakeLast(t) ==
           if shrunk then (ShrunkRight(t.l, t.d, t.b, r).0, ShrunkRight(t.l, t.d, t.b, r).1, last)
           else (Bin(t.l, t.d, t.b, r), false, last)
  {
    if t.r.Bin? && TakeLast(t.r).1 { ShrunkRightIsBalanced(t.l, t.d, t.b, TakeLast(t.r).0); }
  }

  /** del: moves the greatest datum of the tree at p into the node q and unlinks the node it was in. */
  method Del(p: Node, q: Node, ghost s: Shape, ghost t: Tree)
    returns (r: Node?, shrunk: bool, victim: Node, ghost s': Shape)
    requires Linked(p, s) && s.Fork? && q !in Nodes(s) && t == Value(s) && Balanced(t)
    modifies Nodes(s), q`data
    ensures Linked(r, s') && victim in Nodes(s) && Nodes(s') == Nodes(s) - {victim}
    ensures Value(s') == TakeLast(t).0 && shrunk == TakeLast(t).1 && q.data == TakeLast(t).2
    decreases s
  {
    ShapeParts(p, s, t);
    hide Nodes, Linked, Value;
    TakeLastSteps(t);
    hide TakeLast, ShrunkRight, Balanced;
    if p.right != null {
      ghost var rs;
      r, shrunk, victim, rs := Del(p.right, q, s.r, t.r);
      OneLess(Nodes(s.r), p, Nodes(s.l), Nodes(rs), victim);
      ghost var t1 := Bin(t.l, t.d, t.b, TakeLast(t.r).0);
      RelinkRight(p, r, s.l, rs, t1);
      r, s' := p, Fork(s.l, p, rs);
      if shrunk { r, shrunk, s' := ShrinkRight(p, s', t1); }
    } else {
      q.data := p.data;
      victim := p;
      r, shrunk, s' := p.left, true, s.l;
    }
  }

  /** One step of Remove. */
  lemma {:induction false} RemoveSteps(t: Tree, key: int)
    requires Balanced(t) && t.Bin?
    ensures key < t.d.key ==>
      var (l, shrunk, gone) := Remove(t.l, key);
      && Balanced(t.l) && (shrunk ==> t.b == 1 ==> t.r.Bin? && (t.r.b >= 0 || t.r.l.Bin?))
      && Remove(t, key) ==
           if shrunk then (ShrunkLeft(l, t.d, t.b, t.r).0, ShrunkLeft(l, t.d, t.b, t.r).1, gone)
           else (Bin(l, t.d, t.b, t.r), false, gone)
    ensures key > t.d.key ==>
      var (r, shrunk, gone) := Remove(t.r, key);
      && Balanced(t.r) && (shrunk ==> t.b == -1 ==> t.l.Bin? && (t.l.b <= 0 || t.l.r.Bin?))
      && Remove(t, key) ==
           if shrunk then (ShrunkRight(t.l, t.d, t.b, r).0, ShrunkRight(t.l, t.d, t.b, r).1, gone)
           else (Bin(t.l, t.d, t.b, r), false, gone)
    ensures key == t.d.key ==> Remove(t, key) == (RemoveRoot(t).0, RemoveRoot(t).1, Some(t.d))
  {
    if key < t.d.key {
      if Remove(t.l, key).1 { ShrunkLeftIsBalanced(Remove(t.l, key).0, t.d, t.b, t.r); }
    } else if key > t.d.key {
      if Remove(t.r, key).1 { ShrunkRightIsBalanced(t.l, t.d, t.b, Remove(t.r, key).0); }
    }
  }

  lemma {:induction false} RootSteps(t: Tree)
    requires Balanced(t) && t.Bin? && t.l.Bin? && t.r.Bin?
    ensures
      var (l, shrunk, last) := TakeLast(t.l);
      && Balanced(t.l) && (shrunk ==> t.b == 1 ==> t.r.Bin? && (t.r.b >= 0 || t.r.l.Bin?))
      && RemoveRoot(t) == if shrunk then ShrunkLeft(l, last, t.b, t.r) else (Bin(l, last, t.b, t.r), false)
  {
    if TakeLast(t.l).1 { ShrunkLeftIsBalanced(TakeLast(t.l).0, TakeLast(t.l).2, t.b, t.r); }
  }

  /** delete: the new root, whether the tree has shrunk, the datum removed, and the node that is freed. */
  method Delete(root: Node?, key: int, ghost s: Shape, ghost t: Tree)
    returns (r: Node?, shrunk: bool, gone: Option<Datum>, freed: Node?, ghost s': Shape)
    requires Linked(root, s) && t == Value(s) && Balanced(t)
    modifies Nodes(s)
    ensures Linked(r, s') && Nodes(s') == Nodes(s) - {freed}
    ensures (freed != null <==> gone.Some?) && (freed != null ==> freed in Nodes(s))
    ensures Value(s') == Remove(t, key).0 && shrunk == Remove(t, key).1 && gone == Remove(t, key).2
    decreases s, 2
  {
    if root == null {
      r, shrunk, gone, freed, s' := null, false, None, null, s;
    } else {
      hide Remove, Balanced;
      if root.data.key > key {
        r, shrunk, gone, freed, s' := DeleteLeft(root, key, s, t);
      } else if root.data.key < key {
        r, shrunk, gone, freed, s' := DeleteRight(root, key, s, t);
      } else {
        RemoveSteps(t, key);
        gone := Some(root.data);
        r, shrunk, freed, s' := DeleteRoot(root, s, t);
      }
    }
  }

  lemma {:induction false} OneLess(a: set<Node>, p: Node, b: set<Node>, a': set<Node>, f: Node?)
    requires a' == a - {f} && (f == null || f in a) && p !in a && a !! b
    ensures a' + {p} + b == a + {p} + b - {f} && b + {p} + a' == b + {p} + a - {f}
  {}

  method DeleteLeft(root: Node, key: int, ghost s: Shape, ghost t: Tree)
    returns (r: Node?, shrunk: bool, gone: Option<Datum>, freed: Node?, ghost s': Shape)
    requires Linked(root, s) && s.Fork? && t == Value(s) && Balanced(t) && key < t.d.key
    modifies Nodes(s)
    ensures Linked(r, s') && Nodes(s') == Nodes(s) - {freed}
    ensures (freed != null <==> gone.Some?) && (freed != null ==> freed in Nodes(s))
    ensures Value(s') == Remove(t, key).0 && shrunk == Remove(t, key).1 && gone == Remove(t, key).2
    decreases s, 1
  {
    hide Nodes, Linked, Value;
    hide Remove, ShrunkLeft, Balanced;
    ShapeParts(root, s, t);
    RemoveSteps(t, key);
    ghost var ls;
    r, shrunk, gone, freed, ls := Delete(root.left, key, s.l, t.l);
    OneLess(Nodes(s.l), root, Nodes(s.r), Nodes(ls), freed);
    ghost var t1 := Bin(Remove(t.l, key).0, t.d, t.b, t.r);
    RelinkLeft(root, r, ls, s.r, t1);
    r, s' := root, Fork(ls, root, s.r);
    if shrunk { r, shrunk, s' := ShrinkLeft(root, s', t1); }
  }

  method DeleteRight(root: Node, key: int, ghost s: Shape, ghost t: Tree)
    returns (r: Node?, shrunk: bool, gone: Option<Datum>, freed: Node?, ghost s': Shape)
    requires Linked(root, s) && s.Fork? && t == Value(s) && Balanced(t) && key > t.d.key
    modifies Nodes(s)
    ensures Linked(r, s') && Nodes(s') == Nodes(s) - {freed}
    ensures (freed != null <==> gone.Some?) && (freed != null ==> freed in Nodes(s))
    ensures Value(s') == Remove(t, key).0 && shrunk == Remove(t, key).1 && gone == Remove(t, key).2
    decreases s, 1
  {
    hide Nodes, Linked, Value;
    hide Remove, ShrunkRight, Balanced;
    ShapeParts(root, s, t);
    RemoveSteps(t, key);
    ghost var rs;
    r, shrunk, gone, freed, rs := Delete(root.right, key, s.r, t.r);
    OneLess(Nodes(s.r), root, Nodes(s.l), Nodes(rs), freed);
    ghost var t1 := Bin(t.l, t.d, t.b, Remove(t.r, key).0);
    RelinkRight(root, r, s.l, rs, t1);
    r, s' := root, Fork(s.l, root, rs);
    if shrunk { r, shrunk, s' := ShrinkRight(root, s', t1); }
  }

  /** The node that holds the key: it is unlinked, or takes over the greatest datum on its left. */
  method DeleteRoot(root: Node, ghost s: Shape, ghost t: Tree)
    returns (r: Node?, shrunk: bool, freed: Node, ghost s': Shape)
    requires Linked(root, s) && s.Fork? && t == Value(s) && Balanced(t)
    modifies Nodes(s)
    ensures Linked(r, s') && Nodes(s') == Nodes(s) - {freed} && freed in Nodes(s)
    ensures Value(s') == RemoveRoot(t).0 && shrunk == RemoveRoot(t).1
    decreases s, 0
  {
    ShapeParts(root, s, t);
    hide Nodes, Linked, Value;
    if root.right == null {
      r, shrunk, freed, s' := root.left, true, root, s.l;
    } else if root.left == null {
      r, shrunk, freed, s' := root.right, true, root, s.r;
    } else {
      RootSteps(t);
      hide RemoveRoot, ShrunkLeft, Balanced, TakeLast;
      ghost var ls;
      r, shrunk, freed, ls := Del(root.left, root, s.l, t.l);
      OneLess(Nodes(s.l), root, Nodes(s.r), Nodes(ls), freed);
      ghost var t1 := Bin(TakeLast(t.l).0, TakeLast(t.l).2, t.b, t.r);
      RelinkLeft(root, r, ls, s.r, t1);
      r, s' := root, Fork(ls, root, s.r);
      if shrunk { r, shrunk, s' := ShrinkLeft(root, s', t1); }
    }
  }

  // ---------- Trees ----------

  /** A tree variable of the caller: tree_init, tree_add, tree_delete and tree_srch. */
  class Avl {
    var root: Node?
    ghost var shape: Shape

    ghost predicate Valid()
      reads this, Nodes(shape)
    {
      Linked(root, shape) && Balanced(Value(shape)) && Ordered(Value(shape))
    }

    ghost function Contents(): set<Datum>
      reads this, Nodes(shape)
    {
      Items(Value(shape))
    }

    constructor ()
      ensures Valid() && Contents() == {}
    {
      root, shape := null, Nil;
    }

    method Add(d: Datum) returns (released: Option<Datum>)
      requires Valid()
      modifies this, Nodes(shape)
      ensures Valid() && Contents() == Without(old(Contents()), d.key) + {d}
      ensures Found(old(Contents()), d.key, released)
      ensures old(Nodes(shape)) <= Nodes(shape) && fresh(Nodes(shape) - old(Nodes(shape)))
    {
      ghost var t := Value(shape);
      hide Linked, Value, Balanced, Ordered, Items, Insert, Search, Found, Nodes;
      InsertUpdates(t, d);
      SearchFinds(t, d.key);
      var grown;
      root, grown, released, shape := Sprout(root, d, shape, t);
    }

    method Discard(key: int) returns (gone: Option<Datum>)
      requires Valid()
      modifies this, Nodes(shape)
      ensures Valid() && Contents() == Without(old(Contents()), key)
      ensures Found(old(Contents()), key, gone)
      ensures Nodes(shape) <= old(Nodes(shape))
    {
      ghost var t := Value(shape);
      hide Linked, Value, Balanced, Ordered, Items, Remove, Found, Nodes;
      RemoveRemoves(t, key);
      var shrunk, freed;
      root, shrunk, gone, freed, shape := Delete(root, key, shape, t);
    }

    /** A search among n data makes only so many comparisons c that Fib(c + 2) <= n + 1. */
    method Find(key: int) returns (found: Option<Datum>, ghost comparisons: nat)
      requires Valid()
      ensures Found(Contents(), key, found) && Fib(comparisons + 2) <= |Contents()| + 1
    {
      AllAllocated(root, shape);
      hide Linked, Value, Balanced, Ordered, Items, Search, Found, Nodes, Fib;
      SearchFinds(Value(shape), key);
      SearchIsFast(Value(shape), key);
      found, comparisons := FindNode(root, key, shape);
    }
  }
}
