/** The chain of one slot of the call_out wheel (src/call_out.c): each call stores how many visits of
    its slot it waits after the call before it. */
module CallOutList {

  /** Whom to call: a function by name in an object, or a function pointer of an owner. */
  datatype Who = Who(handle: int, named: bool, owner: nat, fun: nat)

  datatype Call = Call(delta: int, who: Who)

  /** A call with the number of visits it waits in all. */
  datatype Item = Item(total: int, who: Who)

  function Totals(list: seq<Call>, acc: int): (items: seq<Item>)
    ensures |items| == |list| && forall i :: 0 <= i < |list| ==> items[i].who == list[i].who
  {
    if list == [] then []
    else [Item(acc + list[0].delta, list[0].who)] + Totals(list[1..], acc + list[0].delta)
  }

  /** The sum of the first k deltas. */
  function Sum(list: seq<Call>, k: nat): int
    requires k <= |list|
    decreases k
  {
    if k == 0 then 0 else list[0].delta + Sum(list[1..], k - 1)
  }

  lemma {:induction false} SumNext(list: seq<Call>, k: nat)
    requires k < |list|
    ensures Sum(list, k + 1) == Sum(list, k) + list[k].delta
    decreases k
  {
    if k > 0 { SumNext(list[1..], k - 1); }
  }

  lemma {:induction false} TotalIsSum(list: seq<Call>, acc: int, k: nat)
    requires k < |list|
    ensures Totals(list, acc)[k].total == acc + Sum(list, k + 1)
    decreases k
  {
    if k > 0 { TotalIsSum(list[1..], acc + list[0].delta, k - 1); }
  }

  // ---------- Inserting ----------

  /** The new call goes before the first one that waits at least as long. */
  function Inserted(list: seq<Call>, delay: int, who: Who): seq<Call> {
    if list == [] then [Call(delay, who)]
    else if list[0].delta >= delay then [Call(delay, who), Call(list[0].delta - delay, list[0].who)] + list[1..]
    else [list[0]] + Inserted(list[1..], delay - list[0].delta, who)
  }

  function Placed(items: seq<Item>, x: Item): seq<Item> {
    if items == [] || items[0].total >= x.total then [x] + items
    else [items[0]] + Placed(items[1..], x)
  }

  /** Inserting changes no other call's total. */
  lemma {:induction false} InsertedTotals(list: seq<Call>, delay: int, who: Who, acc: int)
    ensures Totals(Inserted(list, delay, who), acc) == Placed(Totals(list, acc), Item(acc + delay, who))
    decreases |list|
  {
    if list == [] {
    } else if list[0].delta >= delay {
      var next := Call(list[0].delta - delay, list[0].who);
      assert Inserted(list, delay, who) == [Call(delay, who)] + ([next] + list[1..]);
      TotalsCons(Call(delay, who), [next] + list[1..], acc);
      TotalsCons(next, list[1..], acc + delay);
    } else {
      InsertedTotals(list[1..], delay - list[0].delta, who, acc + list[0].delta);
      TotalsCons(list[0], Inserted(list[1..], delay - list[0].delta, who), acc);
    }
  }

  /** Where Placed puts x. */
  function Position(items: seq<Item>, x: Item): (p: nat)
    ensures p <= |items|
  {
    if items == [] || items[0].total >= x.total then 0 else 1 + Position(items[1..], x)
  }

  lemma {:induction false} PlacedAt(items: seq<Item>, x: Item)
    ensures
      var p := Position(items, x);
      && Placed(items, x) == items[..p] + [x] + items[p..]
      && (p < |items| ==> items[p].total >= x.total) && forall i :: 0 <= i < p ==> items[i].total < x.total
    decreases |items|
  {
    if items == [] || items[0].total >= x.total {
      assert items[..0] + [x] + items[0..] == [x] + items;
    } else {
      PlacedAt(items[1..], x);
      var q := Position(items[1..], x);
      assert items[..q + 1] == [items[0]] + items[1..][..q] && items[q + 1..] == items[1..][q..];
      assert forall i :: 0 < i < q + 1 ==> items[i] == items[1..][i - 1];
    }
  }

  lemma {:induction false} TotalsCons(first: Call, rest: seq<Call>, acc: int)
    ensures Totals([first] + rest, acc) == [Item(acc + first.delta, first.who)] + Totals(rest, acc + first.delta)
  {
    assert ([first] + rest)[1..] == rest;
  }

  // ---------- Removing ----------

  /** The next call takes over the visits of the one that is removed. */
  function Unlinked(list: seq<Call>, k: nat): seq<Call>
    requires k < |list|
    decreases k
  {
    if k > 0 then [list[0]] + Unlinked(list[1..], k - 1)
    else if |list| == 1 then []
    else [Call(list[1].delta + list[0].delta, list[1].who)] + list[2..]
  }

  lemma {:induction false} UnlinkedIs(list: seq<Call>, k: nat)
    requires k < |list|
    ensures
      Unlinked(list, k) ==
        if k + 1 == |list| then list[..k]
        else list[..k] + [Call(list[k + 1].delta + list[k].delta, list[k + 1].who)] + list[k + 2..]
    decreases k
  {
    if k > 0 {
      UnlinkedIs(list[1..], k - 1);
      assert list[..k] == [list[0]] + list[1..][..k - 1];
    }
  }

  lemma {:induction false} UnlinkedCounts(list: seq<Call>, k: nat)
    requires k < |list| && Counting(list)
    ensures Counting(Unlinked(list, k))
    decreases k
  {
    if k > 0 { UnlinkedCounts(list[1..], k - 1); }
  }

  lemma {:induction false} DropBehind(first: Item, rest: seq<Item>, k: nat)
    requires 0 < k <= |rest|
    ensures [first] + (rest[..k - 1] + rest[k..]) == ([first] + rest)[..k] + ([first] + rest)[k + 1..]
  {}

  /** Removing changes no other call's total. */
  lemma {:induction false} UnlinkedTotals(list: seq<Call>, k: nat, acc: int)
    requires k < |list|
    ensures Totals(Unlinked(list, k), acc) == Totals(list, acc)[..k] + Totals(list, acc)[k + 1..]
    decreases k
  {
    var first := Item(acc + list[0].delta, list[0].who);
    var rest := Totals(list[1..], first.total);
    assert Totals(list, acc) == [first] + rest;
    if k > 0 {
      UnlinkedTotals(list[1..], k - 1, first.total);
      TotalsCons(list[0], Unlinked(list[1..], k - 1), acc);
      DropBehind(first, rest, k);
    } else if |list| > 1 {
      TotalsCons(Call(list[1].delta + list[0].delta, list[1].who), list[2..], acc);
      assert list[1..][1..] == list[2..];
    }
  }

  // ---------- A visit of the slot ----------

  /** Counting down the first call counts down all of them. */
  lemma {:induction false} VisitedTotals(list: seq<Call>, acc: int)
    requires list != []
    ensures Totals(list[0 := list[0].(delta := list[0].delta - 1)], acc + 1) == Totals(list, acc)
  {}

  lemma {:induction false} PoppedTotals(list: seq<Call>, acc: int)
    requires list != [] && list[0].delta == 0
    ensures Totals(list[1..], acc) == Totals(list, acc)[1..] && Totals(list, acc)[0].total == acc
  {}

  lemma {:induction false} TotalsShift(list: seq<Call>, acc: int, by_: int)
    ensures forall i :: 0 <= i < |list| ==> Totals(list, acc + by_)[i].total == Totals(list, acc)[i].total + by_
    decreases |list|
  {
    if list != [] { TotalsShift(list[1..], acc + list[0].delta, by_); }
  }

  /** No call waits a negative number of visits after another. */
  predicate Counting(list: seq<Call>) {
    forall i :: 0 <= i < |list| ==> list[i].delta >= 0
  }

  lemma {:induction false} InsertedCounts(list: seq<Call>, delay: int, who: Who)
    requires Counting(list) && delay >= 0
    ensures Counting(Inserted(list, delay, who))
    decreases |list|
  {
    if list != [] && list[0].delta < delay {
      InsertedCounts(list[1..], delay - list[0].delta, who);
    }
  }

  lemma {:induction false} FirstIsLeast(list: seq<Call>, acc: int)
    requires Counting(list) && list != []
    ensures forall i :: 0 <= i < |list| ==> Totals(list, acc)[i].total >= acc + list[0].delta
    decreases |list|
  {
    if |list| > 1 { FirstIsLeast(list[1..], acc + list[0].delta); }
  }
}
