/** The call_out wheel of src/call_out.c: CALLOUT_CYCLE_SIZE slots, each a chain of delta-coded calls,
    of which one is visited at every tick. */
module CallOut {
  import opened Basics
  import opened CallOutList

  // ---------- Time and slots ----------

  /** The last time up to `clock` at which slot t was visited. */
  function LastVisit(t: int, clock: int, c: int): int
    requires c > 0
  {
    clock - (clock - t) % c
  }

  /** When a call fires that waits for `total` more visits of slot t. */
  function DueTime(t: int, total: int, clock: int, c: int): int
    requires c > 0
  {
    LastVisit(t, clock, c) + c * total
  }

  /** The slot and the number of visits new_call_out computes stand for the time it means. */
  lemma {:induction false} DelayIsRight(due: int, time: int, c: int)
    requires c > 0 && due > time
    ensures DueTime(due % c, 1 + (due - time - 1) / c, time, c) == due
  {
    var w, r, t := (due - time - 1) / c, (due - time - 1) % c, due % c;
    assert due - time - 1 == c * w + r;
    assert due == c * (due / c) + t;
    assert time - t == c * (due / c - w - 1) + (c - 1 - r) by {
      assert c * (due / c - w - 1) == c * (due / c) - c * w - c;
    }
    DivisionIsUnique(time - t, c, due / c - w - 1, c - 1 - r);
    assert c * (1 + w) == c + c * w;
  }

  /** At each tick one slot's last visit moves on by a cycle, and no other's moves. */
  lemma {:induction false} NextVisit(t: int, clock: int, c: int)
    requires c > 0 && 0 <= t < c
    ensures LastVisit(t, clock + 1, c) == if (clock + 1) % c == t then clock + 1 else LastVisit(t, clock, c)
    ensures (clock + 1) % c == t ==> LastVisit(t, clock, c) == clock + 1 - c
  {
    var x, q, r := clock - t, (clock - t) / c, (clock - t) % c;
    assert x == c * q + r;
    if r == c - 1 {
      assert c * (q + 1) == c * q + c;
      DivisionIsUnique(x + 1, c, q + 1, 0);
      DivisionIsUnique(clock + 1, c, q + 1, t);
    } else {
      DivisionIsUnique(x + 1, c, q, r + 1);
      if (clock + 1) % c == t {
        var p := (clock + 1) / c;
        assert clock + 1 == c * p + t;
        DivisionIsUnique(x + 1, c, p, 0);
      }
    }
  }

  lemma {:induction false} VisitedBefore(t: int, clock: int, c: int)
    requires c > 0
    ensures clock - c < LastVisit(t, clock, c) <= clock
  {}

  /** A handle alone tells the slot. */
  lemma {:induction false} HandleTellsSlot(t: int, c: int, unique: int)
    requires c > 0 && 0 <= t < c
    ensures (t + c * unique) % c == t && (t + c * unique) / c == unique
  {
    DivisionIsUnique(t + c * unique, c, unique, t);
  }

  /** time_left */
  function TimeLeft(slot: int, delay: int, callOutTime: int, currentTime: int, c: int): int
    requires c > 0
  {
    var current := callOutTime % c;
    if slot > current then (delay - 1) * c + (slot - current) + callOutTime - currentTime
    else delay * c + (slot - current) + callOutTime - currentTime
  }

  /** time_left is the time up to the call, as long as the wheel stands still. */
  lemma {:induction false} TimeLeftIsRight(slot: int, delay: int, time: int, now: int, c: int)
    requires c > 0 && 0 <= slot < c
    ensures TimeLeft(slot, delay, time, now, c) == DueTime(slot, delay, time, c) - now
  {
    var current, q := time % c, time / c;
    assert time == c * q + current;
    assert (delay - 1) * c == c * delay - c && delay * c == c * delay;
    if slot > current {
      assert c * (q - 1) == c * q - c;
      DivisionIsUnique(time - slot, c, q - 1, current - slot + c);
    } else {
      DivisionIsUnique(time - slot, c, q, current - slot);
    }
  }

  /** While a slot is being drained its own calls are reported a whole cycle too early. */
  lemma {:induction false} TimeLeftWhileVisiting(slot: int, delay: int, time: int, now: int, c: int)
    requires c > 0 && 0 <= slot < c
    ensures
      TimeLeft(slot, delay, time, now, c) ==
        DueTime(slot, delay, time + 1, c) - now - if (time + 1) % c == slot then c else 0
  {
    TimeLeftIsRight(slot, delay, time, now, c);
    NextVisit(slot, time, c);
  }

  // ---------- One slot ----------

  /** Earlier calls first; among calls of the same time the one registered last. */
  predicate Before(a: Item, b: Item) {
    a.total < b.total || (a.total == b.total && a.who.handle > b.who.handle)
  }

  /** `due` promises for every call of the slot the time at which it will fire. */
  predicate ItemsOk(items: seq<Item>, t: int, clock: int, due: map<int, int>, unique: int, c: int)
    requires c > 0
  {
    && (forall i :: 0 <= i < |items| ==> ItemOk(items[i], t, clock, due, unique, c))
    && (forall i, j :: 0 <= i < j < |items| ==> Before(items[i], items[j]) && items[i].who.handle != items[j].who.handle)
  }

  predicate ItemOk(x: Item, t: int, clock: int, due: map<int, int>, unique: int, c: int)
    requires c > 0
  {
    var h := x.who.handle;
    h in due && due[h] == DueTime(t, x.total, clock, c) && h % c == t && 0 < h <= t + c * unique
  }

  /** Outside of its visit the first call of a slot waits for at least one visit more. */
  predicate SlotOk(list: seq<Call>, t: int, clock: int, visited: bool, due: map<int, int>, unique: int, c: int)
    requires c > 0
  {
    && Counting(list) && (list != [] && !visited ==> list[0].delta >= 1)
    && ItemsOk(Totals(list, 0), t, clock, due, unique, c)
  }

  predicate Has(list: seq<Call>, h: int) {
    exists i :: 0 <= i < |list| && list[i].who.handle == h
  }

  predicate HasItem(items: seq<Item>, h: int) {
    exists i :: 0 <= i < |items| && items[i].who.handle == h
  }

  lemma {:induction false} HasTotals(list: seq<Call>, acc: int, h: int)
    ensures Has(list, h) <==> HasItem(Totals(list, acc), h)
  {
    var items := Totals(list, acc);
    hide Totals;
    if i: nat :| i < |list| && list[i].who.handle == h { assert items[i].who.handle == h; }
    if i: nat :| i < |items| && items[i].who.handle == h { assert list[i].who.handle == h; }
  }

  /** More promises and a later registration number do no harm. */
  lemma {:induction false} SlotKeepsWith(list: seq<Call>, t: int, clock: int, visited: bool, due: map<int, int>, unique: int, c: int,
                      due': map<int, int>, unique': int)
    requires c > 0 && SlotOk(list, t, clock, visited, due, unique, c) && unique <= unique'
    requires forall h :: h in due ==> h in due' && due'[h] == due[h]
    ensures SlotOk(list, t, clock, visited, due', unique', c)
  {
    hide Totals, DueTime;
    assert c * unique <= c * unique' by { MulGrows(c, unique, unique'); }
  }

  lemma {:induction false} MulGrows(c: int, a: int, b: int)
    requires c > 0 && a <= b
    ensures c * a <= c * b
  {}

  /** Registering a call keeps the slot in order. */
  lemma {:induction false} SlotKeepsInserted(list: seq<Call>, t: int, clock: int, visited: bool, due: map<int, int>, unique: int, c: int,
                          wait: int, who: Who)
    requires c > 0 && SlotOk(list, t, clock, visited, due, unique, c) && wait >= 1
    requires who.handle == t + c * (unique + 1) && 0 <= t < c && unique >= 0 && who.handle !in due
    ensures
      SlotOk(Inserted(list, wait, who), t, clock, visited, due[who.handle := DueTime(t, wait, clock, c)], unique + 1, c)
    ensures forall h :: Has(Inserted(list, wait, who), h) <==> h == who.handle || Has(list, h)
  {
    hide Totals, DueTime, ItemOk, Placed, Position, Inserted, Has, HasItem;
    var due' := due[who.handle := DueTime(t, wait, clock, c)];
    var items, x := Totals(list, 0), Item(wait, who);
    InsertedHead(list, wait, who);
    InsertedCounts(list, wait, who);
    InsertedTotals(list, wait, who, 0);
    SlotKeepsWith(list, t, clock, visited, due, unique, c, due', unique + 1);
    NewestHandle(items, t, clock, due, unique, c);
    PlacedAt(items, x);
    NewItemOk(x, t, clock, due', unique, c);
    ItemsKeepPlaced(items, x, Position(items, x), t, clock, due', unique + 1, c);
    forall h ensures Has(Inserted(list, wait, who), h) <==> h == who.handle || Has(list, h) {
      HasTotals(list, 0, h);
      HasTotals(Inserted(list, wait, who), 0, h);
      HasPlaced(items, x, Position(items, x), h);
    }
  }

  lemma {:induction false} InsertedHead(list: seq<Call>, wait: int, who: Who)
    requires wait >= 1
    ensures Inserted(list, wait, who) != []
    ensures list == [] || list[0].delta >= 1 ==> Inserted(list, wait, who)[0].delta >= 1
  {}

  lemma {:induction false} NewItemOk(x: Item, t: int, clock: int, due: map<int, int>, unique: int, c: int)
    requires c > 0 && 0 <= t < c && unique >= 0 && x.who.handle == t + c * (unique + 1)
    requires x.who.handle in due && due[x.who.handle] == DueTime(t, x.total, clock, c)
    ensures ItemOk(x, t, clock, due, unique + 1, c)
  {
    hide DueTime;
    HandleTellsSlot(t, c, unique + 1);
    MulGrows(c, 1, unique + 1);
  }

  lemma {:induction false} NewestHandle(items: seq<Item>, t: int, clock: int, due: map<int, int>, unique: int, c: int)
    requires c > 0 && ItemsOk(items, t, clock, due, unique, c)
    ensures forall i :: 0 <= i < |items| ==> items[i].who.handle < t + c * (unique + 1)
  {
    assert c * (unique + 1) == c * unique + c;
    forall i | 0 <= i < |items| ensures items[i].who.handle < t + c * (unique + 1) {
      assert ItemOk(items[i], t, clock, due, unique, c);
    }
  }

  lemma {:induction false} ItemsKeepPlaced(items: seq<Item>, x: Item, p: nat, t: int, clock: int, due: map<int, int>, unique: int, c: int)
    requires c > 0 && ItemsOk(items, t, clock, due, unique, c) && p <= |items|
    requires ItemOk(x, t, clock, due, unique, c) && forall i :: 0 <= i < |items| ==> items[i].who.handle < x.who.handle
    requires p < |items| ==> items[p].total >= x.total
    requires forall i :: 0 <= i < p ==> items[i].total < x.total
    ensures ItemsOk(items[..p] + [x] + items[p..], t, clock, due, unique, c)
  {
    hide ItemOk;
    var r := items[..p] + [x] + items[p..];
    assert forall i :: p <= i < |items| ==> items[i].total >= x.total;
    forall i, j | 0 <= i < j < |r| ensures Before(r[i], r[j]) && r[i].who.handle != r[j].who.handle {
      var a, b := if i < p then i else i - 1, if j < p then j else j - 1;
      assert i != p ==> r[i] == items[a];
      assert j != p ==> r[j] == items[b];
    }
  }

  lemma {:induction false} HasPlaced(items: seq<Item>, x: Item, p: nat, h: int)
    requires p <= |items|
    ensures HasItem(items[..p] + [x] + items[p..], h) <==> h == x.who.handle || HasItem(items, h)
  {
    var r := items[..p] + [x] + items[p..];
    assert r[p] == x;
    if i: nat :| i < |items| && items[i].who.handle == h {
      assert r[if i < p then i else i + 1] == items[i];
    }
    if i: nat :| i < |r| && r[i].who.handle == h {
      assert i != p ==> r[i] == items[if i < p then i else i - 1];
    }
  }

  /** Removing a call keeps the slot in order. */
  lemma {:induction false} SlotKeepsUnlinked(list: seq<Call>, t: int, clock: int, visited: bool, due: map<int, int>, unique: int, c: int, k: nat)
    requires c > 0 && SlotOk(list, t, clock, visited, due, unique, c) && k < |list|
    ensures SlotOk(Unlinked(list, k), t, clock, visited, due, unique, c)
    ensures forall h :: Has(Unlinked(list, k), h) <==> h != list[k].who.handle && Has(list, h)
  {
    var items, list' := Totals(list, 0), Unlinked(list, k);
    UnlinkedCounts(list, k);
    UnlinkedTotals(list, k, 0);
    hide Totals, DueTime, ItemOk;
    ItemsKeepDropped(items, k, t, clock, due, unique, c);
    forall h ensures Has(list', h) <==> h != list[k].who.handle && Has(list, h) {
      HasTotals(list, 0, h);
      HasTotals(list', 0, h);
    }
  }

  lemma {:induction false} ItemsKeepDropped(items: seq<Item>, k: nat, t: int, clock: int, due: map<int, int>, unique: int, c: int)
    requires c > 0 && ItemsOk(items, t, clock, due, unique, c) && k < |items|
    ensures ItemsOk(items[..k] + items[k + 1..], t, clock, due, unique, c)
    ensures forall h :: HasItem(items[..k] + items[k + 1..], h) <==> h != items[k].who.handle && HasItem(items, h)
  {
    hide ItemOk;
    var r := items[..k] + items[k + 1..];
    assert forall i :: 0 <= i < |r| ==> r[i] == items[if i < k then i else i + 1];
    forall h ensures HasItem(r, h) <==> h != items[k].who.handle && HasItem(items, h) {
      if i: nat :| i < |items| && items[i].who.handle == h {
        if i != k { assert r[if i < k then i else i - 1] == items[i]; }
      }
    }
  }

  lemma {:induction false} TickDue(t: int, total: int, clock: int, c: int)
    requires c > 0 && 0 <= t < c
    ensures DueTime(t, total, clock + 1, c) == DueTime(t, if (clock + 1) % c == t then total + 1 else total, clock, c)
  {
    NextVisit(t, clock, c);
    assert c * (total + 1) == c * total + c;
  }

  /** A tick leaves a slot alone that it does not visit, or that is empty. */
  lemma {:induction false} SlotKeepsTick(list: seq<Call>, t: int, clock: int, due: map<int, int>, unique: int, c: int)
    requires c > 0 && 0 <= t < c && SlotOk(list, t, clock, false, due, unique, c)
    requires (clock + 1) % c != t || list == []
    ensures SlotOk(list, t, clock + 1, false, due, unique, c)
  {
    var items := Totals(list, 0);
    hide Totals, DueTime;
    forall i | 0 <= i < |items| ensures ItemOk(items[i], t, clock + 1, due, unique, c) {
      TickDue(t, items[i].total, clock, c);
      assert ItemOk(items[i], t, clock, due, unique, c);
    }
  }

  /** The slot that is visited is counted down. */
  lemma {:induction false} SlotKeepsVisit(list: seq<Call>, t: int, clock: int, due: map<int, int>, unique: int, c: int)
    requires c > 0 && 0 <= t < c && SlotOk(list, t, clock, false, due, unique, c)
    requires (clock + 1) % c == t && list != []
    ensures SlotOk(list[0 := list[0].(delta := list[0].delta - 1)], t, clock + 1, list[0].delta == 1, due, unique, c)
  {
    var list' := list[0 := list[0].(delta := list[0].delta - 1)];
    var items, items' := Totals(list, 0), Totals(list', 0);
    VisitedTotals(list, -1);
    TotalsShift(list, 0, -1);
    hide Totals, DueTime;
    forall i | 0 <= i < |items'| ensures ItemOk(items'[i], t, clock + 1, due, unique, c) {
      TickDue(t, items'[i].total, clock, c);
      assert ItemOk(items[i], t, clock, due, unique, c);
    }
    forall i, j | 0 <= i < j < |items'| ensures Before(items'[i], items'[j]) && items'[i].who.handle != items'[j].who.handle {
      assert Before(items[i], items[j]);
    }
  }

  lemma {:induction false} VisitHas(list: seq<Call>, d: int)
    requires list != []
    ensures forall h :: Has(list[0 := list[0].(delta := d)], h) <==> Has(list, h)
  {
    var list' := list[0 := list[0].(delta := d)];
    assert forall i :: 0 <= i < |list| ==> list'[i].who == list[i].who;
  }

  /** The first call of the visited slot fires now; what is left keeps its order behind it. */
  lemma {:induction false} SlotKeepsPopped(list: seq<Call>, t: int, clock: int, due: map<int, int>, unique: int, c: int)
    requires c > 0 && 0 <= t < c && SlotOk(list, t, clock, true, due, unique, c)
    requires clock % c == t && list != [] && list[0].delta == 0
    ensures list[0].who.handle in due && due[list[0].who.handle] == clock
    ensures SlotOk(list[1..], t, clock, true, due, unique, c)
    ensures forall h :: Has(list[1..], h) <==> h != list[0].who.handle && Has(list, h)
    ensures forall i :: 0 <= i < |list[1..]| && Totals(list[1..], 0)[i].total == 0 ==>
      Totals(list[1..], 0)[i].who.handle < list[0].who.handle
  {
    var items := Totals(list, 0);
    PoppedTotals(list, 0);
    FiresNow(items[0], t, clock, due, unique, c);
    hide Totals, DueTime, ItemOk;
    assert items[..0] + items[0 + 1..] == items[1..];
    ItemsKeepDropped(items, 0, t, clock, due, unique, c);
    forall h ensures Has(list[1..], h) <==> h != list[0].who.handle && Has(list, h) {
      HasTotals(list, 0, h);
      HasTotals(list[1..], 0, h);
    }
    hide Has, HasItem;
    RestIsOlder(items, t, clock, due, unique, c);
  }

  lemma {:induction false} FiresNow(x: Item, t: int, clock: int, due: map<int, int>, unique: int, c: int)
    requires c > 0 && 0 <= t < c && clock % c == t && ItemOk(x, t, clock, due, unique, c) && x.total == 0
    ensures x.who.handle in due && due[x.who.handle] == clock
  {
    NextVisit(t, clock - 1, c);
  }

  lemma {:induction false} RestIsOlder(items: seq<Item>, t: int, clock: int, due: map<int, int>, unique: int, c: int)
    requires c > 0 && ItemsOk(items, t, clock, due, unique, c) && items != [] && items[0].total == 0
    ensures forall i :: 0 <= i < |items[1..]| && items[1..][i].total == 0 ==> items[1..][i].who.handle < items[0].who.handle
  {
    hide ItemOk;
    forall i | 0 <= i < |items[1..]| && items[1..][i].total == 0 ensures items[1..][i].who.handle < items[0].who.handle {
      assert Before(items[0], items[i + 1]);
    }
  }

  /** What still waits in a slot that is not being visited fires later than now. */
  lemma {:induction false} WaitsLonger(list: seq<Call>, t: int, clock: int, due: map<int, int>, unique: int, c: int, i: nat)
    requires c > 0 && SlotOk(list, t, clock, false, due, unique, c) && i < |list|
    ensures list[i].who.handle in due && due[list[i].who.handle] > clock
  {
    var items := Totals(list, 0);
    FirstIsLeast(list, 0);
    assert ItemOk(items[i], t, clock, due, unique, c);
    VisitedBefore(t, clock, c);
    AtLeastOnce(c, items[i].total);
  }

  // ---------- The wheel ----------

  /** A call that has been made. */
  datatype Run = Run(handle: int, time: int)

  predicate Ran(ran: seq<Run>, h: int) {
    exists i :: 0 <= i < |ran| && ran[i].handle == h
  }

  /** Calls are made in the order of their times, and those of one time last registered first. */
  predicate LogOk(ran: seq<Run>, due: map<int, int>, clock: int) {
    && (forall i :: 0 <= i < |ran| ==> ran[i].handle in due && due[ran[i].handle] == ran[i].time <= clock)
    && (forall i, j :: 0 <= i < j < |ran| ==>
          ran[i].time < ran[j].time || (ran[i].time == ran[j].time && ran[i].handle > ran[j].handle))
  }

  /** What is left to be called now was registered before everything that has been called now. */
  predicate DrainOk(items: seq<Item>, ran: seq<Run>, clock: int) {
    forall i, j :: 0 <= i < |items| && items[i].total == 0 && 0 <= j < |ran| && ran[j].time == clock ==>
      items[i].who.handle < ran[j].handle
  }

  predicate AllSlotsOk(slots: seq<seq<Call>>, clock: int, visited: int, due: map<int, int>, unique: int, c: int) {
    c > 0 && |slots| == c
    && forall t :: 0 <= t < c ==> SlotOk(slots[t], t, clock, visited == t, due, unique, c)
  }

  predicate PendingIn(slots: seq<seq<Call>>, h: int)
    requires slots != []
  {
    Has(slots[h % |slots|], h)
  }

  /** Every call is pending, removed or done, and only one of these. */
  predicate Accounted(slots: seq<seq<Call>>, due: map<int, int>, removed: set<int>, ran: seq<Run>)
    requires slots != []
  {
    && (forall h :: h in due ==> PendingIn(slots, h) || h in removed || Ran(ran, h))
    && (forall h :: h in removed ==> h in due && !PendingIn(slots, h) && !Ran(ran, h))
    && (forall i :: 0 <= i < |ran| ==> !PendingIn(slots, ran[i].handle))
  }

  /** No handle is larger than the registrations so far allow. */
  predicate HandlesOk(due: map<int, int>, unique: int, c: int)
    requires c > 0
  {
    forall h :: h in due ==> 0 < h <= h % c + c * unique
  }

  lemma {:induction false} OneSlotChanges(slots: seq<seq<Call>>, t: int, list: seq<Call>, clock: int, visited: int,
                       due: map<int, int>, due': map<int, int>, unique: int, unique': int, c: int)
    requires AllSlotsOk(slots, clock, visited, due, unique, c) && 0 <= t < c && unique <= unique'
    requires forall h :: h in due ==> h in due' && due'[h] == due[h]
    requires SlotOk(list, t, clock, visited == t, due', unique', c)
    ensures AllSlotsOk(slots[t := list], clock, visited, due', unique', c)
  {
    hide SlotOk;
    var slots' := slots[t := list];
    forall u | 0 <= u < c ensures SlotOk(slots'[u], u, clock, visited == u, due', unique', c) {
      if u != t { SlotKeepsWith(slots[u], u, clock, visited == u, due, unique, c, due', unique'); }
    }
  }

  lemma {:induction false} AccountedNew(slots: seq<seq<Call>>, due: map<int, int>, removed: set<int>, ran: seq<Run>, t: int, list: seq<Call>, h: int, at: int)
    requires slots != [] && Accounted(slots, due, removed, ran) && 0 <= t < |slots| && h !in due && h % |slots| == t
    requires forall g :: Has(list, g) <==> g == h || Has(slots[t], g)
    requires forall i :: 0 <= i < |ran| ==> ran[i].handle in due
    ensures Accounted(slots[t := list], due[h := at], removed, ran)
  {
    hide Has;
    forall g ensures PendingIn(slots[t := list], g) <==> g == h || PendingIn(slots, g) {
      if g % |slots| == t { assert slots[t := list][g % |slots|] == list; }
    }
  }

  lemma {:induction false} AccountedRemoved(slots: seq<seq<Call>>, due: map<int, int>, removed: set<int>, ran: seq<Run>, t: int, list: seq<Call>, h: int)
    requires slots != [] && Accounted(slots, due, removed, ran) && 0 <= t < |slots| && h in due && h % |slots| == t
    requires Has(slots[t], h) && forall g :: Has(list, g) <==> g != h && Has(slots[t], g)
    ensures Accounted(slots[t := list], due, removed + {h}, ran)
  {
    hide Has;
    assert forall g :: PendingIn(slots[t := list], g) <==> g != h && PendingIn(slots, g);
  }

  lemma {:induction false} AccountedRun(slots: seq<seq<Call>>, due: map<int, int>, removed: set<int>, ran: seq<Run>, t: int, list: seq<Call>, r: Run)
    requires slots != [] && Accounted(slots, due, removed, ran) && 0 <= t < |slots| && r.handle in due && r.handle % |slots| == t
    requires Has(slots[t], r.handle) && forall g :: Has(list, g) <==> g != r.handle && Has(slots[t], g)
    ensures Accounted(slots[t := list], due, removed, ran + [r])
  {
    hide Has;
    assert forall g :: PendingIn(slots[t := list], g) <==> g != r.handle && PendingIn(slots, g);
    var ran' := ran + [r];
    assert forall i :: 0 <= i < |ran| ==> ran'[i] == ran[i];
    forall h | Ran(ran', h) ensures h == r.handle || Ran(ran, h) {
      var i: nat :| i < |ran'| && ran'[i].handle == h;
    }
    forall h | Ran(ran, h) || h == r.handle ensures Ran(ran', h) {
      if h == r.handle { assert ran'[|ran|].handle == h; } else { var i: nat :| i < |ran| && ran[i].handle == h; assert ran'[i].handle == h; }
    }
  }

  lemma {:induction false} HandlesGrow(due: map<int, int>, h: int, at: int, t: int, unique: int, c: int)
    requires c > 0 && 0 <= t < c && unique >= 0 && HandlesOk(due, unique, c) && h == t + c * (unique + 1)
    ensures HandlesOk(due[h := at], unique + 1, c)
  {
    HandleTellsSlot(t, c, unique + 1);
    MulGrows(c, unique, unique + 1);
    MulGrows(c, 1, unique + 1);
  }

  lemma {:induction false} DrainKeepsInserted(list: seq<Call>, wait: int, who: Who, ran: seq<Run>, clock: int)
    requires wait >= 1 && DrainOk(Totals(list, 0), ran, clock)
    ensures DrainOk(Totals(Inserted(list, wait, who), 0), ran, clock)
  {
    var items, x := Totals(list, 0), Item(wait, who);
    InsertedTotals(list, wait, who, 0);
    PlacedAt(items, x);
    hide Totals, Inserted, Placed, Position;
    var p := Position(items, x);
    var r := items[..p] + [x] + items[p..];
    assert forall i :: 0 <= i < |r| ==> r[i] == if i < p then items[i] else if i == p then x else items[i - 1];
  }

  /** In the visited slot nothing waits for less than no visit. */
  lemma {:induction false} VisitedWaits(list: seq<Call>, t: int, clock: int, due: map<int, int>, unique: int, c: int, i: nat)
    requires c > 0 && SlotOk(list, t, clock, true, due, unique, c) && i < |list| && clock % c == t
    ensures list[i].who.handle in due && due[list[i].who.handle] >= clock
  {
    var items := Totals(list, 0);
    FirstIsLeast(list, 0);
    assert ItemOk(items[i], t, clock, due, unique, c);
    NextVisit(t, clock - 1, c);
    MulGrows(c, 0, items[i].total);
  }

  lemma {:induction false} WaitIsPositive(x: int, c: int)
    requires c > 0 && x >= 0
    ensures x / c >= 0
  {}

  lemma {:induction false} NextVisitDue(t: int, total: int, clock: int, c: int)
    requires c > 0 && 0 <= t < c
    ensures DueTime(t, total, clock + 1, c) == DueTime(t, total, clock, c) + if (clock + 1) % c == t then c else 0
  {
    NextVisit(t, clock, c);
  }

  lemma {:induction false} NewestOfAll(due: map<int, int>, t: int, c: int, unique: int)
    requires c > 0 && 0 <= t < c && HandlesOk(due, unique, c)
    ensures t + c * (unique + 1) !in due
  {
    HandleTellsSlot(t, c, unique + 1);
    assert c * (unique + 1) == c * unique + c;
  }

  lemma {:induction false} DrainKeepsUnlinked(list: seq<Call>, k: nat, ran: seq<Run>, clock: int)
    requires k < |list| && DrainOk(Totals(list, 0), ran, clock)
    ensures DrainOk(Totals(Unlinked(list, k), 0), ran, clock)
  {
    UnlinkedTotals(list, k, 0);
    var items := Totals(list, 0);
    hide Totals, Unlinked;
    var r := items[..k] + items[k + 1..];
    assert forall i :: 0 <= i < |r| ==> r[i] == items[if i < k then i else i + 1];
  }

  lemma {:induction false} DrainKeepsPopped(list: seq<Call>, ran: seq<Run>, clock: int)
    requires list != [] && list[0].delta == 0 && DrainOk(Totals(list, 0), ran, clock)
    ensures DrainOk(Totals(list[1..], 0), ran, clock) && Totals(list[1..], 0) == Totals(list, 0)[1..]
  {
    PoppedTotals(list, 0);
    var items := Totals(list, 0);
    hide Totals;
    assert forall i :: 0 <= i < |items[1..]| ==> items[1..][i] == items[i + 1];
  }

  lemma {:induction false} DrainKeepsRun(rest: seq<Item>, ran: seq<Run>, clock: int, r: Run)
    requires DrainOk(rest, ran, clock)
    requires forall i :: 0 <= i < |rest| && rest[i].total == 0 ==> rest[i].who.handle < r.handle
    ensures DrainOk(rest, ran + [r], clock)
  {}

  lemma {:induction false} LogKeepsWith(ran: seq<Run>, due: map<int, int>, clock: int, h: int, at: int)
    requires LogOk(ran, due, clock) && h !in due
    ensures LogOk(ran, due[h := at], clock)
  {}

  lemma {:induction false} LogIsKnown(ran: seq<Run>, due: map<int, int>, clock: int)
    requires LogOk(ran, due, clock)
    ensures forall i :: 0 <= i < |ran| ==> ran[i].handle in due
  {}

  lemma {:induction false} LogKeeps(ran: seq<Run>, due: map<int, int>, clock: int, items: seq<Item>, r: Run)
    requires LogOk(ran, due, clock) && DrainOk(items, ran, clock) && items != [] && items[0].total == 0
    requires items[0].who.handle == r.handle && r.time == clock && r.handle in due && due[r.handle] == clock
    ensures LogOk(ran + [r], due, clock)
  {}

  // ---------- The wheel as a value ----------

  /** All there is to know about the wheel.  `due` holds for every call ever registered the time at which
      it is to fire, `removed` the calls that were removed, `ran` those that were made. */
  datatype Wheel = Wheel(c: int, slots: seq<seq<Call>>, time: int, now: int, unique: int, visiting: bool,
                         due: map<int, int>, removed: set<int>, ran: seq<Run>)

  /** The time the wheel has reached; during a visit it is already the time of the visit. */
  function Clock(w: Wheel): int { if w.visiting then w.time + 1 else w.time }

  /** The slot that is being drained, or -1. */
  function Visited(w: Wheel): int
    requires w.c > 0
  {
    if w.visiting then (w.time + 1) % w.c else -1
  }

  ghost predicate Ok(w: Wheel) {
    && AllSlotsOk(w.slots, Clock(w), if w.visiting && w.c > 0 then Visited(w) else -1, w.due, w.unique, w.c)
    && Accounted(w.slots, w.due, w.removed, w.ran) && LogOk(w.ran, w.due, Clock(w)) && HandlesOk(w.due, w.unique, w.c)
    && w.unique >= 0 && (if w.visiting then w.time < w.now else w.time <= w.now)
    && (w.visiting ==> DrainOk(Totals(w.slots[Visited(w)], 0), w.ran, Clock(w)))
  }

  /** The same, one predicate at a time. */
  lemma {:induction false} OkParts(w: Wheel)
    requires Ok(w)
    ensures w.c > 0 && |w.slots| == w.c && w.unique >= 0 && -1 <= Visited(w) < w.c
    ensures AllSlotsOk(w.slots, Clock(w), Visited(w), w.due, w.unique, w.c)
    ensures Accounted(w.slots, w.due, w.removed, w.ran) && LogOk(w.ran, w.due, Clock(w)) && HandlesOk(w.due, w.unique, w.c)
    ensures if w.visiting then w.time < w.now else w.time <= w.now
    ensures w.visiting ==> DrainOk(Totals(w.slots[Visited(w)], 0), w.ran, Clock(w))
    ensures forall t :: 0 <= t < w.c ==> SlotOk(w.slots[t], t, Clock(w), Visited(w) == t, w.due, w.unique, w.c)
  {}

  /** Nothing that is pending is late. */
  lemma {:induction false} PendingIsLater(w: Wheel, h: int)
    requires Ok(w) && w.slots != [] && PendingIn(w.slots, h)
    ensures h in w.due && w.due[h] >= Clock(w) && (!w.visiting ==> w.due[h] > Clock(w))
  {
    OkParts(w);
    var t := h % w.c;
    var i :| 0 <= i < |w.slots[t]| && w.slots[t][i].who.handle == h;
    hide SlotOk, LogOk, Accounted, HandlesOk, AllSlotsOk;
    if Visited(w) == t {
      VisitedWaits(w.slots[t], t, Clock(w), w.due, w.unique, w.c, i);
    } else {
      WaitsLonger(w.slots[t], t, Clock(w), w.due, w.unique, w.c, i);
    }
  }

  /** While the wheel stands still, everything that was due has been called, once, at its time and in
      order, or has been removed before. */
  lemma {:induction false} EverythingDueHasRun(w: Wheel, h: int)
    requires Ok(w) && !w.visiting && h in w.due && w.due[h] <= w.time && h !in w.removed
    ensures exists i :: 0 <= i < |w.ran| && w.ran[i] == Run(h, w.due[h]) && forall j :: 0 <= j < |w.ran| && j != i ==> w.ran[j].handle != h
  {
    OkParts(w);
    if PendingIn(w.slots, h) { PendingIsLater(w, h); }
    assert Ran(w.ran, h);
    var i :| 0 <= i < |w.ran| && w.ran[i].handle == h;
    assert w.ran[i] == Run(h, w.due[h]);
    forall j | 0 <= j < |w.ran| && j != i ensures w.ran[j].handle != h {
      assert w.ran[j].time == w.due[w.ran[j].handle];
    }
  }

  /** Calls are made in the order of their times, those of one time last registered first, and none twice. */
  lemma {:induction false} RunsAreInOrder(w: Wheel, i: nat, j: nat)
    requires Ok(w) && i < j < |w.ran|
    ensures w.ran[i].handle in w.due && w.ran[i].time == w.due[w.ran[i].handle] && w.ran[i].handle != w.ran[j].handle
    ensures w.ran[i].time < w.ran[j].time || (w.ran[i].time == w.ran[j].time && w.ran[i].handle > w.ran[j].handle)
  {
    OkParts(w);
    hide AllSlotsOk, SlotOk, Accounted, HandlesOk, DrainOk;
  }

  // ---------- Registering ----------

  /** The time at which a call registered now fires.  A call that falls into the slot that is being
      drained counts the current visit again, so it comes a whole cycle late. */
  function FiringTime(w: Wheel, delay: int): int
    requires w.c > 0
  {
    var t := w.now + if delay < 1 then 1 else delay;
    if Visited(w) == t % w.c then t + w.c else t
  }

  function SlotFor(w: Wheel, delay: int): int
    requires w.c > 0
  {
    (delay + w.now) % w.c
  }

  function WaitFor(w: Wheel, delay: int): int
    requires w.c > 0
  {
    1 + (delay + w.now - w.time - 1) / w.c
  }

  lemma {:induction false} RegistrationFacts(w: Wheel, delay: int)
    requires Ok(w) && delay >= 1 && w.c > 0
    ensures
      var tm := SlotFor(w, delay);
      var h := tm + w.c * (w.unique + 1);
      && 0 <= tm < w.c && WaitFor(w, delay) >= 1 && h !in w.due && h % w.c == tm
      && DueTime(tm, WaitFor(w, delay), Clock(w), w.c) == FiringTime(w, delay)
  {
    OkParts(w);
    hide AllSlotsOk, SlotOk, Accounted, LogOk, DrainOk, DueTime;
    var tm := SlotFor(w, delay);
    WaitIsPositive(delay + w.now - w.time - 1, w.c);
    DelayIsRight(delay + w.now, w.time, w.c);
    NextVisitDue(tm, WaitFor(w, delay), w.time, w.c);
    NewestOfAll(w.due, tm, w.c, w.unique);
    HandleTellsSlot(tm, w.c, w.unique + 1);
  }

  function Registered(w: Wheel, tm: int, wait: int, who: Who, firing: int): Wheel
    requires 0 <= tm < |w.slots|
  {
    w.(slots := w.slots[tm := Inserted(w.slots[tm], wait, who)], unique := w.unique + 1, due := w.due[who.handle := firing])
  }

  lemma {:induction false} RegisteredIsOk(w: Wheel, tm: int, wait: int, who: Who, firing: int)
    requires Ok(w) && 0 <= tm < w.c && wait >= 1 && who.handle == tm + w.c * (w.unique + 1) && who.handle !in w.due
    requires |w.slots| == w.c && who.handle % w.c == tm && firing == DueTime(tm, wait, Clock(w), w.c)
    ensures Ok(Registered(w, tm, wait, who, firing))
  {
    hide DueTime, LastVisit, Inserted, SlotOk, Accounted, HandlesOk, Has, Totals, AllSlotsOk, DrainOk, LogOk;
    OkParts(w);
    LogKeepsWith(w.ran, w.due, Clock(w), who.handle, firing);
    LogIsKnown(w.ran, w.due, Clock(w));
    var list, list' := w.slots[tm], Inserted(w.slots[tm], wait, who);
    SlotKeepsInserted(list, tm, Clock(w), Visited(w) == tm, w.due, w.unique, w.c, wait, who);
    OneSlotChanges(w.slots, tm, list', Clock(w), Visited(w), w.due, w.due[who.handle := firing], w.unique, w.unique + 1, w.c);
    AccountedNew(w.slots, w.due, w.removed, w.ran, tm, list', who.handle, firing);
    HandlesGrow(w.due, who.handle, firing, tm, w.unique, w.c);
    if w.visiting && Visited(w) == tm { DrainKeepsInserted(list, wait, who, w.ran, Clock(w)); }
  }

  // ---------- Removing ----------

  function Cancelled(w: Wheel, t: int, k: nat): Wheel
    requires 0 <= t < |w.slots| && k < |w.slots[t]|
  {
    w.(slots := w.slots[t := Unlinked(w.slots[t], k)], removed := w.removed + {w.slots[t][k].who.handle})
  }

  lemma {:induction false} CancelledIsOk(w: Wheel, t: int, k: nat)
    requires Ok(w) && 0 <= t < |w.slots| && k < |w.slots[t]|
    ensures Ok(Cancelled(w, t, k)) && w.c == |w.slots|
    ensures var h := w.slots[t][k].who.handle; h in w.due && h % w.c == t && PendingIn(w.slots, h)
  {
    OkParts(w);
    var list := w.slots[t];
    var h := list[k].who.handle;
    assert ItemOk(Totals(list, 0)[k], t, Clock(w), w.due, w.unique, w.c);
    assert Has(list, h);
    hide DueTime, SlotOk, Accounted, Totals, Unlinked, AllSlotsOk, DrainOk, Has, HandlesOk, LogOk;
    SlotKeepsUnlinked(list, t, Clock(w), Visited(w) == t, w.due, w.unique, w.c, k);
    OneSlotChanges(w.slots, t, Unlinked(list, k), Clock(w), Visited(w), w.due, w.due, w.unique, w.unique, w.c);
    AccountedRemoved(w.slots, w.due, w.removed, w.ran, t, Unlinked(list, k), h);
    if w.visiting && Visited(w) == t { DrainKeepsUnlinked(list, k, w.ran, Clock(w)); }
  }

  // ---------- Ticking ----------

  /** The slot of the next tick is counted down; its visit begins when the first call is due. */
  function Ticked(w: Wheel): Wheel
    requires w.c > 0 && |w.slots| == w.c
  {
    var t := (w.time + 1) % w.c;
    var list := w.slots[t];
    if list == [] then w.(time := w.time + 1)
    else
      var w1 := w.(slots := w.slots[t := list[0 := list[0].(delta := list[0].delta - 1)]]);
      if list[0].delta == 1 then w1.(visiting := true) else w1.(time := w.time + 1)
  }

  lemma {:induction false} TickedIsOk(w: Wheel)
    requires Ok(w) && !w.visiting && w.time < w.now && w.c > 0 && |w.slots| == w.c
    ensures Ok(Ticked(w)) && Clock(Ticked(w)) == w.time + 1
  {
    hide SlotOk, Accounted, Totals, Has, HandlesOk, DueTime, AllSlotsOk;
    OkParts(w);
    var t, w' := (w.time + 1) % w.c, Ticked(w);
    TickedSlots(w);
    AccountedAlike(w, w');
    LogIsEarlier(w.ran, w.due, w.time, if w'.visiting then Totals(w'.slots[t], 0) else []);
  }

  lemma {:induction false} TickedSlots(w: Wheel)
    requires Ok(w) && !w.visiting && w.c > 0 && |w.slots| == w.c
    ensures AllSlotsOk(Ticked(w).slots, w.time + 1, Visited(Ticked(w)), w.due, w.unique, w.c)
  {
    OkParts(w);
    var t, w' := (w.time + 1) % w.c, Ticked(w);
    hide SlotOk, Accounted, Totals, Has, HandlesOk, DueTime, LogOk, DrainOk, Ok;
    TickedShape(w);
    hide Visited, Ticked;
    forall u | 0 <= u < w.c ensures SlotOk(w'.slots[u], u, w.time + 1, Visited(w') == u, w.due, w.unique, w.c) {
      TickedSlot(w, u);
    }
  }

  lemma {:induction false} TickedSlot(w: Wheel, u: int)
    requires w.c > 0 && |w.slots| == w.c && 0 <= u < w.c && !w.visiting && SlotOk(w.slots[u], u, w.time, false, w.due, w.unique, w.c)
    ensures
      var w' := Ticked(w);
      |w'.slots| == w.c && SlotOk(w'.slots[u], u, w.time + 1, Visited(w') == u, w.due, w.unique, w.c)
  {
    hide SlotOk;
    if u != (w.time + 1) % w.c || w.slots[u] == [] {
      SlotKeepsTick(w.slots[u], u, w.time, w.due, w.unique, w.c);
    } else {
      SlotKeepsVisit(w.slots[u], u, w.time, w.due, w.unique, w.c);
    }
  }

  lemma {:induction false} TickedShape(w: Wheel)
    requires !w.visiting && w.c > 0 && |w.slots| == w.c
    ensures |Ticked(w).slots| == w.c
  {}

  lemma {:induction false} LogIsEarlier(ran: seq<Run>, due: map<int, int>, clock: int, items: seq<Item>)
    requires LogOk(ran, due, clock)
    ensures LogOk(ran, due, clock + 1) && DrainOk(items, ran, clock + 1)
  {}

  lemma {:induction false} AccountedAlike(w: Wheel, w': Wheel)
    requires w.c > 0 && |w.slots| == w.c && w' == Ticked(w) && Accounted(w.slots, w.due, w.removed, w.ran)
    ensures Accounted(w'.slots, w.due, w.removed, w.ran)
  {
    var t := (w.time + 1) % w.c;
    var list := w.slots[t];
    if list != [] { VisitHas(list, list[0].delta - 1); }
    hide Has;
    assert forall h :: PendingIn(w'.slots, h) <==> PendingIn(w.slots, h);
  }

  /** The first call of the visited slot is taken out and made, unless its object is gone. */
  function Popped(w: Wheel, destructed: bool): Wheel
    requires w.c > 0 && |w.slots| == w.c && w.visiting && w.slots[Visited(w)] != []
  {
    var list := w.slots[Visited(w)];
    var h := list[0].who.handle;
    var w1 := w.(slots := w.slots[Visited(w) := list[1..]]);
    if destructed then w1.(removed := w.removed + {h}) else w1.(ran := w.ran + [Run(h, Clock(w))])
  }

  lemma {:induction false} FirstOfSlot(list: seq<Call>, t: int, clock: int, visited: bool, due: map<int, int>, unique: int, c: int)
    requires c > 0 && SlotOk(list, t, clock, visited, due, unique, c) && list != []
    ensures var h := list[0].who.handle; Has(list, h) && h in due && h % c == t
    ensures Totals(list, 0)[0] == Item(list[0].delta, list[0].who)
  {
    assert ItemOk(Totals(list, 0)[0], t, clock, due, unique, c);
  }

  lemma {:induction false} PoppedIsOk(w: Wheel, destructed: bool)
    requires Ok(w) && w.c > 0 && |w.slots| == w.c && w.visiting
    requires w.slots[Visited(w)] != [] && w.slots[Visited(w)][0].delta == 0
    ensures Ok(Popped(w, destructed)) && w.slots[Visited(w)][0].who.handle in w.due
    ensures w.due[w.slots[Visited(w)][0].who.handle] == Clock(w)
  {
    hide SlotOk, Accounted, Has, HandlesOk, DueTime, AllSlotsOk, LogOk, DrainOk, Totals, ItemOk;
    OkParts(w);
    var t, list := Visited(w), w.slots[Visited(w)];
    var h := list[0].who.handle;
    var r := Run(h, Clock(w));
    FirstOfSlot(list, t, Clock(w), true, w.due, w.unique, w.c);
    SlotKeepsPopped(list, t, Clock(w), w.due, w.unique, w.c);
    OneSlotChanges(w.slots, t, list[1..], Clock(w), t, w.due, w.due, w.unique, w.unique, w.c);
    DrainKeepsPopped(list, w.ran, Clock(w));
    if destructed {
      AccountedRemoved(w.slots, w.due, w.removed, w.ran, t, list[1..], h);
    } else {
      AccountedRun(w.slots, w.due, w.removed, w.ran, t, list[1..], r);
      LogKeeps(w.ran, w.due, Clock(w), Totals(list, 0), r);
      DrainKeepsRun(Totals(list[1..], 0), w.ran, Clock(w), r);
    }
  }

  /** The visit ends when no call is due any more. */
  function Stopped(w: Wheel): Wheel { w.(visiting := false, time := w.time + 1) }

  lemma {:induction false} StoppedIsOk(w: Wheel)
    requires Ok(w) && w.c > 0 && |w.slots| == w.c && w.visiting
    requires w.slots[Visited(w)] == [] || w.slots[Visited(w)][0].delta != 0
    ensures Ok(Stopped(w))
  {
    OkParts(w);
    var w' := Stopped(w);
    hide Accounted, Has, HandlesOk, LogOk, DrainOk, ItemsOk;
    forall u | 0 <= u < w.c ensures SlotOk(w'.slots[u], u, Clock(w'), Visited(w') == u, w.due, w.unique, w.c) {}
  }

  // ---------- What a call may do ----------

  /** The calls that are still due in this visit were registered before the one with handle b. */
  ghost predicate DueBelow(w: Wheel, b: int) {
    && w.c > 0 && |w.slots| == w.c
    && (w.visiting ==> DrainOk(Totals(w.slots[Visited(w)], 0), [Run(b, Clock(w))], Clock(w)))
  }

  /** From w to w' the wheel stands still and nothing is made, and no call becomes due in this visit. */
  ghost predicate Leaves(w: Wheel, w': Wheel) {
    && w'.c == w.c && w'.time == w.time && w'.now == w.now && w'.visiting == w.visiting && w'.ran == w.ran
    && forall b :: DueBelow(w, b) ==> DueBelow(w', b)
  }

  lemma {:induction false} LeavesTwice(w: Wheel, w1: Wheel, w2: Wheel)
    requires Leaves(w, w1) && Leaves(w1, w2)
    ensures Leaves(w, w2)
  {
    hide DueBelow;
  }

  lemma {:induction false} LeavesItself(w: Wheel)
    ensures Leaves(w, w)
  {
    hide DueBelow;
  }

  lemma {:induction false} LeavesRegistered(w: Wheel, tm: int, wait: int, who: Who, firing: int)
    requires 0 <= tm < |w.slots| && wait >= 1
    ensures Leaves(w, Registered(w, tm, wait, who, firing))
  {
    hide DrainOk, Totals, Inserted;
    var w' := Registered(w, tm, wait, who, firing);
    forall b | DueBelow(w, b) ensures DueBelow(w', b) {
      if w.visiting && Visited(w) == tm { DrainKeepsInserted(w.slots[tm], wait, who, [Run(b, Clock(w))], Clock(w)); }
    }
  }

  lemma {:induction false} LeavesCancelled(w: Wheel, t: int, k: nat)
    requires 0 <= t < |w.slots| && k < |w.slots[t]|
    ensures Leaves(w, Cancelled(w, t, k))
  {
    hide DrainOk, Totals, Unlinked;
    var w' := Cancelled(w, t, k);
    forall b | DueBelow(w, b) ensures DueBelow(w', b) {
      if w.visiting && Visited(w) == t { DrainKeepsUnlinked(w.slots[t], k, [Run(b, Clock(w))], Clock(w)); }
    }
  }

  /** What is due behind the first call was registered before it. */
  lemma {:induction false} PoppedIsAbove(w: Wheel, destructed: bool)
    requires Ok(w) && w.c > 0 && |w.slots| == w.c && w.visiting
    requires w.slots[Visited(w)] != [] && w.slots[Visited(w)][0].delta == 0
    ensures DueBelow(Popped(w, destructed), w.slots[Visited(w)][0].who.handle)
  {
    hide Ok, AllSlotsOk, Accounted, LogOk, HandlesOk, Totals, SlotOk;
    OkParts(w);
    SlotKeepsPopped(w.slots[Visited(w)], Visited(w), Clock(w), w.due, w.unique, w.c);
  }

  /** The next call that is due was registered earlier than b. */
  lemma {:induction false} FrontIsBelow(w: Wheel, b: int)
    requires Ok(w) && w.c > 0 && |w.slots| == w.c && w.visiting
    requires w.slots[Visited(w)] != [] && w.slots[Visited(w)][0].delta == 0
    ensures 0 < w.slots[Visited(w)][0].who.handle && (DueBelow(w, b) ==> w.slots[Visited(w)][0].who.handle < b)
  {
    OkParts(w);
    var list := w.slots[Visited(w)];
    assert Totals(list, 0)[0] == Item(0, list[0].who);
    assert ItemOk(Totals(list, 0)[0], Visited(w), Clock(w), w.due, w.unique, w.c);
    assert [Run(b, Clock(w))][0].time == Clock(w);
  }

  // ---------- Reporting ----------

  /** The time up to a pending call; a cycle less for a call in the slot that is being drained. */
  function Reported(w: Wheel, h: int): int
    requires w.c > 0 && h in w.due
  {
    w.due[h] - w.now - if Visited(w) == h % w.c then w.c else 0
  }

  /** What time_left says about a call that waits in slot t. */
  lemma {:induction false} ReportIsRight(w: Wheel, t: int, k: nat)
    requires Ok(w) && 0 <= t < |w.slots| && k < |w.slots[t]|
    ensures
      var h := w.slots[t][k].who.handle;
      && w.c == |w.slots| && h in w.due && h % w.c == t && PendingIn(w.slots, h)
      && TimeLeft(t, Totals(w.slots[t], 0)[k].total, w.time, w.now, w.c) == Reported(w, h)
  {
    hide Ok, AllSlotsOk, Accounted, LogOk, DrainOk, TimeLeft, DueTime, HandlesOk, Totals, PendingIn;
    CancelledIsOk(w, t, k);
    OkParts(w);
    var x := Totals(w.slots[t], 0)[k];
    assert SlotOk(w.slots[t], t, Clock(w), Visited(w) == t, w.due, w.unique, w.c);
    assert ItemOk(x, t, Clock(w), w.due, w.unique, w.c);
    hide SlotOk;
    if w.visiting {
      TimeLeftWhileVisiting(t, x.total, w.time, w.now, w.c);
    } else {
      TimeLeftIsRight(t, x.total, w.time, w.now, w.c);
    }
  }

  // ---------- The code ----------

  /** The loop of new_call_out over the chain of a slot. */
  method Insert(list: seq<Call>, delay0: int, who: Who) returns (r: seq<Call>)
    ensures r == Inserted(list, delay0, who)
  {
    var delay, i := delay0, 0;
    assert list[0..] == list;
    while i < |list|
      invariant 0 <= i <= |list|
      invariant Inserted(list, delay0, who) == list[..i] + Inserted(list[i..], delay, who)
    {
      if list[i].delta >= delay {
        return list[..i] + [Call(delay, who), Call(list[i].delta - delay, list[i].who)] + list[i + 1..];
      }
      delay := delay - list[i].delta;
      assert list[i..][1..] == list[i + 1..];
      i := i + 1;
    }
    return list + [Call(delay, who)];
  }

  /** Takes a call out of a chain. */
  method Unlink(list: seq<Call>, k: nat) returns (r: seq<Call>)
    requires k < |list|
    ensures r == Unlinked(list, k)
  {
    UnlinkedIs(list, k);
    r := list;
    if k + 1 < |list| {
      var next := Call(list[k + 1].delta + list[k].delta, list[k + 1].who);
      r := r[k + 1 := next];
      assert r[k + 1..] == [next] + list[k + 2..];
    }
    r := r[..k] + r[k + 1..];
  }

  class CallOuts {
    const cycle: nat                       // CALLOUT_CYCLE_SIZE
    var callList: seq<seq<Call>>
    var callOutTime: int
    var currentTime: int
    var unique: nat
    var visiting: bool                     // between taking a call out of its chain and looking for the next
    ghost var due: map<int, int>
    ghost var removed: set<int>
    ghost var ran: seq<Run>

    ghost function State(): Wheel
      reads this
    {
      Wheel(cycle, callList, callOutTime, currentTime, unique, visiting, due, removed, ran)
    }

    ghost predicate Valid()
      reads this
    {
      cycle > 0 && |callList| == cycle && Ok(State())
    }

    constructor (size: nat, now: int)
      requires size > 0
      ensures Valid() && State() == Wheel(size, seq(size, _ => []), now, now, 0, false, map[], {}, [])
    {
      cycle := size;
      callList := seq(size, _ => []);
      callOutTime, currentTime, unique, visiting := now, now, 0, false;
      due, removed, ran := map[], {}, [];
    }

    /** The clock of the machine goes on. */
    method Pass(seconds: nat)
      requires Valid()
      modifies `currentTime
      ensures Valid() && currentTime == old(currentTime) + seconds
    {
      currentTime := currentTime + seconds;
    }

    /** Registers a call; its handle is its slot plus a multiple of the cycle. */
    method NewCallOut(named: bool, owner: nat, fun: nat, delay0: int) returns (handle: int)
      requires Valid()
      modifies `callList, `unique, `due
      ensures Valid() && handle !in old(due) && due == old(due)[handle := old(FiringTime(State(), delay0))]
      ensures Leaves(old(State()), State())
    {
      hide Ok, FiringTime, Inserted, Leaves;
      var delay := if delay0 < 1 then 1 else delay0;
      var tm := (delay + currentTime) % cycle;
      var wait := 1 + (delay + currentTime - callOutTime - 1) / cycle;
      ghost var w, firing := State(), FiringTime(State(), delay0);
      SameFiring(w, delay0, delay);
      RegistrationFacts(w, delay);
      var who := Who(tm + cycle * (unique + 1), named, owner, fun);
      RegisteredIsOk(w, tm, wait, who, firing);
      var list := Insert(callList[tm], wait, who);
      callList := callList[tm := list];
      unique := unique + 1;
      due := due[who.handle := firing];
      handle := who.handle;
      assert State() == Registered(w, tm, wait, who, firing);
      LeavesRegistered(w, tm, wait, who, firing);
    }

    /** Takes call k out of the chain of slot t. */
    method Drop(t: nat, k: nat)
      requires Valid() && t < |callList| && k < |callList[t]|
      modifies `callList, `removed
      ensures Valid() && State() == Cancelled(old(State()), t, k) && Leaves(old(State()), State())
    {
      hide Ok, Unlinked, Leaves;
      ghost var w := State();
      CancelledIsOk(w, t, k);
      LeavesCancelled(w, t, k);
      removed := removed + {callList[t][k].who.handle};
      var list := Unlink(callList[t], k);
      callList := callList[t := list];
      assert State() == Cancelled(w, t, k);
    }

    /** Looks for a call in the chain of slot t; `wait` is the number of visits it waits. */
    method FindInSlot(t: nat, wanted: Who -> bool) returns (k: nat, wait: int)
      requires t < |callList|
      ensures k <= |callList[t]| && forall i :: 0 <= i < k ==> !wanted(callList[t][i].who)
      ensures k < |callList[t]| ==> wanted(callList[t][k].who) && wait == Totals(callList[t], 0)[k].total
    {
      k, wait := 0, 0;
      while k < |callList[t]|
        invariant k <= |callList[t]| && wait == Sum(callList[t], k)
        invariant forall i :: 0 <= i < k ==> !wanted(callList[t][i].who)
      {
        SumNext(callList[t], k);
        TotalIsSum(callList[t], 0, k);
        wait := wait + callList[t][k].delta;
        if wanted(callList[t][k].who) { return; }
        k := k + 1;
      }
    }

    ghost predicate Pending(h: int)
      requires callList != []
      reads this
    {
      PendingIn(callList, h)
    }

    /** find_call_out_by_handle: only the slot the handle tells is looked through. */
    method FindByHandle(handle: int) returns (left: int)
      requires Valid()
      ensures Pending(handle) ==> handle in due && left == Reported(State(), handle)
      ensures !Pending(handle) ==> left == -1
    {
      hide Ok, TimeLeft, Totals, Reported;
      var t := handle % cycle;
      var k, wait := FindInSlot(t, (who: Who) => who.handle == handle);
      left := -1;
      if k < |callList[t]| {
        ReportIsRight(State(), t, k);
        left := TimeLeft(t, wait, callOutTime, currentTime, cycle);
      }
    }

    /** remove_call_out_by_handle */
    method RemoveByHandle(handle: int) returns (left: int)
      requires Valid()
      modifies `callList, `removed
      ensures Valid()
      ensures old(Pending(handle)) ==>
        removed == old(removed) + {handle} && handle in due && left == old(Reported(State(), handle))
      ensures !old(Pending(handle)) ==> left == -1 && State() == old(State())
      ensures Leaves(old(State()), State())
    {
      hide Ok, TimeLeft, Totals, Reported, Leaves;
      LeavesItself(State());
      var t := handle % cycle;
      var k, wait := FindInSlot(t, (who: Who) => who.handle == handle);
      left := -1;
      if k < |callList[t]| {
        ReportIsRight(State(), t, k);
        Drop(t, k);
        left := TimeLeft(t, wait, callOutTime, currentTime, cycle);
      }
    }

    /** remove_call_out: the first call of the function in the object, slot by slot. */
    method RemoveByName(owner: nat, fun: nat) returns (left: int, ghost found: bool, ghost handle: int)
      requires Valid()
      modifies `callList, `removed
      ensures Valid()
      ensures found ==>
        && old(Pending(handle)) && removed == old(removed) + {handle} && handle in due && left == old(Reported(State(), handle))
      ensures !found ==> State() == old(State()) && left == -1
      ensures !found ==> forall t :: 0 <= t < |callList| ==> NoneCalls(callList[t], owner, fun)
      ensures Leaves(old(State()), State())
    {
      hide Ok, TimeLeft, Totals, Reported, Leaves;
      LeavesItself(State());
      var t := 0;
      left, found, handle := -1, false, 0;
      while t < cycle
        invariant 0 <= t <= cycle && Valid() && State() == old(State()) && left == -1 && !found
        invariant forall u :: 0 <= u < t ==> NoneCalls(callList[u], owner, fun)
      {
        var k, wait := FindInSlot(t, (who: Who) => Calls(who, owner, fun));
        if k < |callList[t]| {
          found, handle := true, callList[t][k].who.handle;
          ReportIsRight(State(), t, k);
          Drop(t, k);
          left := TimeLeft(t, wait, callOutTime, currentTime, cycle);
          return;
        }
        t := t + 1;
      }
    }

    /** remove_all_call_out: every call that belongs to the object or to a destructed one. */
    method RemoveAll(obj: nat, destructed: set<nat>) returns (ghost gone: set<int>)
      requires Valid()
      modifies `callList, `removed
      ensures Valid() && removed == old(removed) + gone
      ensures forall t :: 0 <= t < |callList| ==> NoneOf(callList[t], destructed + {obj})
      ensures forall h :: h in gone ==> Belongs(old(callList), h, destructed + {obj})
      ensures Leaves(old(State()), State())
    {
      hide Ok, Cancelled, Belongs, Leaves;
      ghost var w := State();
      LeavesItself(w);
      ghost var slots, objs := callList, destructed + {obj};
      gone := {};
      var t := 0;
      while t < cycle
        invariant 0 <= t <= cycle && Valid() && removed == old(removed) + gone && Leaves(w, State())
        invariant forall u :: 0 <= u < t ==> NoneOf(callList[u], objs)
        invariant forall u :: t <= u < cycle ==> callList[u] == slots[u]
        invariant forall h :: h in gone ==> Belongs(slots, h, objs)
      {
        ghost var before, w1 := callList, State();
        ghost var more := RemoveAllFromSlot(t, destructed + {obj});
        forall h | h in more ensures Belongs(slots, h, objs) { SameSlotBelongs(before, slots, h, objs); }
        LeavesTwice(w, w1, State());
        gone := gone + more;
        t := t + 1;
      }
    }

    method RemoveAllFromSlot(t: nat, objs: set<nat>) returns (ghost gone: set<int>)
      requires Valid() && t < cycle
      modifies `callList, `removed
      ensures Valid() && removed == old(removed) + gone && NoneOf(callList[t], objs)
      ensures forall u :: 0 <= u < cycle && u != t ==> callList[u] == old(callList[u])
      ensures forall h :: h in gone ==> h % cycle == t && Belongs(old(callList), h, objs)
      ensures Leaves(old(State()), State())
    {
      hide Ok, Belongs, Listed, Unlinked, Leaves;
      ghost var w := State();
      LeavesItself(w);
      ghost var slots := callList;
      AllListed(callList[t]);
      gone := {};
      var k := 0;
      while k < |callList[t]|
        invariant Valid() && k <= |callList[t]| && removed == old(removed) + gone && Leaves(w, State())
        invariant forall u :: 0 <= u < cycle && u != t ==> callList[u] == slots[u]
        invariant forall i :: 0 <= i < k ==> callList[t][i].who.owner !in objs
        invariant forall i :: 0 <= i < |callList[t]| ==> Listed(slots[t], callList[t][i].who)
        invariant forall h :: h in gone ==> h % cycle == t && Belongs(slots, h, objs)
        decreases |callList[t]| - k
      {
        if callList[t][k].who.owner in objs {
          ghost var who, w1 := callList[t][k].who, State();
          CancelledIsOk(State(), t, k);
          ListedBelongs(slots, t, who, objs);
          UnlinkedWho(callList[t], k);
          Drop(t, k);
          LeavesTwice(w, w1, State());
          gone := gone + {who.handle};
        } else {
          k := k + 1;
        }
      }
    }

    // ---------- call_out() ----------

    /** One round of the outer loop up to the first call: the slot is counted down. */
    method Tick()
      requires Valid() && !visiting && callOutTime < currentTime
      modifies `callList, `callOutTime, `visiting
      ensures Valid() && State() == Ticked(old(State()))
      ensures visiting ==> callList[Visited(State())] != [] && callList[Visited(State())][0].delta == 0
    {
      hide Ok;
      TickedIsOk(State());
      var tm := (callOutTime + 1) % cycle;
      if callList[tm] != [] {
        var first := callList[tm][0];
        callList := callList[tm := callList[tm][0 := first.(delta := first.delta - 1)]];
        if first.delta - 1 == 0 {
          visiting := true;
          return;
        }
      }
      callOutTime := callOutTime + 1;
    }

    /** The inner loop takes the first call out of the chain; unless its object is destructed, the call
        is made now, and may do anything to the wheel. */
    method TakeFirst(destructed: bool) returns (who: Who)
      requires Valid() && visiting && callList[Visited(State())] != [] && callList[Visited(State())][0].delta == 0
      modifies `callList, `removed, `ran
      ensures Valid() && visiting && who.handle in due && due[who.handle] == callOutTime + 1
      ensures ran == if destructed then old(ran) else old(ran) + [Run(who.handle, callOutTime + 1)]
      ensures removed == if destructed then old(removed) + {who.handle} else old(removed)
      ensures who == old(callList)[old(Visited(State()))][0].who && DueBelow(State(), who.handle)
    {
      hide Ok, DueBelow;
      ghost var w := State();
      PoppedIsAbove(w, destructed);
      PoppedIsOk(w, destructed);
      var tm := (callOutTime + 1) % cycle;
      who := callList[tm][0].who;
      callList := callList[tm := callList[tm][1..]];
      if destructed {
        removed := removed + {who.handle};
      } else {
        ran := ran + [Run(who.handle, callOutTime + 1)];
      }
      assert State() == Popped(w, destructed);
    }

    /** After a call: another one of this visit, or the end of the visit. */
    method More() returns (more: bool)
      requires Valid() && visiting
      modifies `callOutTime, `visiting
      ensures Valid() && visiting == more
      ensures more ==> State() == old(State()) && callList[Visited(State())] != [] && callList[Visited(State())][0].delta == 0
      ensures !more ==> callOutTime == old(callOutTime) + 1
    {
      hide Ok;
      var tm := (callOutTime + 1) % cycle;
      more := callList[tm] != [] && callList[tm][0].delta == 0;
      if !more {
        StoppedIsOk(State());
        visiting := false;
        callOutTime := callOutTime + 1;
      }
    }
  }

  predicate NoneCalls(list: seq<Call>, owner: nat, fun: nat) {
    forall k :: 0 <= k < |list| ==> !Calls(list[k].who, owner, fun)
  }

  predicate NoneOf(list: seq<Call>, objs: set<nat>) {
    forall k :: 0 <= k < |list| ==> list[k].who.owner !in objs
  }

  /** The call with this handle is pending and belongs to one of the objects. */
  predicate Belongs(slots: seq<seq<Call>>, h: int, objs: set<nat>)
    requires slots != []
  {
    var list := slots[h % |slots|];
    exists k :: 0 <= k < |list| && list[k].who.handle == h && list[k].who.owner in objs
  }

  lemma {:induction false} SameSlotBelongs(slots: seq<seq<Call>>, slots': seq<seq<Call>>, h: int, objs: set<nat>)
    requires slots != [] && |slots'| == |slots| && slots[h % |slots|] == slots'[h % |slots|] && Belongs(slots, h, objs)
    ensures Belongs(slots', h, objs)
  {}

  lemma {:induction false} ListedBelongs(slots: seq<seq<Call>>, t: int, who: Who, objs: set<nat>)
    requires 0 <= t < |slots| && Listed(slots[t], who) && who.handle % |slots| == t && who.owner in objs
    ensures Belongs(slots, who.handle, objs)
  {}

  lemma {:induction false} AllListed(list: seq<Call>)
    ensures forall i :: 0 <= i < |list| ==> Listed(list, list[i].who)
  {}

  predicate Listed(list: seq<Call>, who: Who) {
    exists k :: 0 <= k < |list| && list[k].who == who
  }

  lemma {:induction false} UnlinkedWho(list: seq<Call>, k: nat)
    requires k < |list|
    ensures |Unlinked(list, k)| == |list| - 1
    ensures forall i :: 0 <= i < |Unlinked(list, k)| ==> Unlinked(list, k)[i].who == list[if i < k then i else i + 1].who
  {
    UnlinkedIs(list, k);
  }

  predicate Calls(who: Who, owner: nat, fun: nat) {
    who.named && who.owner == owner && who.fun == fun
  }

  lemma {:induction false} SameFiring(w: Wheel, delay0: int, delay: int)
    requires w.c > 0 && delay == if delay0 < 1 then 1 else delay0
    ensures FiringTime(w, delay0) == FiringTime(w, delay)
  {}
}
