/** The whole of call_out() (src/call_out.c:141-252): every tick that is due, every visit, and calls that
    may do anything to the wheel. */
module CallOutRuns {
  import opened Basics
  import opened CallOutList
  import opened CallOut

  /** What a call may do to the wheel. */
  datatype Action =
    | Register(named: bool, owner: nat, fun: nat, delay: int)
    | RemoveHandle(handle: int)
    | RemoveName(owner: nat, fun: nat)
    | RemoveObject(obj: nat, destructed: set<nat>)

  /** What happens when a call is taken out of the wheel: its object may be destructed; else it acts. */
  datatype Reaction = Reaction(destructed: bool, actions: seq<Action>)

  /** The wheel catches up with the clock, whatever the calls do: all that has become due has been made, at
      its time, or has been removed before. */
  method CatchUp(wheel: CallOuts, script: nat -> Reaction) returns (calls: nat)
    requires wheel.Valid() && !wheel.visiting
    modifies wheel
    ensures wheel.Valid() && !wheel.visiting && wheel.currentTime == old(wheel.currentTime)
    ensures wheel.callOutTime == wheel.currentTime && old(wheel.ran) <= wheel.ran
    ensures forall h :: h in wheel.due && wheel.due[h] <= wheel.currentTime && h !in wheel.removed ==> Ran(wheel.ran, h)
    ensures forall i :: |old(wheel.ran)| <= i < |wheel.ran| ==>
      old(wheel.callOutTime) < wheel.ran[i].time <= wheel.currentTime
  {
    hide Ok;
    calls := 0;
    TimeIsBehind(wheel.State());
    while wheel.callOutTime < wheel.currentTime
      invariant wheel.Valid() && !wheel.visiting && wheel.currentTime == old(wheel.currentTime)
      invariant old(wheel.callOutTime) <= wheel.callOutTime <= wheel.currentTime
      invariant RanSince(old(wheel.ran), wheel.ran, old(wheel.callOutTime), wheel.callOutTime)
      decreases wheel.currentTime - wheel.callOutTime
    {
      ghost var before := wheel.ran;
      calls := OneTick(wheel, script, calls);
      RanLater(old(wheel.ran), before, wheel.ran, old(wheel.callOutTime), wheel.callOutTime - 1);
    }
    forall h | h in wheel.due && wheel.due[h] <= wheel.currentTime && h !in wheel.removed ensures Ran(wheel.ran, h) {
      EverythingDueHasRun(wheel.State(), h);
    }
  }

  lemma {:induction false} TimeIsBehind(w: Wheel)
    requires Ok(w) && !w.visiting
    ensures w.time <= w.now
  {}

  /** The log has grown by calls made after `from`, up to `to`. */
  predicate RanSince(before: seq<Run>, ran: seq<Run>, from: int, to: int) {
    before <= ran && forall i :: |before| <= i < |ran| ==> from < ran[i].time <= to
  }

  lemma {:induction false} RanLater(r0: seq<Run>, r1: seq<Run>, r2: seq<Run>, from: int, to: int)
    requires from <= to && RanSince(r0, r1, from, to) && RanSince(r1, r2, to, to + 1)
    ensures RanSince(r0, r2, from, to + 1)
  {
    forall i | |r0| <= i < |r2| ensures from < r2[i].time <= to + 1 {
      if i < |r1| { assert r2[i] == r1[i]; }
    }
  }

  /** One round of the outer loop.  The visit ends, because a call that is made now was registered before
      the one made last, and calls that are registered now wait for another visit. */
  method OneTick(wheel: CallOuts, script: nat -> Reaction, calls0: nat) returns (calls: nat)
    requires wheel.Valid() && !wheel.visiting && wheel.callOutTime < wheel.currentTime
    modifies wheel
    ensures wheel.Valid() && !wheel.visiting && wheel.currentTime == old(wheel.currentTime)
    ensures wheel.callOutTime == old(wheel.callOutTime) + 1
    ensures RanSince(old(wheel.ran), wheel.ran, old(wheel.callOutTime), old(wheel.callOutTime) + 1)
  {
    hide Ok, Leaves, DueBelow;
    calls := calls0;
    ghost var time := wheel.callOutTime;
    wheel.Tick();
    ghost var mark := if wheel.visiting then Front(wheel) else 0;
    if wheel.visiting { FrontIsBelow(wheel.State(), 0); }
    while wheel.visiting
      invariant wheel.Valid() && wheel.currentTime == old(wheel.currentTime)
      invariant wheel.callOutTime == if wheel.visiting then time else time + 1
      invariant RanSince(old(wheel.ran), wheel.ran, time, time + 1)
      invariant wheel.visiting ==> AtFront(wheel) && mark == Front(wheel) > 0
      decreases if wheel.visiting then mark else 0
    {
      var r := script(calls);
      calls := calls + 1;
      var who := wheel.TakeFirst(r.destructed);
      if !r.destructed { Act(wheel, r.actions, who.handle); }
      var more := wheel.More();
      if more {
        FrontIsBelow(wheel.State(), who.handle);
        mark := Front(wheel);
      }
    }
  }

  /** The first call of the visited slot is due. */
  ghost predicate AtFront(wheel: CallOuts)
    reads wheel
  {
    && wheel.cycle > 0 && |wheel.callList| == wheel.cycle && wheel.visiting
    && wheel.callList[Visited(wheel.State())] != [] && wheel.callList[Visited(wheel.State())][0].delta == 0
  }

  ghost function Front(wheel: CallOuts): int
    requires AtFront(wheel)
    reads wheel
  {
    wheel.callList[Visited(wheel.State())][0].who.handle
  }

  /** A call acts on the wheel; b is its handle. */
  method Act(wheel: CallOuts, actions: seq<Action>, ghost b: int)
    requires wheel.Valid() && wheel.visiting && DueBelow(wheel.State(), b)
    modifies wheel
    ensures wheel.Valid() && wheel.visiting && DueBelow(wheel.State(), b)
    ensures wheel.currentTime == old(wheel.currentTime) && wheel.callOutTime == old(wheel.callOutTime) && wheel.ran == old(wheel.ran)
  {
    hide Ok, DueBelow;
    var k := 0;
    while k < |actions|
      invariant 0 <= k <= |actions| && wheel.Valid() && wheel.visiting && DueBelow(wheel.State(), b)
      invariant wheel.currentTime == old(wheel.currentTime) && wheel.callOutTime == old(wheel.callOutTime) && wheel.ran == old(wheel.ran)
    {
      match actions[k] {
        case Register(named, owner, fun, delay) => var h := wheel.NewCallOut(named, owner, fun, delay);
        case RemoveHandle(handle) => var left := wheel.RemoveByHandle(handle);
        case RemoveName(owner, fun) =>
          var left;
          ghost var found, handle;
          left, found, handle := wheel.RemoveByName(owner, fun);
        case RemoveObject(obj, destructed) => ghost var gone := wheel.RemoveAll(obj, destructed);
      }
      k := k + 1;
    }
  }
}
