/** Heart beats (src/backend.c): rounds over a list that the objects change while they are called. */
module HeartBeat {
  import opened Basics

  /** An entry of the list. */
  datatype Beat = Beat(ob: nat, ticks: int, period: int)

  function Objects(beats: seq<Beat>): (s: seq<nat>)
    ensures |s| == |beats| && forall i :: 0 <= i < |s| ==> s[i] == beats[i].ob
  {
    seq(|beats|, i requires 0 <= i < |beats| => beats[i].ob)
  }

  /** The objects that were not removed, in order. */
  function Kept(s: seq<nat>, removed: set<nat>): seq<nat> {
    if s == [] then []
    else Kept(s[..|s| - 1], removed) + if s[|s| - 1] in removed then [] else [s[|s| - 1]]
  }

  lemma {:induction false} KeptHas(s: seq<nat>, removed: set<nat>, x: nat)
    ensures x in Kept(s, removed) <==> x in s && x !in removed
    decreases |s|
  {
    if s != [] {
      KeptHas(s[..|s| - 1], removed, x);
      assert x in s <==> x in s[..|s| - 1] || x == s[|s| - 1];
    }
  }

  lemma {:induction false} KeptAll(s: seq<nat>)
    ensures Kept(s, {}) == s
    decreases |s|
  {
    if s != [] { KeptAll(s[..|s| - 1]); }
  }

  lemma {:induction false} KeptNext(s: seq<nat>, x: nat, removed: set<nat>)
    requires x !in removed
    ensures Kept(s + [x], removed) == Kept(s, removed) + [x]
  {
    assert (s + [x])[..|s|] == s;
  }

  /** An object that is not among the kept ones may be removed once more. */
  lemma {:induction false} KeptSame(s: seq<nat>, removed: set<nat>, x: nat)
    requires x !in Kept(s, removed)
    ensures Kept(s, removed + {x}) == Kept(s, removed)
    decreases |s|
  {
    if s != [] { KeptSame(s[..|s| - 1], removed, x); }
  }

  /** Removing one more object takes its place out. */
  lemma {:induction false} KeptLess(s: seq<nat>, removed: set<nat>, i: nat)
    requires Distinct(s) && i < |Kept(s, removed)|
    ensures Kept(s, removed + {Kept(s, removed)[i]}) == Dropped(Kept(s, removed), i)
    decreases |s|
  {
    var rest, last := s[..|s| - 1], s[|s| - 1];
    var kr := Kept(rest, removed);
    if last in removed {
      KeptLess(rest, removed, i);
    } else {
      LastIsNew(s);
      KeptHas(rest, removed, last);
      hide Distinct;
      if i < |kr| {
        KeptLess(rest, removed, i);
        assert kr[i] in kr;
        assert last !in removed + {kr[i]};
        DroppedFront(kr, last, i);
      } else {
        KeptSame(rest, removed, last);
        DroppedLast(kr, last);
      }
    }
  }

  lemma {:induction false} LastIsNew(s: seq<nat>)
    requires s != [] && Distinct(s)
    ensures Distinct(s[..|s| - 1]) && s[|s| - 1] !in s[..|s| - 1]
  {}

  lemma {:induction false} DroppedFront(k: seq<nat>, x: nat, i: nat)
    requires i < |k|
    ensures Dropped(k + [x], i) == Dropped(k, i) + [x]
  {}

  lemma {:induction false} DroppedLast(k: seq<nat>, x: nat)
    ensures Dropped(k + [x], |k|) == k
  {}

  /** The round so far: the list when it began, the objects that were removed since, and those that had
      their turn. */
  datatype Round = Idle | Going(start: seq<nat>, removed: set<nat>, served: seq<nat>)

  /** index is the entry whose turn it is, or, in a call, the one that was called; todo is the number of the
      first entries that belong to the round. */
  datatype Hearts = Hearts(beats: seq<Beat>, index: int, todo: int, flagged: set<nat>, round: Round, calling: bool)

  predicate ListOk(beats: seq<Beat>, flagged: set<nat>) {
    Distinct(Objects(beats)) && flagged == set x | x in Objects(beats)
  }

  /** In a round: the first todo entries are what is left of the list it began with, and the first n are
      what is left of the objects that had their turn. */
  predicate RoundOk(objects: seq<nat>, todo: int, n: int, round: Round) {
    && round.Going? && 0 <= n <= todo <= |objects|
    && Distinct(round.start) && Distinct(round.served) && (forall x :: x in round.served ==> x in round.start)
    && objects[..todo] == Kept(round.start, round.removed)
    && objects[..n] == Kept(round.served, round.removed)
  }

  predicate Ok(h: Hearts) {
    && ListOk(h.beats, h.flagged)
    && if h.round.Idle? then h.index == 0 && h.todo == 0 && !h.calling
       else if h.calling then -1 <= h.index < h.todo && RoundOk(Objects(h.beats), h.todo, h.index + 1, h.round)
       else 0 <= h.index < h.todo && RoundOk(Objects(h.beats), h.todo, h.index, h.round)
  }

  // ---------- Theorems ----------

  /** When a round is complete, every object of the list it began with that was not removed since has had
      its turn, once and in order; and nobody else had one. */
  lemma {:induction false} RoundServesAll(h: Hearts, x: nat)
    requires Ok(h) && h.calling && h.index + 1 == h.todo
    ensures Kept(h.round.served, h.round.removed) == Kept(h.round.start, h.round.removed)
    ensures x in h.round.start && x !in h.round.removed ==> multiset(h.round.served)[x] == 1
    ensures multiset(h.round.served)[x] <= 1 && (x in h.round.served ==> x in h.round.start)
  {
    Once(h.round.served, x);
    KeptHas(h.round.served, h.round.removed, x);
    KeptHas(h.round.start, h.round.removed, x);
  }

  /** At any time: those who had their turn and are still listed come first. */
  lemma {:induction false} RoundServesPrefix(h: Hearts)
    requires Ok(h) && h.calling
    ensures Kept(h.round.served, h.round.removed) <= Kept(h.round.start, h.round.removed)
    ensures -1 <= h.index < h.todo <= |h.beats|
  {}

  lemma {:induction false} Once(s: seq<nat>, x: nat)
    requires Distinct(s)
    ensures multiset(s)[x] == if x in s then 1 else 0
    decreases |s|
  {
    if s != [] {
      Once(s[..|s| - 1], x);
      assert s == s[..|s| - 1] + [s[|s| - 1]];
      assert s[|s| - 1] !in s[..|s| - 1];
    }
  }

  /** How often an entry with `ticks` visits to go and that period beats in n visits. */
  function Beats(ticks: int, period: int, n: nat): nat
    decreases n
  {
    if n == 0 then 0
    else if ticks - 1 < 1 then 1 + Beats(period, period, n - 1)
    else Beats(ticks - 1, period, n - 1)
  }

  /** An object that asks for a heart beat every `period` rounds gets one in the last of them. */
  lemma {:induction false} BeatsOncePerPeriod(ticks: int, period: int, n: nat)
    requires 1 <= ticks <= period
    ensures Beats(ticks, period, n) == (n + period - ticks) / period
    decreases n
  {
    if n == 0 {
      DivisionIsUnique(period - ticks, period, 0, period - ticks);
    } else if ticks == 1 {
      BeatsOncePerPeriod(period, period, n - 1);
      DivisionIsUnique(n - 1 + period, period, (n - 1) / period + 1, (n - 1) % period);
    } else {
      BeatsOncePerPeriod(ticks - 1, period, n - 1);
    }
  }

  // ---------- Steps ----------

  /** call_heart_beat begins a round. */
  function Begun(h: Hearts): Hearts { h.(index := 0, todo := |h.beats|, round := Going(Objects(h.beats), {}, [])) }

  lemma {:induction false} BegunIsOk(h: Hearts)
    requires Ok(h) && h.round.Idle? && h.beats != []
    ensures Ok(Begun(h))
  {
    KeptAll(Objects(h.beats));
    KeptAll([]);
  }

  /** The entry at the index has its turn; the object is called when its ticks are used up and it has a
      heart_beat function. */
  function Served(h: Hearts, hasFunction: bool): Hearts
    requires 0 <= h.index < |h.beats| && h.round.Going?
  {
    var b := h.beats[h.index];
    var ticks := if hasFunction && b.ticks - 1 < 1 then b.period else b.ticks - 1;
    h.(beats := h.beats[h.index := b.(ticks := ticks)], calling := true,
       round := h.round.(served := h.round.served + [b.ob]))
  }

  lemma {:induction false} ServedIsOk(h: Hearts, hasFunction: bool)
    requires Ok(h) && h.round.Going? && !h.calling
    ensures Ok(Served(h, hasFunction))
  {
    var objects, x := Objects(h.beats), h.beats[h.index].ob;
    assert Objects(Served(h, hasFunction).beats) == objects;
    RoundServesEntry(objects, h.todo, h.index, h.round);
    hide RoundOk, ListOk, Objects;
  }

  lemma {:induction false} RoundServesEntry(objects: seq<nat>, todo: int, n: int, r: Round)
    requires RoundOk(objects, todo, n, r) && Distinct(objects) && n < todo
    ensures RoundOk(objects, todo, n + 1, r.(served := r.served + [objects[n]]))
  {
    var x := objects[n];
    NotBefore(objects, n);
    assert objects[..todo][n] == x;
    KeptHas(r.start, r.removed, x);
    KeptHas(r.served, r.removed, x);
    hide Kept;
    KeptNext(r.served, x, r.removed);
    assert objects[..n + 1] == objects[..n] + [x];
  }

  lemma {:induction false} NotBefore(s: seq<nat>, n: nat)
    requires Distinct(s) && n < |s|
    ensures s[n] !in s[..n]
  {}

  /** The end of a turn: the next one, or the end of the round, which may come early. */
  function Advanced(h: Hearts, timeIsUp: bool): Hearts {
    if h.index + 1 == h.todo || timeIsUp then h.(index := 0, todo := 0, round := Idle, calling := false)
    else h.(index := h.index + 1, calling := false)
  }

  lemma {:induction false} AdvancedIsOk(h: Hearts, timeIsUp: bool)
    requires Ok(h) && h.calling
    ensures Ok(Advanced(h, timeIsUp))
  {}

  function RoundWithout(r: Round, x: nat): Round {
    if r.Going? then r.(removed := r.removed + {x}) else r
  }

  /** The entry i is taken off the list. */
  function Removed(h: Hearts, i: nat): Hearts
    requires i < |h.beats|
  {
    var ob := h.beats[i].ob;
    var index := if h.todo != 0 && i <= h.index then h.index - 1 else h.index;
    var todo := if h.todo != 0 && i < h.todo then h.todo - 1 else h.todo;
    Hearts(Dropped(h.beats, i), index, todo, h.flagged - {ob}, RoundWithout(h.round, ob), h.calling)
  }

  lemma {:induction false} RemovedIsOk(h: Hearts, i: nat)
    requires Ok(h) && i < |h.beats| && (h.round.Idle? || h.calling)
    ensures Ok(Removed(h, i))
  {
    var objects := Objects(h.beats);
    assert Objects(Dropped(h.beats, i)) == Dropped(objects, i);
    DroppedList(objects, i);
    if h.round.Going? { RoundLosesEntry(objects, h.todo, h.index + 1, h.round, i); }
    hide RoundOk, Objects, Dropped, Distinct;
  }

  lemma {:induction false} DroppedList(s: seq<nat>, i: nat)
    requires Distinct(s) && i < |s|
    ensures Distinct(Dropped(s, i)) && (set x | x in Dropped(s, i)) == (set x | x in s) - {s[i]}
  {
    var d := Dropped(s, i);
    assert forall j :: 0 <= j < |d| ==> d[j] == if j < i then s[j] else s[j + 1];
    forall x | x in s && x != s[i] ensures x in d {
      var j :| 0 <= j < |s| && s[j] == x;
      assert if j < i then d[j] == x else d[j - 1] == x;
    }
  }

  lemma {:induction false} RoundLosesEntry(objects: seq<nat>, todo: int, n: int, r: Round, i: nat)
    requires RoundOk(objects, todo, n, r) && Distinct(objects) && i < |objects|
    ensures RoundOk(Dropped(objects, i), if i < todo then todo - 1 else todo, if i < n then n - 1 else n, RoundWithout(r, objects[i]))
  {
    hide Kept, Distinct;
    PrefixLoses(objects, todo, r.start, r.removed, i);
    PrefixLoses(objects, n, r.served, r.removed, i);
  }

  /** A prefix of the list that is what is left of s stays so when the entry i goes. */
  lemma {:induction false} PrefixLoses(objects: seq<nat>, n: int, s: seq<nat>, removed: set<nat>, i: nat)
    requires Distinct(objects) && i < |objects| && 0 <= n <= |objects| && Distinct(s) && objects[..n] == Kept(s, removed)
    ensures Dropped(objects, i)[..if i < n then n - 1 else n] == Kept(s, removed + {objects[i]})
  {
    var x := objects[i];
    if i < n {
      assert objects[..n][i] == x;
      KeptLess(s, removed, i);
      hide Kept, Distinct;
      assert Dropped(objects, i)[..n - 1] == Dropped(objects[..n], i);
    } else {
      assert x !in objects[..n];
      KeptSame(s, removed, x);
      hide Kept, Distinct;
      assert Dropped(objects, i)[..n] == objects[..n];
    }
  }

  function Added(h: Hearts, ob: nat, to: int): Hearts {
    var t := if to < 0 then 1 else to;
    h.(beats := h.beats + [Beat(ob, t, t)], flagged := h.flagged + {ob})
  }

  lemma {:induction false} AddedIsOk(h: Hearts, ob: nat, to: int)
    requires Ok(h) && ob !in h.flagged && (h.round.Idle? || h.calling)
    ensures Ok(Added(h, ob, to))
  {
    var objects, more := Objects(h.beats), Objects(Added(h, ob, to).beats);
    assert more == objects + [ob] && ob !in objects;
    assert forall x :: x in more <==> x in objects || x == ob;
    if h.round.Going? {
      assert more[..h.todo] == objects[..h.todo] && more[..h.index + 1] == objects[..h.index + 1];
    }
  }

  function Changed(h: Hearts, i: nat, to: int): Hearts
    requires i < |h.beats|
  {
    h.(beats := h.beats[i := Beat(h.beats[i].ob, to, to)])
  }

  lemma {:induction false} ChangedIsOk(h: Hearts, i: nat, to: int)
    requires Ok(h) && i < |h.beats|
    ensures Ok(Changed(h, i, to))
  {
    assert Objects(Changed(h, i, to).beats) == Objects(h.beats);
  }

  /** The place of a listed object, the last one if there were several. */
  function PlaceOf(beats: seq<Beat>, ob: nat): (i: nat)
    requires exists k :: 0 <= k < |beats| && beats[k].ob == ob
    ensures i < |beats| && beats[i].ob == ob
  {
    if beats[|beats| - 1].ob == ob then |beats| - 1 else PlaceOf(beats[..|beats| - 1], ob)
  }

  lemma {:induction false} PlaceIsUnique(h: Hearts, i: nat, j: nat)
    requires Ok(h) && i < |h.beats| && j < |h.beats| && h.beats[i].ob == h.beats[j].ob
    ensures i == j
  {
    assert Objects(h.beats)[i] == Objects(h.beats)[j];
  }

  lemma {:induction false} Listed(h: Hearts, ob: nat)
    requires Ok(h)
    ensures ob in h.flagged <==> exists k :: 0 <= k < |h.beats| && h.beats[k].ob == ob
  {
    if ob in h.flagged {
      assert ob in Objects(h.beats);
      var k :| 0 <= k < |Objects(h.beats)| && Objects(h.beats)[k] == ob;
      assert h.beats[k].ob == ob;
    }
    if k :| 0 <= k < |h.beats| && h.beats[k].ob == ob { assert Objects(h.beats)[k] == ob; }
  }

  /** What set_heart_beat does. */
  function SetTo(h: Hearts, ob: nat, to: int): Hearts
    requires Ok(h)
  {
    Listed(h, ob);
    if ob in h.flagged then
      if to == 0 then Removed(h, PlaceOf(h.beats, ob))
      else if to < 0 then h
      else Changed(h, PlaceOf(h.beats, ob), to)
    else if to == 0 then h
    else Added(h, ob, to)
  }

  lemma {:induction false} SetIsOk(h: Hearts, ob: nat, to: int)
    requires Ok(h) && (h.round.Idle? || h.calling)
    ensures Ok(SetTo(h, ob, to))
  {
    Listed(h, ob);
    if ob in h.flagged {
      RemovedIsOk(h, PlaceOf(h.beats, ob));
      ChangedIsOk(h, PlaceOf(h.beats, ob), to);
    } else {
      AddedIsOk(h, ob, to);
    }
  }

  // ---------- The code ----------

  class HeartBeats {
    var heartBeats: seq<Beat>          // heart_beats[0..num_hb_objs]
    var heartBeatIndex: int
    var numToDo: int
    var flagged: set<nat>              // the objects with O_HEART_BEAT
    var calling: bool                  // an object is being called
    ghost var round: Round

    ghost function State(): Hearts
      reads this
    {
      Hearts(heartBeats, heartBeatIndex, numToDo, flagged, round, calling)
    }

    ghost predicate Valid()
      reads this
    {
      Ok(State())
    }

    constructor ()
      ensures Valid() && heartBeats == [] && round == Idle
    {
      heartBeats, heartBeatIndex, numToDo, flagged, calling, round := [], 0, 0, {}, false, Idle;
    }

    /** The beginning of call_heart_beat: says whether there is anything to do. */
    method Begin() returns (any: bool)
      requires Valid() && round.Idle?
      modifies this
      ensures Valid() && any == (old(heartBeats) != []) && State() == if any then Begun(old(State())) else old(State())
    {
      ghost var h := State();
      numToDo := |heartBeats|;
      if numToDo == 0 { return false; }
      BegunIsOk(h);
      heartBeatIndex := 0;
      round := Going(Objects(heartBeats), {}, []);
      return true;
    }

    /** The body of the loop up to the call: says which object is called, if any. */
    method Serve(hasFunction: bool) returns (ob: nat, called: bool)
      requires Valid() && round.Going? && !calling
      modifies this
      ensures Valid() && State() == Served(old(State()), hasFunction)
      ensures ob == old(heartBeats)[old(heartBeatIndex)].ob && round.served == old(round).served + [ob]
      ensures called == (hasFunction && old(heartBeats)[old(heartBeatIndex)].ticks <= 1)
    {
      ghost var h := State();
      ServedIsOk(h, hasFunction);
      var hb := heartBeats[heartBeatIndex];
      var ticks := hb.ticks - 1;
      called := false;
      if hasFunction && ticks < 1 {
        ticks := hb.period;
        called := true;
      }
      ob := hb.ob;
      heartBeats := heartBeats[heartBeatIndex := Beat(ob, ticks, hb.period)];
      round := round.(served := round.served + [ob]);
      calling := true;
      assert State() == Served(h, hasFunction);
    }

    /** The end of the loop's body, after the call: says whether the round goes on. */
    method Advance(timeIsUp: bool) returns (more: bool)
      requires Valid() && calling
      modifies this
      ensures Valid() && State() == Advanced(old(State()), timeIsUp) && more == round.Going?
    {
      ghost var h := State();
      AdvancedIsOk(h, timeIsUp);
      calling := false;
      heartBeatIndex := heartBeatIndex + 1;
      if heartBeatIndex == numToDo || timeIsUp {
        heartBeatIndex, numToDo, round := 0, 0, Idle;
        return false;
      }
      return true;
    }

    /** The place of an object in the list, found from its end; -1 when it is not there. */
    method Find(ob: nat) returns (index: int)
      requires Valid()
      ensures if ob in flagged then 0 <= index < |heartBeats| && heartBeats[index].ob == ob else index == -1
    {
      index := |heartBeats| - 1;
      while index >= 0 && heartBeats[index].ob != ob
        invariant -1 <= index < |heartBeats| && forall i :: index < i < |heartBeats| ==> heartBeats[i].ob != ob
        decreases index
      {
        index := index - 1;
      }
    }

    /** query_heart_beat */
    method QueryHeartBeat(ob: nat) returns (period: int)
      requires Valid()
      ensures ob !in flagged ==> period == 0
      ensures ob in flagged ==> exists b :: b in heartBeats && b.ob == ob && b.period == period
    {
      if ob !in flagged { return 0; }
      var index := Find(ob);
      assert heartBeats[index] in heartBeats;
      return heartBeats[index].period;
    }

    /** set_heart_beat, outside of a round or from within a call. */
    method SetHeartBeat(ob: nat, to: int, destructed: bool) returns (done: bool)
      requires Valid() && (round.Idle? || calling)
      modifies this
      ensures Valid()
      ensures destructed ==> !done && State() == old(State())
      ensures !destructed ==> done == if to == 0 then ob in old(flagged) else !(to < 0 && ob in old(flagged))
      ensures !done ==> State() == old(State())
      ensures done ==> flagged == if to == 0 then old(flagged) - {ob} else old(flagged) + {ob}
      ensures !destructed ==> State() == SetTo(old(State()), ob, to)
    {
      if destructed { return false; }
      ghost var h := State();
      Listed(h, ob);
      SetIsOk(h, ob, to);
      hide Ok, PlaceOf, Removed;
      if to == 0 {
        var index := Find(ob);
        if index < 0 { return false; }
        PlaceIsUnique(h, index, PlaceOf(h.beats, ob));
        TakeOff(index);
        return true;
      }
      if ob in flagged {
        if to < 0 { return false; }
        var index := Find(ob);
        PlaceIsUnique(h, index, PlaceOf(h.beats, ob));
        heartBeats := heartBeats[index := Beat(ob, to, to)];
        assert State() == Changed(h, index, to);
      } else {
        var t := if to < 0 then 1 else to;
        heartBeats := heartBeats + [Beat(ob, t, t)];
        flagged := flagged + {ob};
      }
      return true;
    }

    /** The entry is taken out of the list; the marks of a round move with what is behind it. */
    method TakeOff(index: nat)
      requires index < |heartBeats|
      modifies this
      ensures State() == Removed(old(State()), index)
    {
      ghost var h := State();
      if numToDo != 0 {
        if index <= heartBeatIndex { heartBeatIndex := heartBeatIndex - 1; }
        if index < numToDo { numToDo := numToDo - 1; }
      }
      flagged := flagged - {heartBeats[index].ob};
      round := RoundWithout(round, heartBeats[index].ob);
      heartBeats := heartBeats[..index] + heartBeats[index + 1..];
      assert State() == Removed(h, index);
    }
  }
}
