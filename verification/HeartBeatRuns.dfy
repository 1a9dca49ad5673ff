/** Whole runs of heart beats (src/backend.c:378-458): rounds and what the called objects do in them, in any
    order that can happen. */
module HeartBeatRuns {
  import opened Basics
  import opened HeartBeat

  datatype Event = Begins | Turn(hasFunction: bool) | EndsTurn(timeIsUp: bool) | Sets(ob: nat, to: int)

  predicate Can(h: Hearts, e: Event) {
    match e
    case Begins => h.round.Idle? && h.beats != []
    case Turn(_) => h.round.Going? && !h.calling
    case EndsTurn(_) => h.calling
    case Sets(_, _) => h.round.Idle? || h.calling
  }

  function Done(h: Hearts, e: Event): (r: Hearts)
    requires Ok(h) && Can(h, e)
    ensures Ok(r)
  {
    match e
    case Begins =>
      BegunIsOk(h);
      Begun(h)
    case Turn(hasFunction) =>
      ServedIsOk(h, hasFunction);
      Served(h, hasFunction)
    case EndsTurn(timeIsUp) =>
      AdvancedIsOk(h, timeIsUp);
      Advanced(h, timeIsUp)
    case Sets(ob, to) =>
      SetIsOk(h, ob, to);
      SetTo(h, ob, to)
  }

  /** Events that can follow each other, and the state they lead to. */
  predicate Legal(h: Hearts, es: seq<Event>)
    requires Ok(h)
    decreases es, 0
  {
    es == [] || (Legal(h, es[..|es| - 1]) && Can(After(h, es[..|es| - 1]), es[|es| - 1]))
  }

  function After(h: Hearts, es: seq<Event>): (r: Hearts)
    requires Ok(h) && Legal(h, es)
    ensures Ok(r)
    decreases es, 1
  {
    if es == [] then h else Done(After(h, es[..|es| - 1]), es[|es| - 1])
  }

  lemma {:induction false} AfterOneMore(h: Hearts, es: seq<Event>, e: Event)
    requires Ok(h) && Legal(h, es) && Can(After(h, es), e)
    ensures Legal(h, es + [e]) && After(h, es + [e]) == Done(After(h, es), e)
    ensures Called(h, es + [e]) == Called(h, es) + CalledBy(After(h, es), e) && Rounds(es + [e]) == Rounds(es) + if e.Begins? then 1 else 0
  {
    assert (es + [e])[..|es|] == es;
  }

  /** The object whose turn it is. */
  function Next(h: Hearts): nat
    requires Ok(h) && h.round.Going? && !h.calling
  {
    h.beats[h.index].ob
  }

  /** The object that an event calls. */
  function CalledBy(h: Hearts, e: Event): seq<nat>
    requires Ok(h) && Can(h, e)
  {
    if e.Turn? && e.hasFunction && h.beats[h.index].ticks - 1 < 1 then [Next(h)] else []
  }

  /** The objects that are called, in order. */
  function Called(h: Hearts, es: seq<Event>): seq<nat>
    requires Ok(h) && Legal(h, es)
  {
    if es == [] then []
    else
      var init := es[..|es| - 1];
      Called(h, init) + CalledBy(After(h, init), es[|es| - 1])
  }

  /** How often x has its turn, and how often it is called. */
  function Turns(h: Hearts, es: seq<Event>, x: nat): nat
    requires Ok(h) && Legal(h, es)
  {
    if es == [] then 0
    else
      var init := es[..|es| - 1];
      Turns(h, init, x) + if es[|es| - 1].Turn? && Next(After(h, init)) == x then 1 else 0
  }

  function Calls(h: Hearts, es: seq<Event>, x: nat): nat
    requires Ok(h) && Legal(h, es)
  {
    multiset(Called(h, es))[x]
  }

  function Rounds(es: seq<Event>): nat {
    if es == [] then 0 else Rounds(es[..|es| - 1]) + if es[|es| - 1].Begins? then 1 else 0
  }

  /** Nobody sets the heart beat of x, which has a heart_beat function. */
  predicate Undisturbed(h: Hearts, es: seq<Event>, x: nat)
    requires Ok(h) && Legal(h, es)
  {
    es == [] ||
    (var init, e := es[..|es| - 1], es[|es| - 1];
     Undisturbed(h, init, x) && !(e.Sets? && e.ob == x) && (e.Turn? && Next(After(h, init)) == x ==> e.hasFunction))
  }

  /** No round is cut short. */
  predicate Uncut(es: seq<Event>) { EndsTurn(true) !in es }

  // ---------- The entry of one object ----------

  function EntryOf(h: Hearts, x: nat): (b: Beat)
    requires Ok(h) && x in h.flagged
    ensures b in h.beats && b.ob == x
  {
    Listed(h, x);
    h.beats[PlaceOf(h.beats, x)]
  }

  lemma {:induction false} OnlyEntry(h: Hearts, i: nat)
    requires Ok(h) && i < |h.beats|
    ensures h.beats[i].ob in h.flagged && EntryOf(h, h.beats[i].ob) == h.beats[i]
  {
    Listed(h, h.beats[i].ob);
    PlaceIsUnique(h, i, PlaceOf(h.beats, h.beats[i].ob));
  }

  /** An event changes the entry of x only when it is the turn of x, or sets x. */
  lemma {:induction false} EntryAfter(h: Hearts, e: Event, x: nat)
    requires Ok(h) && Can(h, e) && x in h.flagged && !(e.Sets? && e.ob == x)
    ensures x in Done(h, e).flagged
    ensures !(e.Turn? && Next(h) == x) ==> EntryOf(Done(h, e), x) == EntryOf(h, x)
    ensures e.Turn? && Next(h) == x ==>
      var b := EntryOf(h, x);
      EntryOf(Done(h, e), x) == b.(ticks := if e.hasFunction && b.ticks - 1 < 1 then b.period else b.ticks - 1)
  {
    match e
    case Begins => SameEntry(h, Done(h, e), x);
    case Turn(hasFunction) => EntryAfterTurn(h, hasFunction, x);
    case EndsTurn(_) => SameEntry(h, Done(h, e), x);
    case Sets(ob, to) => EntryAfterSet(h, ob, to, x);
  }

  lemma {:induction false} SameEntry(h: Hearts, r: Hearts, x: nat)
    requires Ok(h) && Ok(r) && x in h.flagged && EntryOf(h, x) in r.beats
    ensures x in r.flagged && EntryOf(r, x) == EntryOf(h, x)
  {
    hide Ok, EntryOf;
    var b := EntryOf(h, x);
    var i :| 0 <= i < |r.beats| && r.beats[i] == b;
    OnlyEntry(r, i);
  }

  lemma {:induction false} EntryAfterTurn(h: Hearts, hasFunction: bool, x: nat)
    requires Ok(h) && h.round.Going? && !h.calling && x in h.flagged
    ensures
      var r, b := Served(h, hasFunction), EntryOf(h, x);
      && Ok(r) && x in r.flagged
      && EntryOf(r, x) == if Next(h) == x then b.(ticks := if hasFunction && b.ticks - 1 < 1 then b.period else b.ticks - 1) else b
  {
    ServedIsOk(h, hasFunction);
    var r, b := Served(h, hasFunction), EntryOf(h, x);
    assert 0 <= h.index < |h.beats|;
    hide Ok, EntryOf;
    var i :| 0 <= i < |h.beats| && h.beats[i] == b;
    if Next(h) == x { OnlyEntry(h, h.index); OnlyEntry(r, h.index); } else { OnlyEntry(r, i); }
  }

  lemma {:induction false} EntryAfterSet(h: Hearts, ob: nat, to: int, x: nat)
    requires Ok(h) && (h.round.Idle? || h.calling) && x in h.flagged && ob != x
    ensures var r := SetTo(h, ob, to); Ok(r) && x in r.flagged && EntryOf(r, x) == EntryOf(h, x)
  {
    hide Ok, EntryOf;
    Listed(h, ob);
    SetIsOk(h, ob, to);
    var r, b := SetTo(h, ob, to), EntryOf(h, x);
    var i :| 0 <= i < |h.beats| && h.beats[i] == b;
    if ob in h.flagged && to == 0 {
      var j := PlaceOf(h.beats, ob);
      OnlyEntry(r, if i < j then i else i - 1);
    } else {
      OnlyEntry(r, i);
    }
  }

  // ---------- How often an object is called ----------

  lemma {:induction false} CallOf(h: Hearts, e: Event, x: nat)
    requires Ok(h) && Can(h, e) && x in h.flagged
    ensures e.Turn? && Next(h) == x && e.hasFunction ==>
      multiset(CalledBy(h, e))[x] == if EntryOf(h, x).ticks - 1 < 1 then 1 else 0
    ensures !(e.Turn? && Next(h) == x) ==> multiset(CalledBy(h, e))[x] == 0
  {
    if e.Turn? {
      assert 0 <= h.index < |h.beats|;
      hide Ok, EntryOf;
      OnlyEntry(h, h.index);
    }
  }

  lemma {:induction false} CountsAdd(s: seq<nat>, t: seq<nat>, x: nat)
    ensures multiset(s + t)[x] == multiset(s)[x] + multiset(t)[x]
  {}

  /** The calls of x follow from its turns. */
  lemma {:induction false} CallsOverRun(h: Hearts, es: seq<Event>, x: nat, more: nat)
    requires Ok(h) && Legal(h, es) && x in h.flagged && Undisturbed(h, es, x)
    ensures x in After(h, es).flagged && EntryOf(After(h, es), x).period == EntryOf(h, x).period
    ensures
      var b, b' := EntryOf(h, x), EntryOf(After(h, es), x);
      Calls(h, es, x) + Beats(b'.ticks, b'.period, more) == Beats(b.ticks, b.period, Turns(h, es, x) + more)
    decreases |es|
  {
    hide Ok, Done, EntryOf, CalledBy, Next;
    if es != [] {
      var init, e := es[..|es| - 1], es[|es| - 1];
      var mine := e.Turn? && Next(After(h, init)) == x;
      CallsOverRun(h, init, x, if mine then more + 1 else more);
      EntryAfter(After(h, init), e, x);
      CallOf(After(h, init), e, x);
      CountsAdd(Called(h, init), CalledBy(After(h, init), e), x);
    }
  }

  /** x still has a turn in the round. */
  function Due(h: Hearts, x: nat): nat {
    if h.round.Going? && x in h.round.start && x !in h.round.removed && x !in h.round.served then 1 else 0
  }

  lemma {:induction false} DueAfter(h: Hearts, e: Event, x: nat)
    requires Ok(h) && Can(h, e) && x in h.flagged && !(e.Sets? && e.ob == x)
    ensures
      var before := Due(h, x) + if e.Begins? then 1 else 0;
      var after := Due(Done(h, e), x) + if e.Turn? && Next(h) == x then 1 else 0;
      after <= before && (e != EndsTurn(true) ==> after == before)
  {
    match e
    case Begins => Listed(h, x);
    case Turn(hasFunction) => DueAfterTurn(h, hasFunction, x);
    case EndsTurn(_) => if h.index + 1 == h.todo { RoundServesAll(h, x); }
    case Sets(ob, to) => RoundAfterSet(h, ob, to);
  }

  lemma {:induction false} DueAfterTurn(h: Hearts, hasFunction: bool, x: nat)
    requires Ok(h) && h.round.Going? && !h.calling
    ensures Due(Served(h, hasFunction), x) + (if Next(h) == x then 1 else 0) == Due(h, x)
  {
    TurnIsDue(h, hasFunction);
  }

  lemma {:induction false} RoundAfterSet(h: Hearts, ob: nat, to: int)
    requires Ok(h)
    ensures SetTo(h, ob, to).round in {h.round, RoundWithout(h.round, ob)}
  {
    hide Ok;
    Listed(h, ob);
  }

  /** Whoever has a turn was due. */
  lemma {:induction false} TurnIsDue(h: Hearts, hasFunction: bool)
    requires Ok(h) && Can(h, Turn(hasFunction))
    ensures Due(h, Next(h)) == 1
  {
    var y, r := Next(h), h.round;
    var objects := Objects(h.beats);
    assert objects[..h.todo][h.index] == y;
    KeptHas(r.start, r.removed, y);
    var served := Done(h, Turn(hasFunction)).round.served;
    assert served == r.served + [y] && Distinct(served);
    assert served[..|r.served|] == r.served;
    LastIsNew(served);
  }

  /** In every round each object that stays on the list has one turn, unless the round is cut short. */
  lemma {:induction false} OneTurnPerRound(h: Hearts, es: seq<Event>, x: nat)
    requires Ok(h) && Legal(h, es) && x in h.flagged && Undisturbed(h, es, x)
    ensures Turns(h, es, x) + Due(After(h, es), x) <= Due(h, x) + Rounds(es)
    ensures Uncut(es) ==> Turns(h, es, x) + Due(After(h, es), x) == Due(h, x) + Rounds(es)
    decreases |es|
  {
    hide Ok, Done, EntryOf, Due;
    if es != [] {
      var init, e := es[..|es| - 1], es[|es| - 1];
      OneTurnPerRound(h, init, x);
      CallsOverRun(h, init, x, 0);
      DueAfter(After(h, init), e, x);
      assert es == init + [e];
    }
  }

  /** An object that has asked for a heart beat every `period` rounds is called in every period-th round,
      whatever the other objects do to the list. */
  lemma {:induction false} CalledOncePerPeriod(h: Hearts, es: seq<Event>, x: nat, period: int)
    requires Ok(h) && h.round.Idle? && Legal(h, es) && After(h, es).round.Idle? && Uncut(es)
    requires x in h.flagged && EntryOf(h, x) == Beat(x, period, period) && period >= 1 && Undisturbed(h, es, x)
    ensures Calls(h, es, x) == Rounds(es) / period
  {
    hide Ok, Done, EntryOf, Legal, After, Calls, Turns, Undisturbed, Rounds, Uncut;
    CallsOverRun(h, es, x, 0);
    OneTurnPerRound(h, es, x);
    BeatsOncePerPeriod(period, period, Rounds(es));
  }

  // ---------- Rounds end ----------

  /** The turns a round can still have. */
  function Left(h: Hearts): int {
    if h.round.Idle? then 0 else if h.calling then h.todo - h.index - 1 else h.todo - h.index
  }

  lemma {:induction false} LeftAfter(h: Hearts, e: Event)
    requires Ok(h) && Can(h, e)
    ensures 0 <= Left(h) && 0 <= Left(Done(h, e))
    ensures !e.Begins? ==> Left(Done(h, e)) <= Left(h) - if e.Turn? then 1 else 0
    ensures e.Begins? ==> Left(Done(h, e)) == |h.beats|
  {}

  // ---------- The loop ----------

  /** What an object does in its turn: whether it has a heart_beat function, what that does to the list,
      and whether the time of the round is up when it returns. */
  datatype Reaction = Reaction(hasFunction: bool, sets: seq<(nat, int)>, timeIsUp: bool)

  /** call_heart_beat: one round, whatever the objects do.  The result lists the objects that are called. */
  method CallHeartBeat(hb: HeartBeats, script: nat -> Reaction) returns (calls: seq<nat>, ghost es: seq<Event>)
    requires hb.Valid() && hb.round.Idle?
    modifies hb
    ensures hb.Valid() && hb.round.Idle? && |calls| <= |old(hb.heartBeats)|
    ensures Legal(old(hb.State()), es) && hb.State() == After(old(hb.State()), es)
    ensures calls == Called(old(hb.State()), es) && Rounds(es) == if old(hb.heartBeats) == [] then 0 else 1
    ensures (forall k :: !script(k).timeIsUp) ==> Uncut(es)
  {
    ghost var h := hb.State();
    calls, es := [], [];
    var any := hb.Begin();
    if !any { return; }
    AfterOneMore(h, es, Begins);
    es := es + [Begins];
    assert hb.State() == After(h, es);
    var more, k := true, 0;
    while more
      invariant hb.Valid() && more == hb.round.Going? && !hb.calling
      invariant Legal(h, es) && hb.State() == After(h, es) && calls == Called(h, es) && Rounds(es) == 1
      invariant |calls| + Left(hb.State()) <= |h.beats|
      invariant (forall k :: !script(k).timeIsUp) ==> Uncut(es)
      decreases Left(hb.State()) + if more then 1 else 0
    {
      var r := script(k);
      calls, more, es := OneTurn(hb, r, calls, h, es);
      k := k + 1;
    }
  }

  /** The body of the loop. */
  method OneTurn(hb: HeartBeats, r: Reaction, calls0: seq<nat>, ghost h: Hearts, ghost es0: seq<Event>)
    returns (calls: seq<nat>, more: bool, ghost es: seq<Event>)
    requires hb.Valid() && hb.round.Going? && !hb.calling && Ok(h)
    requires Legal(h, es0) && hb.State() == After(h, es0) && calls0 == Called(h, es0)
    modifies hb
    ensures hb.Valid() && more == hb.round.Going? && !hb.calling
    ensures Legal(h, es) && hb.State() == After(h, es) && calls == Called(h, es) && Rounds(es) == Rounds(es0)
    ensures 0 <= Left(hb.State()) <= Left(old(hb.State())) - 1 && |calls| <= |calls0| + 1
    ensures Uncut(es0) && !r.timeIsUp ==> Uncut(es)
  {
    hide Ok, Legal, After, Called, Rounds, Done;
    calls, es := calls0, es0;
    LeftAfter(hb.State(), Turn(r.hasFunction));
    AfterOneMore(h, es, Turn(r.hasFunction));
    var ob, called := hb.Serve(r.hasFunction);
    es := es + [Turn(r.hasFunction)];
    if called { calls := calls + [ob]; }
    DoneIs(After(h, es0), Turn(r.hasFunction));
    assert hb.State() == After(h, es) && calls == Called(h, es);
    if called { es := React(hb, r.sets, h, es); }
    LeftAfter(hb.State(), EndsTurn(r.timeIsUp));
    AfterOneMore(h, es, EndsTurn(r.timeIsUp));
    DoneIs(After(h, es), EndsTurn(r.timeIsUp));
    more := hb.Advance(r.timeIsUp);
    es := es + [EndsTurn(r.timeIsUp)];
  }

  lemma {:induction false} DoneIs(h: Hearts, e: Event)
    requires Ok(h) && Can(h, e)
    ensures e.Turn? ==> Done(h, e) == Served(h, e.hasFunction)
    ensures e.EndsTurn? ==> Done(h, e) == Advanced(h, e.timeIsUp)
    ensures e.Sets? ==> Done(h, e) == SetTo(h, e.ob, e.to) && Left(Done(h, e)) <= Left(h) && (h.calling ==> Done(h, e).calling)
  {}

  /** What the called object does to the list. */
  method React(hb: HeartBeats, sets: seq<(nat, int)>, ghost h: Hearts, ghost es0: seq<Event>) returns (ghost es: seq<Event>)
    requires hb.Valid() && hb.calling && Ok(h) && Legal(h, es0) && hb.State() == After(h, es0)
    modifies hb
    ensures hb.Valid() && hb.calling && Legal(h, es) && hb.State() == After(h, es) && Called(h, es) == Called(h, es0)
    ensures Rounds(es) == Rounds(es0) && Left(hb.State()) <= Left(old(hb.State()))
    ensures Uncut(es0) ==> Uncut(es)
  {
    hide Ok, Legal, After, Called, Rounds, Done, Left, SetTo;
    es := es0;
    var k := 0;
    while k < |sets|
      invariant 0 <= k <= |sets| && hb.Valid() && hb.calling && Legal(h, es) && hb.State() == After(h, es)
      invariant Called(h, es) == Called(h, es0) && Rounds(es) == Rounds(es0) && Left(hb.State()) <= Left(old(hb.State()))
      invariant Uncut(es0) ==> Uncut(es)
    {
      ghost var e := Sets(sets[k].0, sets[k].1);
      AfterOneMore(h, es, e);
      DoneIs(After(h, es), e);
      var done := hb.SetHeartBeat(sets[k].0, sets[k].1, false);
      es := es + [e];
      k := k + 1;
    }
  }
}
