/** Who watches whom (src/comm.c): the snoop_on and snoop_by links of the users. */
module Snooping {
  import opened Basics

  class User {
    var snoopOn: User?
    var snoopBy: User?

    constructor ()
      ensures snoopOn == null && snoopBy == null
    {
      snoopOn, snoopBy := null, null;
    }
  }

  /** An object that is given to snoop(): perhaps destructed, perhaps without a user. */
  datatype Target = Target(destructed: bool, interactive: User?)

  datatype Answer = Done | Refused | Error

  /** The two links are inverse to each other. */
  ghost predicate Mutual(users: set<User>)
    reads users
  {
    forall u :: u in users ==>
      && (u.snoopOn != null ==> u.snoopOn in users && u.snoopOn.snoopBy == u)
      && (u.snoopBy != null ==> u.snoopBy in users && u.snoopBy.snoopOn == u)
  }

  /** Nobody snoops himself, not even by way of others: every link leads to a user of lower rank. */
  ghost predicate Ranked(users: set<User>, rank: map<User, nat>)
    reads users
  {
    forall u :: u in users ==> u in rank && (u.snoopOn != null ==> u.snoopOn in rank && rank[u.snoopOn] < rank[u])
  }

  /** Whether `watcher` is met on the way from u along the snoop_on links. */
  ghost predicate Meets(u: User?, watcher: User, users: set<User>, rank: map<User, nat>)
    requires Mutual(users) && Ranked(users, rank) && (u != null ==> u in users)
    reads users
    decreases if u == null then 0 else 1 + rank[u]
  {
    u != null && (u == watcher || Meets(u.snoopOn, watcher, users, rank))
  }

  /** The user that is met after n links. */
  ghost function After(u: User, n: nat, users: set<User>): User?
    requires Mutual(users) && u in users
    reads users
    decreases n
  {
    if n == 0 then u else if u.snoopOn == null then null else After(u.snoopOn, n - 1, users)
  }

  /** The relation is acyclic. */
  lemma {:induction false} NobodySnoopsHimself(u: User, n: nat, users: set<User>, rank: map<User, nat>)
    requires Mutual(users) && Ranked(users, rank) && u in users && n > 0
    ensures After(u, n, users) != u
  {
    RankFalls(u, n, users, rank);
  }

  lemma {:induction false} RankFalls(u: User, n: nat, users: set<User>, rank: map<User, nat>)
    requires Mutual(users) && Ranked(users, rank) && u in users && n > 0
    ensures var v := After(u, n, users); v != null ==> v in rank && rank[v] < rank[u]
    decreases n
  {
    if n > 1 && u.snoopOn != null { RankFalls(u.snoopOn, n - 1, users, rank); }
    else if u.snoopOn != null { assert After(u.snoopOn, 0, users) == u.snoopOn; }
  }

  /** The one watches the other now; what either of them did before has ended. */
  twostate predicate Rewired(watcher: User, watched: User, users: set<User>)
    reads users
  {
    forall u :: u in users ==>
      && u.snoopOn == (if u == watcher then watched else if u == old(watched.snoopBy) then null else old(u.snoopOn))
      && u.snoopBy == if u == watched then watcher else if u == old(watcher.snoopOn) then null else old(u.snoopBy)
  }

  class Snoops {
    ghost var users: set<User>
    ghost var rank: map<User, nat>

    ghost predicate Valid()
      reads this, users
    {
      Mutual(users) && Ranked(users, rank)
    }

    constructor ()
      ensures Valid() && users == {}
    {
      users, rank := {}, map[];
    }

    /** A user connects. */
    method Connect() returns (u: User)
      requires Valid()
      modifies this
      ensures Valid() && fresh(u) && users == old(users) + {u} && u.snoopOn == null && u.snoopBy == null
    {
      u := new User();
      users := users + {u};
      rank := rank[u := 0];
    }

    /** Ends what the user watches. */
    method StopWatching(watcher: User)
      requires Valid() && watcher in users
      modifies users
      ensures Valid() && watcher.snoopOn == null && watcher.snoopBy == old(watcher.snoopBy)
      ensures forall u :: u in users && u != watcher ==> u.snoopOn == old(u.snoopOn)
      ensures forall u :: u in users && u != watcher ==> u.snoopBy == if u == old(watcher.snoopOn) then null else old(u.snoopBy)
    {
      if watcher.snoopOn != null {
        watcher.snoopOn.snoopBy := null;
        watcher.snoopOn := null;
      }
    }

    /** Ends that the user is watched. */
    method StopWatcher(watched: User)
      requires Valid() && watched in users
      modifies users
      ensures Valid() && watched.snoopBy == null && watched.snoopOn == old(watched.snoopOn)
      ensures forall u :: u in users && u != watched ==> u.snoopBy == old(u.snoopBy)
      ensures forall u :: u in users && u != watched ==> u.snoopOn == if u == old(watched.snoopBy) then null else old(u.snoopOn)
    {
      if watched.snoopBy != null {
        watched.snoopBy.snoopOn := null;
        watched.snoopBy := null;
      }
    }

    /** new_set_snoop: `me` shall watch `you`, or nobody when that is missing.  Refused when that would make
        a circle; otherwise what either of them did before ends. */
    method SetSnoop(me: Target, you: Option<Target>) returns (answer: Answer)
      requires Valid() && (me.interactive != null ==> me.interactive in users)
      requires you.Some? && you.value.interactive != null ==> you.value.interactive in users
      modifies users, `rank
      ensures Valid()
      ensures answer != Done ==> forall u :: u in users ==> u.snoopOn == old(u.snoopOn) && u.snoopBy == old(u.snoopBy)
      ensures me.destructed || (you.Some? && you.value.destructed) ==> answer == Refused
      ensures !me.destructed && !(you.Some? && you.value.destructed) ==>
        && (answer == Error <==> me.interactive == null || (you.Some? && you.value.interactive == null))
        && (you.Some? && me.interactive != null && you.value.interactive != null ==>
              (answer == Refused <==> old(Meets(you.value.interactive, me.interactive, users, rank))))
      ensures answer == Done && you.None? ==>
        forall u :: u in users ==>
          && u.snoopOn == (if u == me.interactive then null else old(u.snoopOn))
          && u.snoopBy == if u == old(me.interactive.snoopOn) then null else old(u.snoopBy)
      ensures answer == Done && you.Some? ==>
        Rewired(me.interactive, you.value.interactive, users)
    {
      if me.destructed || (you.Some? && you.value.destructed) { return Refused; }
      if me.interactive == null { return Error; }
      if you.None? {
        StopWatching(me.interactive);
        return Done;
      }
      if you.value.interactive == null { return Error; }
      answer := StartSnoop(me.interactive, you.value.interactive);
    }

    /** Whether the one who shall watch is met on the way from the one to be watched. */
    method IsMet(watched: User, watcher: User) returns (met: bool)
      requires Valid() && watched in users && watcher in users
      ensures met == Meets(watched, watcher, users, rank)
    {
      var tmp: User? := watched;
      while tmp != null
        invariant tmp != null ==> tmp in users
        invariant Meets(watched, watcher, users, rank) == Meets(tmp, watcher, users, rank)
        decreases if tmp == null then 0 else 1 + rank[tmp]
      {
        if tmp == watcher { return true; }
        tmp := tmp.snoopOn;
      }
      return false;
    }

    /** The second half of new_set_snoop: no circles, then the old links end and the new one is made. */
    method StartSnoop(watcher: User, watched: User) returns (answer: Answer)
      requires Valid() && watched in users && watcher in users
      modifies users, `rank
      ensures Valid()
      ensures answer == if old(Meets(watched, watcher, users, rank)) then Refused else Done
      ensures answer == Refused ==> forall u :: u in users ==> u.snoopOn == old(u.snoopOn) && u.snoopBy == old(u.snoopBy)
      ensures answer == Done ==> Rewired(watcher, watched, users)
    {
      var met := IsMet(watched, watcher);
      if met { return Refused; }
      ghost var way := Way(watched, users, rank);
      WayIsClosed(watched, watcher, users, rank);
      assert watched in way;
      StopWatching(watcher);
      StopWatcher(watched);
      ClosedNeverMeets(watched, watcher, way, users, rank);
      Link(watcher, watched);
      return Done;
    }

    /** The last step of new_set_snoop. */
    method Link(watcher: User, watched: User)
      requires Valid() && watcher in users && watched in users && watcher.snoopOn == null && watched.snoopBy == null
      requires !Meets(watched, watcher, users, rank)
      modifies users, `rank
      ensures Valid() && watcher.snoopOn == watched && watched.snoopBy == watcher
      ensures forall u :: u in users && u != watcher ==> u.snoopOn == old(u.snoopOn)
      ensures forall u :: u in users && u != watched ==> u.snoopBy == old(u.snoopBy)
    {
      RaisedIsRanked(watcher, watched, users, rank);
      rank := Raised(watcher, watched, users, rank);
      watched.snoopBy := watcher;
      watcher.snoopOn := watched;
    }

    /** The part of remove_interactive that ends the user's links. */
    method Disconnect(ip: User)
      requires Valid() && ip in users
      modifies this, users
      ensures Valid() && users == old(users) - {ip}
      ensures forall u :: u in users ==>
        && u.snoopOn == (if u == old(ip.snoopBy) then null else old(u.snoopOn))
        && u.snoopBy == if u == old(ip.snoopOn) then null else old(u.snoopBy)
    {
      StopWatcher(ip);
      StopWatching(ip);
      users := users - {ip};
    }
  }

  /** The links do not lead out of the set. */
  ghost predicate Closed(s: set<User>, users: set<User>)
    reads users
  {
    s <= users && forall u :: u in s ==> u.snoopOn == null || u.snoopOn in s
  }

  lemma {:induction false} ClosedNeverMeets(u: User?, watcher: User, s: set<User>, users: set<User>, rank: map<User, nat>)
    requires Mutual(users) && Ranked(users, rank) && Closed(s, users) && (u != null ==> u in s) && watcher !in s
    ensures !Meets(u, watcher, users, rank)
    decreases if u == null then 0 else 1 + rank[u]
  {
    if u != null { ClosedNeverMeets(u.snoopOn, watcher, s, users, rank); }
  }

  /** The users that are met from u on. */
  ghost function Way(u: User?, users: set<User>, rank: map<User, nat>): set<User>
    requires Mutual(users) && Ranked(users, rank) && (u != null ==> u in users)
    reads users
    decreases if u == null then 0 else 1 + rank[u]
  {
    if u == null then {} else {u} + Way(u.snoopOn, users, rank)
  }

  lemma {:induction false} WayIsClosed(u: User?, watcher: User, users: set<User>, rank: map<User, nat>)
    requires Mutual(users) && Ranked(users, rank) && (u != null ==> u in users)
    ensures Closed(Way(u, users, rank), users) && (watcher in Way(u, users, rank) <==> Meets(u, watcher, users, rank))
    decreases if u == null then 0 else 1 + rank[u]
  {
    if u != null { WayIsClosed(u.snoopOn, watcher, users, rank); }
  }

  /** Those who meet the watcher rise above everybody whom the watched one meets. */
  ghost function Raised(watcher: User, watched: User, users: set<User>, rank: map<User, nat>): map<User, nat>
    requires Mutual(users) && Ranked(users, rank) && watched in users
    reads users
  {
    map u | u in users :: if Meets(u, watcher, users, rank) then rank[u] + rank[watched] + 1 else rank[u]
  }

  lemma {:induction false} RaisedIsRanked(watcher: User, watched: User, users: set<User>, rank: map<User, nat>)
    requires Mutual(users) && Ranked(users, rank) && watcher in users && watched in users
    requires watcher.snoopOn == null && !Meets(watched, watcher, users, rank)
    ensures
      var raised := Raised(watcher, watched, users, rank);
      && raised[watched] < raised[watcher]
      && forall u :: u in users && u.snoopOn != null ==> raised[u.snoopOn] < raised[u]
  {}
}
