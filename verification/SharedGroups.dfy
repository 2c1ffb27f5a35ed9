/**
 Why the bound on a redundancy group needs the group to belong to one target: if two targets
 derive the same group, a run ends with more live leases in it than the configured redundancy.
 */
module SharedGroups {
  import opened Scheduling
  import opened LeaseProtocol

  const ONE_EACH := Config(1, 30, 60, 120, 15)

  function Replica(t: nat, g: Group, st: Status): Assignment { Assignment(t, "p", 30, g, st) }

  function Both(t: nat, u: nat): Routing { map[t := Listing("p", 10), u := Listing("p", 10)] }

  function Pair(t: nat, u: nat, g: Group, first: Status, second: Status): map<nat, Assignment> {
    map[0 := Replica(t, g, first), 1 := Replica(u, g, second)]
  }

  const NONE := Db(map[], map[])

  function Generated2(t: nat, u: nat, g: Group): Db { Db(Pair(t, u, g, Open, Open), map[]) }

  function Claimed1(t: nat, u: nat, g: Group): Db { Db(Pair(t, u, g, Leased, Open), map[0 := Lease(0, "a", 0, true)]) }

  function Claimed2(t: nat, u: nat, g: Group): Db {
    Db(Pair(t, u, g, Leased, Leased), map[0 := Lease(0, "a", 0, true), 1 := Lease(1, "b", 0, true)])
  }

  lemma AddsOneEach(t: nat, u: nat, g: Group, x: nat)
    requires t != u
    ensures Added(NONE, Generated2(t, u, g), x) == if x == t then {0} else if x == u then {1} else {}
  {
    var db := Generated2(t, u, g);
    assert db.assignments[0].target == t && db.assignments[1].target == u;
    forall a ensures a in Added(NONE, db, x) <==> (a == 0 && x == t) || (a == 1 && x == u) {}
  }

  lemma GeneratesBoth(t: nat, u: nat, groupOf: nat -> Group)
    requires t != u && groupOf(t) == groupOf(u)
    ensures Generated(NONE, Generated2(t, u, groupOf(t)), Both(t, u), ONE_EACH, groupOf)
  {
    var db' := Generated2(t, u, groupOf(t));
    forall x ensures Filled(NONE, db', Both(t, u), ONE_EACH, x) {
      assert ActiveOf(NONE, x) == {};
      AddsOneEach(t, u, groupOf(t), x);
    }
  }

  /** At time zero and with no time to live, nothing here is renewed or expired. */
  lemma NothingReaped(db: Db, w: Worker)
    requires forall l :: l in db.leases ==> db.leases[l].expires == 0
    ensures Reaped(db, w, 0, 0) == db
  {
    assert Renewed(db, w, 0) == db;
    assert Expired(db, 0) == {};
    assert Released(db, {}) == db;
  }

  /** A worker that holds nothing claims the one candidate there is. */
  lemma ClaimsOne(db: Db, db': Db, w: Worker, a: nat)
    requires forall l :: l in db.leases ==> db.leases[l].expires == 0 && db.leases[l].worker != w
    requires Candidates(db, w, {}) == {a} && Granted(db, db', w, {a}, 0)
    ensures LeaseStep(db, db', w, 1, 0, 0, {})
  {
    NothingReaped(db, w);
    assert Held(db, w) == {};
    assert FirstOf({a}, Candidates(db, w, {}), 1);
  }

  lemma FirstClaim(t: nat, u: nat, g: Group)
    ensures LeaseStep(Generated2(t, u, g), Claimed1(t, u, g), "a", 1, 0, 0, {})
  {
    var db, db' := Generated2(t, u, g), Claimed1(t, u, g);
    assert Candidates(db, "a", {}) == {0} by { assert Claimable(db, "a", {}, 0); }
    assert Granted(db, db', "a", {0}, 0) by { assert NewLease(db, db', 0, 0); }
    ClaimsOne(db, db', "a", 0);
  }

  lemma OnlySecondLeft(t: nat, u: nat, g: Group)
    ensures Candidates(Claimed1(t, u, g), "b", {}) == {1}
  {
    var db := Claimed1(t, u, g);
    assert Claimable(db, "b", {}, 1) && !Claimable(db, "b", {}, 0);
  }

  lemma GrantsSecond(t: nat, u: nat, g: Group)
    ensures Granted(Claimed1(t, u, g), Claimed2(t, u, g), "b", {1}, 0)
  {
    assert NewLease(Claimed1(t, u, g), Claimed2(t, u, g), 1, 1);
  }

  lemma SecondClaim(t: nat, u: nat, g: Group)
    ensures LeaseStep(Claimed1(t, u, g), Claimed2(t, u, g), "b", 1, 0, 0, {})
  {
    var db, db' := Claimed1(t, u, g), Claimed2(t, u, g);
    OnlySecondLeft(t, u, g);
    GrantsSecond(t, u, g);
    ClaimsOne(db, db', "b", 1);
  }

  lemma LongerRun(states: seq<State>, events: seq<Event>, groupOf: nat -> Group, e: Event, s': State)
    requires IsRun(states, events, ONE_EACH, groupOf) && Next(states[|events|], e, s', ONE_EACH, groupOf)
    ensures IsRun(states + [s'], events + [e], ONE_EACH, groupOf)
  {
    var all, done := states + [s'], events + [e];
    forall i | 0 <= i < |done| ensures Next(all[i], done[i], all[i + 1], ONE_EACH, groupOf) {
      if i < |events| { assert all[i] == states[i] && all[i + 1] == states[i + 1] && done[i] == events[i]; }
    }
  }

  /** A scheduling pass over empty tables. */
  lemma FirstPass(t: nat, u: nat, groupOf: nat -> Group) returns (states: seq<State>, events: seq<Event>)
    requires t != u && groupOf(t) == groupOf(u)
    ensures IsRun(states, events, ONE_EACH, groupOf)
    ensures states[|events|] == State(Generated2(t, u, groupOf(t)), Idle)
  {
    assert Marked(NONE, Both(t, u)) == NONE && DrainReleased(NONE) == NONE && DrainClosed(NONE) == NONE;
    GeneratesBoth(t, u, groupOf);
    events := [Mark(Both(t, u)), ReleaseDrained, CloseDrained, Generate(Both(t, u))];
    states := [State(NONE, Idle), State(NONE, AfterMark), State(NONE, AfterRelease), State(NONE, AfterClose),
               State(Generated2(t, u, groupOf(t)), Idle)];
  }

  lemma FirstHolder(t: nat, u: nat, groupOf: nat -> Group) returns (states: seq<State>, events: seq<Event>)
    requires t != u && groupOf(t) == groupOf(u)
    ensures IsRun(states, events, ONE_EACH, groupOf)
    ensures states[|events|] == State(Claimed1(t, u, groupOf(t)), Idle)
  {
    var first, end := LeaseCall("a", 1, 0, 0, {}), State(Claimed1(t, u, groupOf(t)), Idle);
    states, events := FirstPass(t, u, groupOf);
    FirstClaim(t, u, groupOf(t));
    LongerRun(states, events, groupOf, first, end);
    states, events := states + [end], events + [first];
  }

  lemma BothHeld(t: nat, u: nat, g: Group)
    ensures HoldingGroup(Claimed2(t, u, g), g) == {0, 1}
  {
    forall l ensures l in HoldingGroup(Claimed2(t, u, g), g) <==> l == 0 || l == 1 {}
  }

  /** With redundancy one, two workers end up holding leases in the shared group. */
  lemma SharedGroupExceeds(t: nat, u: nat, groupOf: nat -> Group) returns (states: seq<State>, events: seq<Event>)
    requires t != u && groupOf(t) == groupOf(u)
    ensures IsRun(states, events, ONE_EACH, groupOf)
    ensures |HoldingGroup(states[|events|].db, groupOf(t))| > ONE_EACH.redundancy
  {
    var g := groupOf(t);
    var second, end := LeaseCall("b", 1, 0, 0, {}), State(Claimed2(t, u, g), Idle);
    states, events := FirstHolder(t, u, groupOf);
    SecondClaim(t, u, g);
    LongerRun(states, events, groupOf, second, end);
    states, events := states + [end], events + [second];
    BothHeld(t, u, g);
  }

  /** The group is bounded in every run with redundancy one exactly when it belongs to one target alone. */
  lemma GroupBoundExactly(groupOf: nat -> Group, g: Group)
    ensures OwnGroup(groupOf, g) <==>
            forall states: seq<State>, events, n: nat :: IsRun(states, events, ONE_EACH, groupOf) && n < |states| ==>
              |HoldingGroup(states[n].db, g)| <= ONE_EACH.redundancy
  {
    if OwnGroup(groupOf, g) {
      forall states: seq<State>, events, n: nat | IsRun(states, events, ONE_EACH, groupOf) && n < |states|
        ensures |HoldingGroup(states[n].db, g)| <= ONE_EACH.redundancy
      {
        RedundancyInEveryRun(states, events, ONE_EACH, groupOf, n, 0, g);
      }
    } else {
      var t: nat, u: nat :| groupOf(t) == g && groupOf(u) == g && t != u;
      var states, events := SharedGroupExceeds(t, u, groupOf);
    }
  }
}
