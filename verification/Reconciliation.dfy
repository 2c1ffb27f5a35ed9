/**
 A whole scheduling pass, with any calls of workers between its statements: it leaves exactly
 the configured replicas, and a second pass changes nothing.
 */
module Reconciliation {
  import opened Scheduling
  import opened LeaseProtocol

  ghost predicate IsCall(e: Event) { e.LeaseCall? || e.ReleaseCall? }

  /** Any number of lease and release calls between two statements of the pass. */
  ghost predicate Calls(states: seq<State>, events: seq<Event>, cfg: Config, groupOf: nat -> Group) {
    && |states| == |events| + 1
    && forall i :: 0 <= i < |events| ==>
         IsCall(events[i]) && Next(states[i], events[i], states[i + 1], cfg, groupOf)
  }

  lemma {:induction false} CallsKeepStanding(states: seq<State>, events: seq<Event>, cfg: Config, groupOf: nat -> Group, n: nat)
    requires Calls(states, events, cfg, groupOf) && n < |states|
    ensures SameStanding(states[0].db, states[n].db)
  {
    if n == 0 {
    } else {
      CallsKeepStanding(states, events, cfg, groupOf, n - 1);
      var s, s' := states[n - 1], states[n];
      match events[n - 1]
      case LeaseCall(w, capacity, now, ttl, own) => LeaseCallKeepsStanding(s.db, s'.db, w, capacity, now, ttl, own);
      case ReleaseCall(w, ids) => ReleaseKeepsStanding(s.db, GivenBack(s.db, w, ids));
    }
  }

  lemma MarkedActive(db: Db, eligible: Routing, t: nat)
    ensures ActiveOf(Marked(db, eligible), t) == if t in eligible then ActiveOf(db, t) else {}
  {
  }

  lemma DrainKeepsActive(db: Db, t: nat)
    ensures ActiveOf(DrainReleased(db), t) == ActiveOf(db, t)
    ensures ActiveOf(DrainClosed(db), t) == ActiveOf(db, t)
  {
  }

  lemma NoneDraining(db: Db, db': Db, db'': Db, eligible: Routing, cfg: Config, groupOf: nat -> Group, a: nat)
    requires SameStanding(DrainClosed(db), db') && Generated(db', db'', eligible, cfg, groupOf)
    ensures !Has(db'', a, Draining)
  {
    assert !Has(DrainClosed(db), a, Draining);
    assert a in db''.assignments && a !in db'.assignments ==> NewReplica(db''.assignments[a], eligible, cfg, groupOf);
  }

  /** What the statements of a pass did to the replicas of one target, whatever calls came in between. */
  lemma PassExact(d0: Db, d1: Db, d2: Db, d3: Db, d4: Db, eligible: Routing, cfg: Config, groupOf: nat -> Group, t: nat)
    requires Bounded(d0, cfg.redundancy)
    requires SameStanding(Marked(d0, eligible), d1)
    requires SameStanding(DrainReleased(d1), d2)
    requires SameStanding(DrainClosed(d2), d3)
    requires Generated(d3, d4, eligible, cfg, groupOf)
    ensures |ActiveOf(d4, t)| == if t in eligible then cfg.redundancy else 0
  {
    MarkedActive(d0, eligible, t);
    DrainKeepsActive(d1, t);
    DrainKeepsActive(d2, t);
    assert ActiveOf(d3, t) == if t in eligible then ActiveOf(d0, t) else {};
    GenerateCounts(d3, d4, eligible, cfg, groupOf, t);
  }

  /**
   A pass of the scheduler with routing unchanged, interleaved with any calls of workers:
   afterwards each eligible target has exactly the configured replicas, any other none.
   */
  lemma ReconcileExact(s0: State, a: seq<State>, ea: seq<Event>, b: seq<State>, eb: seq<Event>, c: seq<State>, ec: seq<Event>,
                       s4: State, eligible: Routing, cfg: Config, groupOf: nat -> Group, t: nat)
    requires Bounded(s0.db, cfg.redundancy)
    requires Calls(a, ea, cfg, groupOf) && Calls(b, eb, cfg, groupOf) && Calls(c, ec, cfg, groupOf)
    requires Next(s0, Mark(eligible), a[0], cfg, groupOf)
    requires Next(a[|ea|], ReleaseDrained, b[0], cfg, groupOf)
    requires Next(b[|eb|], CloseDrained, c[0], cfg, groupOf)
    requires Next(c[|ec|], Generate(eligible), s4, cfg, groupOf)
    ensures |ActiveOf(s4.db, t)| == if t in eligible then cfg.redundancy else 0
    ensures forall x :: !Has(s4.db, x, Draining)
  {
    CallsKeepStanding(a, ea, cfg, groupOf, |ea|);
    CallsKeepStanding(b, eb, cfg, groupOf, |eb|);
    CallsKeepStanding(c, ec, cfg, groupOf, |ec|);
    PassExact(s0.db, a[|ea|].db, b[|eb|].db, c[|ec|].db, s4.db, eligible, cfg, groupOf, t);
    forall x { NoneDraining(b[|eb|].db, c[|ec|].db, s4.db, eligible, cfg, groupOf, x); }
  }

  /** A second pass over exact tables changes nothing at all. */
  lemma ReconcileIdempotent(db: Db, db': Db, eligible: Routing, cfg: Config, groupOf: nat -> Group)
    requires forall t :: |ActiveOf(db, t)| == if t in eligible then cfg.redundancy else 0
    requires forall a :: !Has(db, a, Draining)
    requires Generated(DrainClosed(DrainReleased(Marked(db, eligible))), db', eligible, cfg, groupOf)
    ensures db' == db
  {
    forall a | a in db.assignments && db.assignments[a].Active() ensures db.assignments[a].target in eligible {
      assert a in ActiveOf(db, db.assignments[a].target);
    }
    assert Marked(db, eligible).assignments == db.assignments;
    assert DrainReleased(db).leases == db.leases;
    forall a | a in db.assignments ensures DrainClosed(db).assignments[a] == db.assignments[a] {
      assert !Has(db, a, Draining);
    }
    assert DrainClosed(db).assignments == db.assignments;
    forall a | a in db'.assignments ensures a in db.assignments {
      assert Filled(db, db', eligible, cfg, db'.assignments[a].target);
      assert a !in Added(db, db', db'.assignments[a].target);
    }
    assert db'.assignments == db.assignments;
  }

  /** Two passes in a row with routing unchanged: the second leaves the tables as they are. */
  lemma ReconcileTwice(db: Db, db1: Db, db2: Db, eligible: Routing, cfg: Config, groupOf: nat -> Group)
    requires Bounded(db, cfg.redundancy)
    requires Generated(DrainClosed(DrainReleased(Marked(db, eligible))), db1, eligible, cfg, groupOf)
    requires Generated(DrainClosed(DrainReleased(Marked(db1, eligible))), db2, eligible, cfg, groupOf)
    ensures db2 == db1
  {
    var d1 := Marked(db, eligible);
    var d2 := DrainReleased(d1);
    forall t { PassExact(db, d1, d2, DrainClosed(d2), db1, eligible, cfg, groupOf, t); }
    forall a { NoneDraining(d2, DrainClosed(d2), db1, eligible, cfg, groupOf, a); }
    ReconcileIdempotent(db1, db2, eligible, cfg, groupOf);
  }
}
