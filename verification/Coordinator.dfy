/**
 The handlers and statements as code over the scheduling tables. Each is proved to take the
 step the protocol of LeaseProtocol reasons about.
 */
module Coordinator {
  import opened Scheduling
  import opened LeaseProtocol
  import opened LeaseCalls
  import opened Reconciliation

  method Least(s: set<nat>) returns (m: nat)
    requires s != {}
    ensures m in s && forall x :: x in s ==> m <= x
  {
    m :| m in s;
    var rest := s - {m};
    while rest != {}
      invariant m in s && rest <= s
      invariant forall x :: x in s && x !in rest ==> m <= x
      decreases rest
    {
      var x :| x in rest;
      if x < m { m := x; }
      rest := rest - {x};
    }
  }

  /** `order by id limit`: the first ids of the set. */
  method TakeFirst(all: set<nat>, limit: nat) returns (chosen: set<nat>)
    ensures FirstOf(chosen, all, limit)
  {
    chosen := {};
    var rest := all;
    while |chosen| < limit && rest != {}
      invariant chosen !! rest && all == chosen + rest && |chosen| <= limit
      invariant forall x, y :: x in chosen && y in rest ==> x < y
      decreases rest
    {
      var m := Least(rest);
      chosen, rest := chosen + {m}, rest - {m};
    }
    assert |all| == |chosen| + |rest|;
  }

  /** All ids given out so far are smaller than the next one. */
  ghost predicate Below(ids: set<nat>, next: nat) { forall i :: i in ids ==> i < next }

  /** The tables with one more assignment leased under a new lease. */
  function GrantOne(db: Db, w: Worker, a: nat, until: int, id: nat): Db
    requires a in db.assignments
  {
    Db(db.assignments[a := db.assignments[a].(status := Leased)], db.leases[id := Lease(a, w, until, true)])
  }

  lemma GrantNext(db: Db, mid: Db, w: Worker, done: set<nat>, until: int, a: nat, id: nat)
    requires Granted(db, mid, w, done, until)
    requires a in db.assignments && a !in done && id !in mid.leases
    ensures Granted(db, GrantOne(mid, w, a, until, id), w, done + {a}, until)
  {
    var db' := GrantOne(mid, w, a, until, id);
    forall b | b in done + {a} ensures exists l :: NewLease(db, db', l, b) {
      if b == a {
        assert NewLease(db, db', id, a);
      } else {
        var l :| NewLease(db, mid, l, b);
        assert NewLease(db, db', l, b);
      }
    }
    forall l, m, b | NewLease(db, db', l, b) && NewLease(db, db', m, b) ensures l == m {
      if b != a { assert NewLease(db, mid, l, b) && NewLease(db, mid, m, b); }
    }
  }

  /** Marks the chosen assignments leased and inserts one lease for each. */
  method Grant(db: Db, w: Worker, chosen: set<nat>, until: int, nextLease: nat) returns (db': Db, next: nat)
    requires chosen <= db.assignments.Keys && Below(db.leases.Keys, nextLease)
    ensures Granted(db, db', w, chosen, until)
    ensures nextLease <= next && Below(db'.leases.Keys, next)
  {
    db', next := db, nextLease;
    var todo := chosen;
    while todo != {}
      invariant todo <= chosen && nextLease <= next
      invariant Below(db'.leases.Keys, next)
      invariant Granted(db, db', w, chosen - todo, until)
      decreases todo
    {
      var a :| a in todo;
      GrantNext(db, db', w, chosen - todo, until, a, next);
      assert chosen - (todo - {a}) == (chosen - todo) + {a};
      db', next, todo := GrantOne(db', w, a, until, next), next + 1, todo - {a};
    }
    assert chosen - todo == chosen;
  }

  /** Claims open assignments up to the capacity left. */
  method Claim(db: Db, w: Worker, capacity: nat, until: int, own: set<Provider>, nextLease: nat) returns (db': Db, next: nat)
    requires Below(db.leases.Keys, nextLease)
    ensures ClaimUpTo(db, db', w, capacity, until, own) && db'.assignments.Keys == db.assignments.Keys
    ensures nextLease <= next && Below(db'.leases.Keys, next)
  {
    db', next := db, nextLease;
    var held := |Held(db, w)|;
    if capacity - held > 0 {
      var chosen := TakeFirst(Candidates(db, w, own), capacity - held);
      db', next := Grant(db, w, chosen, until, nextLease);
    }
    ClaimKeepsIds(db, db', w, capacity, until, own);
  }

  /** The statements of a lease call: renew, reap fleet-wide, claim up to capacity. */
  method LeaseTransaction(db: Db, w: Worker, capacity: nat, now: int, ttl: nat, own: set<Provider>, nextLease: nat)
    returns (db': Db, next: nat)
    requires Below(db.leases.Keys, nextLease)
    ensures LeaseStep(db, db', w, capacity, now, ttl, own)
    ensures db'.assignments.Keys == db.assignments.Keys
    ensures nextLease <= next && Below(db'.leases.Keys, next)
  {
    var reaped := Reaped(db, w, now, ttl);
    ReapKeepsIds(db, w, now, ttl);
    db', next := Claim(reaped, w, capacity, now + ttl, own, nextLease);
  }

  /** The assignments a lease call answers with: those the worker holds that are leased. */
  function Workload(db: Db, w: Worker): set<nat> {
    set l | l in db.leases && Holds(db, w, l) && Has(db, db.leases[l].assignment, Leased) :: db.leases[l].assignment
  }

  lemma AnswerIsRight(db: Db, db': Db, w: Worker, capacity: nat, now: int, ttl: nat, own: set<Provider>)
    requires LeaseStep(db, db', w, capacity, now, ttl, own)
    ensures WorkloadIs(db', w)
    ensures forall l :: l in db'.leases && l !in db.leases ==> db'.leases[l].assignment in Workload(db', w)
    ensures Safe(db) ==>
              forall l :: Holds(db, w, l) && Has(db, db.leases[l].assignment, Leased) ==> db.leases[l].assignment in Workload(db', w)
    ensures Safe(db') ==> forall l :: Live(db', l) && db'.leases[l].assignment in Workload(db', w) ==> db'.leases[l].worker == w
  {
    forall l | l in db'.leases && l !in db.leases ensures db'.leases[l].assignment in Workload(db', w) {
      LeaseCallEffect(db, db', w, capacity, now, ttl, own, l);
    }
    forall l | Safe(db) && Holds(db, w, l) && Has(db, db.leases[l].assignment, Leased)
      ensures db.leases[l].assignment in Workload(db', w)
    {
      StillHeld(db, db', w, capacity, now, ttl, own, l);
    }
  }

  /** What the answer means, lease by lease. */
  ghost predicate WorkloadIs(db: Db, w: Worker) {
    forall a :: a in Workload(db, w) <==>
      Has(db, a, Leased) && exists l :: l in db.leases && db.leases[l].live && db.leases[l].worker == w && db.leases[l].assignment == a
  }

  /** Two workers asking on the same safe tables are never answered with the same assignment. */
  lemma AnswersAreDisjoint(db: Db, w: Worker, w': Worker)
    requires Safe(db) && w != w'
    ensures Workload(db, w) !! Workload(db, w')
  {
    forall a | a in Workload(db, w) ensures a !in Workload(db, w') {
      var l :| l in db.leases && Holds(db, w, l) && db.leases[l].assignment == a;
      assert forall m :: Live(db, m) && db.leases[m].assignment == a ==> m == l;
    }
  }

  /** Inserts the missing replicas of one target. */
  method InsertMissing(ghost db: Db, mid: Db, have: nat, t: nat, eligible: Routing, cfg: Config, groupOf: nat -> Group,
                       first: nat, ghost done: set<nat>)
    returns (db': Db, next: nat)
    requires t in eligible && t !in done && have == |ActiveOf(db, t)|
    requires Inserted(db, mid, eligible, cfg, groupOf, done) && Below(mid.assignments.Keys, first)
    ensures Inserted(db, db', eligible, cfg, groupOf, done + {t})
    ensures first <= next && Below(db'.assignments.Keys, next)
  {
    var missing := if have < cfg.redundancy then cfg.redundancy - have else 0;
    var row := Assignment(t, eligible[t].provider, cfg.Interval(eligible[t].priority), groupOf(t), Open);
    db' := mid.(assignments := WithRows(mid.assignments, row, first, missing));
    InsertedNext(db, mid, db', eligible, cfg, groupOf, done, t, row, first, missing);
    next := first + missing;
  }

  /** Inserts the missing replicas of every eligible target. */
  method InsertReplicas(db: Db, eligible: Routing, cfg: Config, groupOf: nat -> Group, nextAssignment: nat)
    returns (db': Db, next: nat)
    requires Below(db.assignments.Keys, nextAssignment)
    ensures Generated(db, db', eligible, cfg, groupOf)
    ensures nextAssignment <= next && Below(db'.assignments.Keys, next)
  {
    db', next := db, nextAssignment;
    var todo := eligible.Keys;
    ghost var done: set<nat> := {};
    InsertedNone(db, eligible, cfg, groupOf);
    while todo != {}
      invariant todo !! done && todo + done == eligible.Keys && nextAssignment <= next
      invariant Below(db'.assignments.Keys, next)
      invariant Inserted(db, db', eligible, cfg, groupOf, done)
      decreases todo
    {
      var t :| t in todo;
      db', next := InsertMissing(db, db', |ActiveOf(db, t)|, t, eligible, cfg, groupOf, next, done);
      todo, done := todo - {t}, done + {t};
    }
    assert done == eligible.Keys;
    InsertedAll(db, db', eligible, cfg, groupOf);
  }

  /** The ids from `first` on, `n` of them. */
  function Ids(first: nat, n: nat): (s: set<nat>)
    ensures |s| == n && forall a :: a in s <==> first <= a < first + n
  {
    if n == 0 then {} else Ids(first, n - 1) + {first + n - 1}
  }

  /** The table with copies of a row under `n` new ids. */
  function WithRows(m: map<nat, Assignment>, row: Assignment, first: nat, n: nat): map<nat, Assignment> {
    m + map a | a in Ids(first, n) :: row
  }

  lemma WithRowsAt(m: map<nat, Assignment>, row: Assignment, first: nat, n: nat, a: nat)
    requires a in m ==> a < first
    ensures var m' := WithRows(m, row, first, n);
            && (a in m' <==> a in m || first <= a < first + n)
            && (a in m ==> m'[a] == m[a])
            && (first <= a < first + n ==> m'[a] == row)
  {
  }

  ghost predicate Inserted(db: Db, db': Db, eligible: Routing, cfg: Config, groupOf: nat -> Group, done: set<nat>) {
    && RowsKept(db, db', eligible, cfg, groupOf)
    && (forall t :: FilledOf(db, db', eligible, cfg, done, t))
  }

  /** Nothing is changed or lost, and what is new is a proper replica. */
  ghost predicate RowsKept(db: Db, db': Db, eligible: Routing, cfg: Config, groupOf: nat -> Group) {
    && db'.leases == db.leases
    && (forall a :: a in db.assignments ==> a in db'.assignments && db'.assignments[a] == db.assignments[a])
    && (forall a :: a in db'.assignments && a !in db.assignments ==> NewReplica(db'.assignments[a], eligible, cfg, groupOf))
  }

  lemma RowsKeptNext(db: Db, mid: Db, db': Db, eligible: Routing, cfg: Config, groupOf: nat -> Group,
                     row: Assignment, first: nat, n: nat)
    requires RowsKept(db, mid, eligible, cfg, groupOf) && NewReplica(row, eligible, cfg, groupOf)
    requires Below(mid.assignments.Keys, first)
    requires db' == mid.(assignments := WithRows(mid.assignments, row, first, n))
    ensures RowsKept(db, db', eligible, cfg, groupOf)
  {
    forall a: nat | a in db'.assignments && a !in db.assignments ensures NewReplica(db'.assignments[a], eligible, cfg, groupOf) {
      WithRowsAt(mid.assignments, row, first, n, a);
    }
  }

  /** Targets already processed have their missing slots filled; the others have gained nothing. */
  ghost predicate FilledOf(db: Db, db': Db, eligible: Routing, cfg: Config, done: set<nat>, t: nat) {
    if t in done then Filled(db, db', eligible, cfg, t) else Added(db, db', t) == {}
  }

  lemma InsertedNone(db: Db, eligible: Routing, cfg: Config, groupOf: nat -> Group)
    ensures Inserted(db, db, eligible, cfg, groupOf, {})
  {
    forall t ensures FilledOf(db, db, eligible, cfg, {}, t) {}
  }

  lemma InsertedAll(db: Db, db': Db, eligible: Routing, cfg: Config, groupOf: nat -> Group)
    requires Inserted(db, db', eligible, cfg, groupOf, eligible.Keys)
    ensures Generated(db, db', eligible, cfg, groupOf)
  {
    forall t ensures Filled(db, db', eligible, cfg, t) {
      assert FilledOf(db, db', eligible, cfg, eligible.Keys, t);
    }
  }

  lemma InsertedNext(db: Db, mid: Db, db': Db, eligible: Routing, cfg: Config, groupOf: nat -> Group, done: set<nat>,
                     t: nat, row: Assignment, first: nat, n: nat)
    requires Inserted(db, mid, eligible, cfg, groupOf, done)
    requires t in eligible && t !in done && row.target == t && NewReplica(row, eligible, cfg, groupOf)
    requires Below(mid.assignments.Keys, first)
    requires n == if |ActiveOf(db, t)| < cfg.redundancy then cfg.redundancy - |ActiveOf(db, t)| else 0
    requires db' == mid.(assignments := WithRows(mid.assignments, row, first, n))
    ensures Inserted(db, db', eligible, cfg, groupOf, done + {t})
  {
    RowsKeptNext(db, mid, db', eligible, cfg, groupOf, row, first, n);
    forall u ensures FilledOf(db, db', eligible, cfg, done + {t}, u) {
      assert FilledOf(db, mid, eligible, cfg, done, u);
      AddedNext(db, mid, db', t, row, first, n, u);
    }
  }

  lemma AddedNext(db: Db, mid: Db, db': Db, t: nat, row: Assignment, first: nat, n: nat, u: nat)
    requires Below(mid.assignments.Keys, first)
    requires forall a :: a in db.assignments ==> a in mid.assignments
    requires row.target == t && db' == mid.(assignments := WithRows(mid.assignments, row, first, n))
    ensures |Added(db, db', u)| == |Added(db, mid, u)| + if u == t then n else 0
  {
    var rows := if u == t then Ids(first, n) else {};
    forall a ensures a in Added(db, db', u) <==> a in Added(db, mid, u) + rows {
      WithRowsAt(mid.assignments, row, first, n, a);
    }
    assert Added(db, db', u) == Added(db, mid, u) + rows;
    assert Added(db, mid, u) !! rows;
  }

  lemma ClaimKeepsIds(db: Db, db': Db, w: Worker, capacity: nat, until: int, own: set<Provider>)
    requires ClaimUpTo(db, db', w, capacity, until, own)
    ensures db'.assignments.Keys == db.assignments.Keys
  {
  }

  datatype Response = BadRequest | Paused | Assigned(ids: set<nat>)

  /** The scheduling schema and the code that changes it. */
  class Tables {
    var assignments: map<nat, Assignment>
    var leases: map<nat, Lease>
    var nextAssignment: nat
    var nextLease: nat

    ghost predicate Valid()
      reads this
    {
      Below(assignments.Keys, nextAssignment) && Below(leases.Keys, nextLease)
    }

    function View(): Db
      reads this
    {
      Db(assignments, leases)
    }

    constructor ()
      ensures Valid() && View() == Db(map[], map[])
    {
      assignments, leases, nextAssignment, nextLease := map[], map[], 0, 0;
    }

    /** Renew, reap fleet-wide, then claim up to the capped capacity, in one transaction. */
    method LeaseAssignments(w: Worker, capacity: int, paused: bool, maxPerWorker: int, now: int, ttl: nat, own: set<Provider>)
      returns (r: Response)
      requires Valid()
      modifies this
      ensures Valid() && (old(Safe(View())) ==> Safe(View()))
      ensures capacity <= 0 ==> r == BadRequest && View() == old(View())
      ensures capacity > 0 && paused ==> r == Paused && View() == old(View())
      ensures capacity > 0 && !paused ==>
                && LeaseStep(old(View()), View(), w, if maxPerWorker > 0 && capacity > maxPerWorker then maxPerWorker else capacity, now, ttl, own)
                && r.Assigned?
                && (forall a :: a in r.ids <==>
                      Has(View(), a, Leased) && exists l :: l in leases && leases[l].live && leases[l].worker == w && leases[l].assignment == a)
                && (forall l :: l in leases && l !in old(leases) ==> leases[l].assignment in r.ids)
                && (old(Safe(View())) ==>
                      && (forall l :: old(Holds(View(), w, l)) && old(Has(View(), leases[l].assignment, Leased)) ==> old(leases)[l].assignment in r.ids)
                      && (forall l :: Live(View(), l) && leases[l].assignment in r.ids ==> leases[l].worker == w))
    {
      if capacity <= 0 { return BadRequest; }
      if paused { return Paused; }
      var capped: nat := if maxPerWorker > 0 && capacity > maxPerWorker then maxPerWorker else capacity;
      var db, next := LeaseTransaction(View(), w, capped, now, ttl, own, nextLease);
      if Safe(View()) { LeaseCallKeeps(View(), db, w, capped, now, ttl, own); }
      AnswerIsRight(View(), db, w, capped, now, ttl, own);
      assignments, leases, nextLease := db.assignments, db.leases, next;
      r := Assigned(Workload(View(), w));
    }

    /** Afterwards the worker holds none of the named assignments, and every other lease is as before. */
    method ReleaseAssignments(w: Worker, ids: set<nat>)
      requires Valid()
      modifies this
      ensures Valid() && (old(Safe(View())) ==> Safe(View()))
      ensures forall l :: Holds(View(), w, l) ==> leases[l].assignment !in ids
      ensures forall l :: l in leases <==> l in old(leases)
      ensures forall l :: l in leases && !(leases[l].worker == w && leases[l].assignment in ids) ==> leases[l] == old(leases)[l]
      ensures forall l :: old(Holds(View(), w, l)) && old(leases)[l].assignment in ids && old(Has(View(), leases[l].assignment, Leased)) ==>
                Has(View(), old(leases)[l].assignment, Open)
      ensures View() == ReleasedByWorker(old(View()), w, ids)
    {
      var gone := GivenBack(View(), w, ids);
      var released := Released(View(), gone);
      if Safe(View()) { ReleaseKeeps(View(), gone); }
      GivenBackReopens(View(), w, ids);
      assignments, leases := released.assignments, released.leases;
    }

    /** Afterwards only eligible targets have active replicas, and those have all they had. */
    method MarkDraining(eligible: Routing)
      requires Valid()
      modifies this`assignments
      ensures Valid() && (old(Safe(View())) ==> Safe(View()))
      ensures forall t :: ActiveOf(View(), t) == if t in eligible then ActiveOf(old(View()), t) else {}
      ensures forall a :: Has(View(), a, Closed) <==> old(Has(View(), a, Closed))
      ensures View() == Marked(old(View()), eligible)
    {
      ghost var before := View();
      assignments := Marked(View(), eligible).assignments;
      MarkEffect(before, View(), eligible);
    }

    /** Afterwards no draining assignment has a live lease; leases of other assignments are as before. */
    method ReleaseDraining()
      requires Valid()
      modifies this`leases
      ensures Valid() && (old(Safe(View())) ==> Safe(View()))
      ensures DrainingIsFree(View())
      ensures forall l :: old(Live(View(), l)) && !old(Has(View(), leases[l].assignment, Draining)) ==> Live(View(), l)
      ensures View() == DrainReleased(old(View()))
    {
      if Safe(View()) { DrainReleaseKeeps(View()); }
      leases := DrainReleased(View()).leases;
    }

    /** Afterwards nothing is draining; the tables stay safe exactly if no draining assignment had a live lease. */
    method CloseDraining()
      requires Valid()
      modifies this`assignments
      ensures Valid() && (old(Safe(View())) ==> (Safe(View()) <==> old(DrainingIsFree(View()))))
      ensures forall a :: !Has(View(), a, Draining)
      ensures forall t :: ActiveOf(View(), t) == ActiveOf(old(View()), t)
      ensures View() == DrainClosed(old(View()))
    {
      if Safe(View()) { CloseNeedsRelease(View()); }
      forall t { DrainKeepsActive(View(), t); }
      assignments := DrainClosed(View()).assignments;
    }

    /** Inserts what each eligible target is missing. */
    method GenerateReplicas(eligible: Routing, cfg: Config, groupOf: nat -> Group)
      requires Valid()
      modifies this`assignments, this`nextAssignment
      ensures Valid() && (old(Safe(View())) ==> Safe(View()))
      ensures Generated(old(View()), View(), eligible, cfg, groupOf)
      ensures forall a :: a in assignments && a !in old(assignments) ==>
                && assignments[a].target in eligible && assignments[a].provider == eligible[assignments[a].target].provider
                && assignments[a].group == groupOf(assignments[a].target) && assignments[a].status == Open
                && assignments[a].interval == cfg.Interval(eligible[assignments[a].target].priority)
    {
      var db, next := InsertReplicas(View(), eligible, cfg, groupOf, nextAssignment);
      if Safe(View()) { GenerateKeeps(View(), db, eligible, cfg, groupOf); }
      assignments, nextAssignment := db.assignments, next;
    }

    /** One scheduling pass without interruption. */
    method Reconcile(eligible: Routing, config: Config, groupOf: nat -> Group)
      requires Valid()
      modifies this
      ensures Valid() && (old(Safe(View())) ==> Safe(View()))
      ensures Generated(DrainClosed(DrainReleased(Marked(old(View()), eligible))), View(), eligible, config.WithDefaults(), groupOf)
      ensures var redundancy := config.WithDefaults().redundancy;
              old(Bounded(View(), redundancy)) ==> forall t :: |ActiveOf(View(), t)| == if t in eligible then redundancy else 0
    {
      var cfg := config.WithDefaults();
      ghost var d0 := View();
      MarkDraining(eligible);
      ghost var d1 := View();
      ReleaseDraining();
      ghost var d2 := View();
      CloseDraining();
      ghost var d3 := View();
      GenerateReplicas(eligible, cfg, groupOf);
      if Bounded(d0, cfg.redundancy) {
        forall t { PassExact(d0, d1, d2, d3, View(), eligible, cfg, groupOf, t); }
      }
    }
  }

  lemma MarkEffect(db: Db, db': Db, eligible: Routing)
    requires db' == Marked(db, eligible)
    ensures Safe(db) ==> Safe(db')
    ensures forall t :: ActiveOf(db', t) == if t in eligible then ActiveOf(db, t) else {}
    ensures forall a :: Has(db', a, Closed) <==> Has(db, a, Closed)
  {
    if Safe(db) { MarkKeeps(db, eligible); }
    forall t ensures ActiveOf(db', t) == if t in eligible then ActiveOf(db, t) else {} { MarkedActive(db, eligible, t); }
  }

  lemma GivenBackReopens(db: Db, w: Worker, ids: set<nat>)
    ensures forall l :: Holds(db, w, l) && db.leases[l].assignment in ids && Has(db, db.leases[l].assignment, Leased) ==>
              Has(ReleasedByWorker(db, w, ids), db.leases[l].assignment, Open)
  {
    var gone := GivenBack(db, w, ids);
    forall l | Holds(db, w, l) && db.leases[l].assignment in ids && Has(db, db.leases[l].assignment, Leased)
      ensures Has(Released(db, gone), db.leases[l].assignment, Open)
    {
      assert l in gone && Freed(db, gone, db.leases[l].assignment);
    }
  }
}
