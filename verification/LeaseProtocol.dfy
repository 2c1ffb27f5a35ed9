/**
 Safety of the assignment and lease protocol over all runs.

 A run interleaves lease calls and release calls of any workers with the four separately
 committed statements of one scheduler, which may stop after any of them and start over.
 */
module LeaseProtocol {
  import opened Basics
  import opened Scheduling

  /** Where the scheduler stands in its pass. */
  datatype Phase = Idle | AfterMark | AfterRelease | AfterClose

  datatype State = State(db: Db, phase: Phase)

  ghost predicate Init(s: State) {
    && s.phase == Idle
    && s.db == Db(map[], map[])
  }

  datatype Event =
    | LeaseCall(worker: Worker, capacity: nat, now: int, ttl: nat, own: set<Provider>)
    | ReleaseCall(worker: Worker, ids: set<nat>)
    | Mark(eligible: Routing)
    | ReleaseDrained
    | CloseDrained
    | Generate(eligible: Routing)
    | Abort

  ghost predicate Next(s: State, e: Event, s': State, cfg: Config, groupOf: nat -> Group) {
    match e
    case LeaseCall(w, capacity, now, ttl, own) =>
      LeaseStep(s.db, s'.db, w, capacity, now, ttl, own) && s'.phase == s.phase
    case ReleaseCall(w, ids) => s' == s.(db := ReleasedByWorker(s.db, w, ids))
    case Mark(eligible) => s.phase == Idle && s' == State(Marked(s.db, eligible), AfterMark)
    case ReleaseDrained => s.phase == AfterMark && s' == State(DrainReleased(s.db), AfterRelease)
    case CloseDrained => s.phase == AfterRelease && s' == State(DrainClosed(s.db), AfterClose)
    case Generate(eligible) =>
      s.phase == AfterClose && s'.phase == Idle && Generated(s.db, s'.db, eligible, cfg, groupOf)
    case Abort => s' == s.(phase := Idle)
  }

  // ----- the invariant

  /** A live lease is for a leased or draining assignment. */
  ghost predicate Placed(db: Db) {
    forall l :: Live(db, l) ==>
      Has(db, db.leases[l].assignment, Leased) || Has(db, db.leases[l].assignment, Draining)
  }

  /** No assignment has two live leases. */
  ghost predicate OneHolder(db: Db) {
    forall l, m :: Live(db, l) && Live(db, m) && db.leases[l].assignment == db.leases[m].assignment ==> l == m
  }

  predicate HeldBy(db: Db, l: nat, a: nat) { Live(db, l) && db.leases[l].assignment == a }

  ghost predicate LeasedIsHeld(db: Db) {
    forall a :: Has(db, a, Leased) ==> exists l :: HeldBy(db, l, a)
  }

  /** No worker holds two replicas of one redundancy group. */
  ghost predicate Diverse(db: Db) {
    forall l, m :: Live(db, l) && Live(db, m) && Rivals(db, l, m) ==> l == m
  }

  /** Leases of one worker on replicas of one group. */
  predicate Rivals(db: Db, l: nat, m: nat)
    requires l in db.leases && m in db.leases
  {
    db.leases[l].worker == db.leases[m].worker && SameGroup(db, db.leases[l].assignment, db.leases[m].assignment)
  }

  predicate SameGroup(db: Db, a: nat, b: nat) {
    a in db.assignments && b in db.assignments && db.assignments[a].group == db.assignments[b].group
  }

  ghost predicate Safe(db: Db) { Placed(db) && OneHolder(db) && LeasedIsHeld(db) && Diverse(db) }

  /** Replicas of one target share the group that is derived from the target. */
  ghost predicate GroupsFollow(db: Db, groupOf: nat -> Group) {
    forall a :: a in db.assignments ==> db.assignments[a].group == groupOf(db.assignments[a].target)
  }

  /** An assignment that is open or leased, or that still has a live lease. */
  ghost predicate Busy(db: Db, a: nat) {
    a in db.assignments && (db.assignments[a].Active() || exists l :: HeldBy(db, l, a))
  }

  ghost function BusyOf(db: Db, t: nat): set<nat> {
    set a | a in db.assignments && db.assignments[a].target == t && Busy(db, a)
  }

  ghost predicate Within(db: Db, redundancy: int) {
    forall t :: |BusyOf(db, t)| <= redundancy
  }

  ghost predicate Bounded(db: Db, redundancy: int) {
    forall t :: |ActiveOf(db, t)| <= redundancy
  }

  ghost predicate DrainingIsFree(db: Db) {
    forall l :: Live(db, l) ==> !Has(db, db.leases[l].assignment, Draining)
  }

  ghost predicate Inv(s: State, cfg: Config, groupOf: nat -> Group) {
    && Safe(s.db) && GroupsFollow(s.db, groupOf) && Within(s.db, cfg.redundancy)
    && (s.phase == AfterRelease || s.phase == AfterClose ==> DrainingIsFree(s.db))
  }

  lemma WithinIsBounded(db: Db, redundancy: int)
    requires Within(db, redundancy)
    ensures Bounded(db, redundancy)
  {
    forall t ensures |ActiveOf(db, t)| <= redundancy { SubsetSize(ActiveOf(db, t), BusyOf(db, t)); }
  }

  // ----- steps that add no lease

  /** The lease was live before, with the same worker, assignment and group. */
  predicate Inherited(db: Db, db': Db, l: nat)
    requires l in db'.leases
  {
    && Live(db, l)
    && db'.leases[l].assignment == db.leases[l].assignment && db'.leases[l].worker == db.leases[l].worker
    && SameReplica(db, db', db.leases[l].assignment)
  }

  predicate SameReplica(db: Db, db': Db, a: nat) {
    && a in db.assignments && a in db'.assignments
    && db'.assignments[a].group == db.assignments[a].group && db'.assignments[a].target == db.assignments[a].target
  }

  ghost predicate Inherits(db: Db, db': Db) {
    forall l :: Live(db', l) ==> Inherited(db, db', l)
  }

  lemma InheritsKeeps(db: Db, db': Db)
    requires OneHolder(db) && Diverse(db) && Inherits(db, db')
    ensures OneHolder(db') && Diverse(db')
  {
    forall l, m | Live(db', l) && Live(db', m) && Rivals(db', l, m) ensures l == m {
      assert Inherited(db, db', l) && Inherited(db, db', m) && Rivals(db, l, m);
    }
    forall l, m | Live(db', l) && Live(db', m) && db'.leases[l].assignment == db'.leases[m].assignment ensures l == m {
      assert Inherited(db, db', l) && Inherited(db, db', m);
    }
  }

  /** A leased assignment stays held if its leases stay live. */
  lemma StaysHeld(db: Db, db': Db, a: nat)
    requires LeasedIsHeld(db) && Has(db, a, Leased)
    requires forall l :: HeldBy(db, l, a) ==> HeldBy(db', l, a)
    ensures exists l :: HeldBy(db', l, a)
  {
    var l :| HeldBy(db, l, a);
    assert HeldBy(db', l, a);
  }

  lemma RenewKeeps(db: Db, w: Worker, until: int)
    requires Safe(db)
    ensures Safe(Renewed(db, w, until))
    ensures forall l :: Live(Renewed(db, w, until), l) <==> Live(db, l)
  {
    var db' := Renewed(db, w, until);
    forall l | Live(db', l) ensures Inherited(db, db', l) { assert Live(db, l); }
    InheritsKeeps(db, db');
    forall a | Has(db', a, Leased) ensures exists l :: HeldBy(db', l, a) {
      assert Has(db, a, Leased);
      StaysHeld(db, db', a);
    }
  }

  lemma ReleaseKeeps(db: Db, gone: set<nat>)
    requires Safe(db)
    requires forall l :: l in gone ==> Live(db, l)
    ensures Safe(Released(db, gone))
    ensures forall l :: Live(Released(db, gone), l) <==> Live(db, l) && l !in gone
  {
    var db' := Released(db, gone);
    forall l | Live(db', l)
      ensures Inherited(db, db', l)
      ensures Has(db', db'.leases[l].assignment, Leased) || Has(db', db'.leases[l].assignment, Draining)
    {
      assert Live(db, l);
      assert !Freed(db, gone, db.leases[l].assignment);
    }
    InheritsKeeps(db, db');
    forall a | Has(db', a, Leased) ensures exists l :: HeldBy(db', l, a) {
      assert Has(db, a, Leased) && !Freed(db, gone, a);
      StaysHeld(db, db', a);
    }
  }

  lemma MarkKeeps(db: Db, eligible: Routing)
    requires Safe(db)
    ensures Safe(Marked(db, eligible))
  {
    var db' := Marked(db, eligible);
    forall l | Live(db', l)
      ensures Inherited(db, db', l)
      ensures Has(db', db'.leases[l].assignment, Leased) || Has(db', db'.leases[l].assignment, Draining)
    {
      assert Live(db, l);
    }
    InheritsKeeps(db, db');
    forall a | Has(db', a, Leased) ensures exists l :: HeldBy(db', l, a) {
      assert Has(db, a, Leased);
      StaysHeld(db, db', a);
    }
  }

  lemma DrainReleaseKeeps(db: Db)
    requires Safe(db)
    ensures Safe(DrainReleased(db)) && DrainingIsFree(DrainReleased(db))
  {
    var db' := DrainReleased(db);
    forall l | Live(db', l) ensures Inherited(db, db', l) && Has(db', db'.leases[l].assignment, Leased) {
      assert Live(db, l);
    }
    InheritsKeeps(db, db');
    forall a | Has(db', a, Leased) ensures exists l :: HeldBy(db', l, a) {
      assert Has(db, a, Leased);
      StaysHeld(db, db', a);
    }
  }

  lemma CloseKeeps(db: Db)
    requires Safe(db) && DrainingIsFree(db)
    ensures Safe(DrainClosed(db))
  {
    var db' := DrainClosed(db);
    forall l | Live(db', l) ensures Inherited(db, db', l) && Has(db', db'.leases[l].assignment, Leased) {
      assert Live(db, l);
    }
    InheritsKeeps(db, db');
    forall a | Has(db', a, Leased) ensures exists l :: HeldBy(db', l, a) {
      assert Has(db, a, Leased);
      StaysHeld(db, db', a);
    }
  }

  lemma CloseLeavesNone(db: Db)
    ensures forall a :: !Has(DrainClosed(db), a, Draining)
  {
  }

  /** Closing is safe exactly when no draining assignment still has a live lease: the order of the two statements matters. */
  lemma CloseNeedsRelease(db: Db)
    requires Safe(db)
    ensures Safe(DrainClosed(db)) <==> DrainingIsFree(db)
  {
    if DrainingIsFree(db) {
      CloseKeeps(db);
    } else {
      var l :| Live(db, l) && Has(db, db.leases[l].assignment, Draining);
      assert Live(DrainClosed(db), l);
      assert Has(DrainClosed(db), db.leases[l].assignment, Closed);
    }
  }

  lemma GenerateKeeps(db: Db, db': Db, eligible: Routing, cfg: Config, groupOf: nat -> Group)
    requires Safe(db) && Generated(db, db', eligible, cfg, groupOf)
    ensures Safe(db')
  {
    forall l | Live(db', l) ensures Inherited(db, db', l) {
      assert Live(db, l);
    }
    InheritsKeeps(db, db');
    forall a | a in db'.assignments && a !in db.assignments ensures db'.assignments[a].status == Open {
      assert NewReplica(db'.assignments[a], eligible, cfg, groupOf);
    }
    forall a | Has(db', a, Leased) ensures exists l :: HeldBy(db', l, a) {
      assert Has(db, a, Leased);
      StaysHeld(db, db', a);
    }
  }

  // ----- claiming

  /** Every live lease is an old one, for an assignment not chosen, or a new one for a chosen assignment. */
  lemma GrantedLease(db: Db, db': Db, w: Worker, own: set<Provider>, chosen: set<nat>, until: int, l: nat)
    requires Placed(db) && chosen <= Candidates(db, w, own) && Granted(db, db', w, chosen, until) && Live(db', l)
    ensures var a := db'.leases[l].assignment;
            if l in db.leases then Inherited(db, db', l) && a !in chosen
            else a in chosen && NewLease(db, db', l, a) && db'.leases[l].worker == w
  {
    if l in db.leases {
      assert Live(db, l);
    }
  }

  lemma GrantKeepsHolders(db: Db, db': Db, w: Worker, own: set<Provider>, chosen: set<nat>, until: int)
    requires Placed(db) && OneHolder(db)
    requires chosen <= Candidates(db, w, own) && Granted(db, db', w, chosen, until)
    ensures Placed(db') && OneHolder(db')
  {
    forall l | Live(db', l)
      ensures Has(db', db'.leases[l].assignment, Leased) || Has(db', db'.leases[l].assignment, Draining)
    {
      GrantedLease(db, db', w, own, chosen, until, l);
    }
    forall l, m | Live(db', l) && Live(db', m) && db'.leases[l].assignment == db'.leases[m].assignment ensures l == m {
      GrantedLease(db, db', w, own, chosen, until, l);
      GrantedLease(db, db', w, own, chosen, until, m);
    }
  }

  lemma GrantKeepsHeld(db: Db, db': Db, w: Worker, chosen: set<nat>, until: int)
    requires LeasedIsHeld(db) && Granted(db, db', w, chosen, until)
    ensures LeasedIsHeld(db')
  {
    forall a | Has(db', a, Leased) ensures exists l :: HeldBy(db', l, a) {
      if a in chosen {
        var l :| NewLease(db, db', l, a);
        assert HeldBy(db', l, a);
      } else {
        assert Has(db, a, Leased);
        StaysHeld(db, db', a);
      }
    }
  }

  lemma OldIsNoRival(db: Db, db': Db, w: Worker, own: set<Provider>, chosen: set<nat>, until: int, l: nat, m: nat)
    requires chosen <= Candidates(db, w, own) && Granted(db, db', w, chosen, until)
    requires Live(db, l) && Live(db', m) && m !in db.leases
    ensures !Rivals(db', l, m) && !Rivals(db', m, l)
  {
    var b := db'.leases[m].assignment;
    assert Candidate(db, w, own, b);
    assert !Mine(db, w, db.assignments[b].group);
    assert Holds(db, w, l) || db.leases[l].worker != w;
  }

  /** Two chosen assignments of one group are the same: only the lowest of a group is a candidate. */
  lemma OneCandidate(db: Db, w: Worker, own: set<Provider>, a: nat, b: nat)
    requires Candidate(db, w, own, a) && Candidate(db, w, own, b) && SameGroup(db, a, b)
    ensures a == b
  {
  }

  lemma GrantKeepsDiversity(db: Db, db': Db, w: Worker, own: set<Provider>, chosen: set<nat>, until: int)
    requires Placed(db) && Diverse(db)
    requires chosen <= Candidates(db, w, own) && Granted(db, db', w, chosen, until)
    ensures Diverse(db')
  {
    forall l, m | Live(db', l) && Live(db', m) && Rivals(db', l, m) ensures l == m {
      GrantedLease(db, db', w, own, chosen, until, l);
      GrantedLease(db, db', w, own, chosen, until, m);
      if l in db.leases && m in db.leases {
        assert Rivals(db, l, m);
      } else if l in db.leases {
        OldIsNoRival(db, db', w, own, chosen, until, l, m);
      } else if m in db.leases {
        OldIsNoRival(db, db', w, own, chosen, until, m, l);
      } else {
        OneCandidate(db, w, own, db'.leases[l].assignment, db'.leases[m].assignment);
      }
    }
  }

  lemma ReapKeeps(db: Db, w: Worker, now: int, ttl: nat)
    requires Safe(db)
    ensures Safe(Reaped(db, w, now, ttl))
  {
    var renewed := Renewed(db, w, now + ttl);
    RenewKeeps(db, w, now + ttl);
    ReleaseKeeps(renewed, Expired(renewed, now));
  }

  lemma ClaimKeeps(db: Db, db': Db, w: Worker, capacity: nat, until: int, own: set<Provider>)
    requires Safe(db) && ClaimUpTo(db, db', w, capacity, until, own)
    ensures Safe(db')
  {
    if capacity > |Held(db, w)| {
      var chosen :| FirstOf(chosen, Candidates(db, w, own), capacity - |Held(db, w)|) && Granted(db, db', w, chosen, until);
      GrantKeepsHolders(db, db', w, own, chosen, until);
      GrantKeepsHeld(db, db', w, chosen, until);
      GrantKeepsDiversity(db, db', w, own, chosen, until);
    }
  }

  lemma LeaseCallKeeps(db: Db, db': Db, w: Worker, capacity: nat, now: int, ttl: nat, own: set<Provider>)
    requires Safe(db) && LeaseStep(db, db', w, capacity, now, ttl, own)
    ensures Safe(db')
  {
    ReapKeeps(db, w, now, ttl);
    ClaimKeeps(Reaped(db, w, now, ttl), db', w, capacity, now + ttl, own);
  }

  // ----- what calls of workers leave alone

  /** Calls of workers change neither which replicas are active nor which are draining. */
  ghost predicate SameStanding(db: Db, db': Db) {
    && (forall t :: ActiveOf(db', t) == ActiveOf(db, t))
    && (forall a :: Has(db', a, Draining) <==> Has(db, a, Draining))
  }

  lemma RenewKeepsStanding(db: Db, w: Worker, until: int)
    ensures SameStanding(db, Renewed(db, w, until))
  {
    assert Renewed(db, w, until).assignments == db.assignments;
  }

  /** Releasing leases moves replicas between open and leased only. */
  lemma ReleaseKeepsStanding(db: Db, gone: set<nat>)
    ensures SameStanding(db, Released(db, gone))
  {
    forall t ensures ActiveOf(Released(db, gone), t) == ActiveOf(db, t) {}
  }

  lemma ReapKeepsStanding(db: Db, w: Worker, now: int, ttl: nat)
    ensures SameStanding(db, Reaped(db, w, now, ttl))
  {
    var renewed := Renewed(db, w, now + ttl);
    RenewKeepsStanding(db, w, now + ttl);
    ReleaseKeepsStanding(renewed, Expired(renewed, now));
  }

  lemma ClaimKeepsStanding(db: Db, db': Db, w: Worker, capacity: nat, until: int, own: set<Provider>)
    requires ClaimUpTo(db, db', w, capacity, until, own)
    ensures SameStanding(db, db')
  {
    forall t ensures ActiveOf(db', t) == ActiveOf(db, t) {}
  }

  lemma LeaseCallKeepsStanding(db: Db, db': Db, w: Worker, capacity: nat, now: int, ttl: nat, own: set<Provider>)
    requires LeaseStep(db, db', w, capacity, now, ttl, own)
    ensures SameStanding(db, db')
  {
    var mid := Reaped(db, w, now, ttl);
    ReapKeepsStanding(db, w, now, ttl);
    ClaimKeepsStanding(mid, db', w, capacity, now + ttl, own);
  }

  // ----- no replica becomes busy, except by insertion

  /** No assignment is added, moved to another target or group, or made busy. */
  ghost predicate Shrinks(db: Db, db': Db) {
    forall a :: a in db'.assignments ==> Kept(db, db', a)
  }

  ghost predicate Kept(db: Db, db': Db, a: nat) {
    SameReplica(db, db', a) && (Busy(db', a) ==> Busy(db, a))
  }

  lemma ShrinksTwice(a: Db, b: Db, c: Db)
    requires Shrinks(a, b) && Shrinks(b, c)
    ensures Shrinks(a, c)
  {
    forall x | x in c.assignments ensures Kept(a, c, x) { assert Kept(b, c, x) && Kept(a, b, x); }
  }

  /** What keeps the leases of an assignment, or ends some, does not make it busy. */
  lemma NotBusier(db: Db, db': Db, a: nat)
    requires SameReplica(db, db', a) && (db'.assignments[a].Active() ==> db.assignments[a].Active())
    requires forall l :: HeldBy(db', l, a) ==> HeldBy(db, l, a)
    ensures Kept(db, db', a)
  {
    if l :| HeldBy(db', l, a) { assert HeldBy(db, l, a); }
  }

  lemma RenewShrinks(db: Db, w: Worker, until: int)
    ensures Shrinks(db, Renewed(db, w, until))
  {
    var db' := Renewed(db, w, until);
    forall a | a in db'.assignments ensures Kept(db, db', a) { NotBusier(db, db', a); }
  }

  lemma ReleaseShrinks(db: Db, gone: set<nat>)
    ensures Shrinks(db, Released(db, gone))
  {
    var db' := Released(db, gone);
    forall a | a in db'.assignments ensures Kept(db, db', a) { NotBusier(db, db', a); }
  }

  lemma ClaimShrinks(db: Db, db': Db, w: Worker, capacity: nat, until: int, own: set<Provider>)
    requires ClaimUpTo(db, db', w, capacity, until, own)
    ensures Shrinks(db, db')
  {
    if capacity > |Held(db, w)| {
      var chosen :| FirstOf(chosen, Candidates(db, w, own), capacity - |Held(db, w)|) && Granted(db, db', w, chosen, until);
      forall a | a in db'.assignments ensures Kept(db, db', a) {
        if a in chosen { assert Candidate(db, w, own, a); } else { NotBusier(db, db', a); }
      }
    } else {
      forall a | a in db'.assignments ensures Kept(db, db', a) {}
    }
  }

  lemma ReapShrinks(db: Db, w: Worker, now: int, ttl: nat)
    ensures Shrinks(db, Reaped(db, w, now, ttl))
  {
    var renewed := Renewed(db, w, now + ttl);
    RenewShrinks(db, w, now + ttl);
    ReleaseShrinks(renewed, Expired(renewed, now));
    ShrinksTwice(db, renewed, Reaped(db, w, now, ttl));
  }

  lemma LeaseCallShrinks(db: Db, db': Db, w: Worker, capacity: nat, now: int, ttl: nat, own: set<Provider>)
    requires LeaseStep(db, db', w, capacity, now, ttl, own)
    ensures Shrinks(db, db')
  {
    var mid := Reaped(db, w, now, ttl);
    ReapShrinks(db, w, now, ttl);
    ClaimShrinks(mid, db', w, capacity, now + ttl, own);
    ShrinksTwice(db, mid, db');
  }

  lemma MarkShrinks(db: Db, eligible: Routing)
    ensures Shrinks(db, Marked(db, eligible))
  {
    var db' := Marked(db, eligible);
    forall a | a in db'.assignments ensures Kept(db, db', a) { NotBusier(db, db', a); }
  }

  lemma DrainReleaseShrinks(db: Db)
    ensures Shrinks(db, DrainReleased(db))
  {
    var db' := DrainReleased(db);
    forall a | a in db'.assignments ensures Kept(db, db', a) { NotBusier(db, db', a); }
  }

  lemma CloseShrinks(db: Db)
    ensures Shrinks(db, DrainClosed(db))
  {
    var db' := DrainClosed(db);
    forall a | a in db'.assignments ensures Kept(db, db', a) { NotBusier(db, db', a); }
  }

  lemma ShrinksKeeps(db: Db, db': Db, redundancy: int, groupOf: nat -> Group)
    requires Shrinks(db, db') && Within(db, redundancy) && GroupsFollow(db, groupOf)
    ensures Within(db', redundancy) && GroupsFollow(db', groupOf)
  {
    forall t ensures |BusyOf(db', t)| <= redundancy {
      forall a | a in BusyOf(db', t) ensures a in BusyOf(db, t) { assert Kept(db, db', a); }
      SubsetSize(BusyOf(db', t), BusyOf(db, t));
    }
    forall a | a in db'.assignments ensures db'.assignments[a].group == groupOf(db'.assignments[a].target) {
      assert Kept(db, db', a);
    }
  }

  /** Draining assignments stay free as long as no lease is added to one and none starts draining. */
  lemma DrainingStaysFree(db: Db, db': Db)
    requires Placed(db) && DrainingIsFree(db) && Placed(db') && Shrinks(db, db')
    requires forall a :: Has(db', a, Draining) <==> Has(db, a, Draining)
    ensures DrainingIsFree(db')
  {
    forall l | Live(db', l) ensures !Has(db', db'.leases[l].assignment, Draining) {
      var a := db'.leases[l].assignment;
      assert HeldBy(db', l, a);
      assert Kept(db, db', a) && Busy(db', a);
      if m :| HeldBy(db, m, a) { assert !Has(db, db.leases[m].assignment, Draining); }
    }
  }

  // ----- generation

  lemma GenerateAdds(db: Db, db': Db, eligible: Routing, cfg: Config, groupOf: nat -> Group, t: nat)
    requires Generated(db, db', eligible, cfg, groupOf)
    ensures ActiveOf(db', t) == ActiveOf(db, t) + Added(db, db', t)
    ensures ActiveOf(db, t) !! Added(db, db', t)
  {
    forall a | a in Added(db, db', t) ensures a in ActiveOf(db', t) {
      assert NewReplica(db'.assignments[a], eligible, cfg, groupOf);
    }
  }

  /** After generation an eligible target has as many replicas as configured, if it had no more before. */
  lemma GenerateCounts(db: Db, db': Db, eligible: Routing, cfg: Config, groupOf: nat -> Group, t: nat)
    requires Generated(db, db', eligible, cfg, groupOf)
    ensures |ActiveOf(db', t)| ==
            if t in eligible && |ActiveOf(db, t)| < cfg.redundancy then cfg.redundancy else |ActiveOf(db, t)|
  {
    GenerateAdds(db, db', eligible, cfg, groupOf, t);
    assert Filled(db, db', eligible, cfg, t);
  }

  /** Without live leases on draining assignments, the busy replicas are the active ones. */
  lemma BusyIsActive(db: Db, t: nat)
    requires Placed(db) && DrainingIsFree(db)
    ensures BusyOf(db, t) == ActiveOf(db, t)
  {
    forall a | a in BusyOf(db, t) ensures a in ActiveOf(db, t) {
      if l :| HeldBy(db, l, a) { assert Has(db, a, Leased); }
    }
  }

  lemma GenerateKeepsFree(db: Db, db': Db, eligible: Routing, cfg: Config, groupOf: nat -> Group)
    requires Placed(db) && DrainingIsFree(db) && Generated(db, db', eligible, cfg, groupOf)
    ensures Placed(db') && DrainingIsFree(db')
  {
    forall l | Live(db', l) ensures Has(db', db'.leases[l].assignment, Leased) { assert Live(db, l); }
  }

  lemma GenerateKeepsWithin(db: Db, db': Db, eligible: Routing, cfg: Config, groupOf: nat -> Group)
    requires Placed(db) && DrainingIsFree(db) && Within(db, cfg.redundancy) && Generated(db, db', eligible, cfg, groupOf)
    ensures Within(db', cfg.redundancy)
  {
    GenerateKeepsFree(db, db', eligible, cfg, groupOf);
    WithinIsBounded(db, cfg.redundancy);
    forall t ensures |BusyOf(db', t)| <= cfg.redundancy {
      BusyIsActive(db', t);
      GenerateCounts(db, db', eligible, cfg, groupOf, t);
    }
  }

  lemma GenerateKeepsGroups(db: Db, db': Db, eligible: Routing, cfg: Config, groupOf: nat -> Group)
    requires GroupsFollow(db, groupOf) && Generated(db, db', eligible, cfg, groupOf)
    ensures GroupsFollow(db', groupOf)
  {
    forall a | a in db'.assignments ensures db'.assignments[a].group == groupOf(db'.assignments[a].target) {
      if a !in db.assignments { assert NewReplica(db'.assignments[a], eligible, cfg, groupOf); }
    }
  }

  // ----- every run

  lemma InitHolds(s: State, cfg: Config, groupOf: nat -> Group)
    requires Init(s) && cfg.redundancy > 0
    ensures Inv(s, cfg, groupOf)
  {
    forall t ensures BusyOf(s.db, t) == {} {}
  }

  lemma LeaseKeepsInv(s: State, e: Event, s': State, cfg: Config, groupOf: nat -> Group)
    requires Inv(s, cfg, groupOf) && e.LeaseCall? && Next(s, e, s', cfg, groupOf)
    ensures Inv(s', cfg, groupOf)
  {
    LeaseCallKeeps(s.db, s'.db, e.worker, e.capacity, e.now, e.ttl, e.own);
    LeaseCallShrinks(s.db, s'.db, e.worker, e.capacity, e.now, e.ttl, e.own);
    CallKeepsInv(s, s', cfg, groupOf) by {
      LeaseCallKeepsStanding(s.db, s'.db, e.worker, e.capacity, e.now, e.ttl, e.own);
    }
  }

  lemma ReleaseKeepsInv(s: State, e: Event, s': State, cfg: Config, groupOf: nat -> Group)
    requires Inv(s, cfg, groupOf) && e.ReleaseCall? && Next(s, e, s', cfg, groupOf)
    ensures Inv(s', cfg, groupOf)
  {
    var gone := GivenBack(s.db, e.worker, e.ids);
    ReleaseKeeps(s.db, gone);
    ReleaseShrinks(s.db, gone);
    CallKeepsInv(s, s', cfg, groupOf) by { ReleaseKeepsStanding(s.db, gone); }
  }

  lemma CallKeepsInv(s: State, s': State, cfg: Config, groupOf: nat -> Group)
    requires Inv(s, cfg, groupOf) && s'.phase == s.phase
    requires Safe(s'.db) && Shrinks(s.db, s'.db) && SameStanding(s.db, s'.db)
    ensures Inv(s', cfg, groupOf)
  {
    ShrinksKeeps(s.db, s'.db, cfg.redundancy, groupOf);
    if s.phase == AfterRelease || s.phase == AfterClose { DrainingStaysFree(s.db, s'.db); }
  }

  lemma StatementKeepsInv(s: State, e: Event, s': State, cfg: Config, groupOf: nat -> Group)
    requires Inv(s, cfg, groupOf) && (e.Mark? || e.ReleaseDrained? || e.CloseDrained?) && Next(s, e, s', cfg, groupOf)
    ensures Inv(s', cfg, groupOf)
  {
    match e {
      case Mark(eligible) =>
        MarkKeeps(s.db, eligible);
        MarkShrinks(s.db, eligible);
      case ReleaseDrained =>
        DrainReleaseKeeps(s.db);
        DrainReleaseShrinks(s.db);
      case CloseDrained =>
        CloseKeeps(s.db);
        CloseLeavesNone(s.db);
        CloseShrinks(s.db);
    }
    ShrinksKeeps(s.db, s'.db, cfg.redundancy, groupOf);
  }

  lemma GenerateKeepsInv(s: State, e: Event, s': State, cfg: Config, groupOf: nat -> Group)
    requires Inv(s, cfg, groupOf) && e.Generate? && Next(s, e, s', cfg, groupOf)
    ensures Inv(s', cfg, groupOf)
  {
    GenerateKeeps(s.db, s'.db, e.eligible, cfg, groupOf);
    GenerateKeepsWithin(s.db, s'.db, e.eligible, cfg, groupOf);
    GenerateKeepsGroups(s.db, s'.db, e.eligible, cfg, groupOf);
  }

  lemma NextKeeps(s: State, e: Event, s': State, cfg: Config, groupOf: nat -> Group)
    requires Inv(s, cfg, groupOf) && Next(s, e, s', cfg, groupOf)
    ensures Inv(s', cfg, groupOf)
  {
    match e
    case LeaseCall(_, _, _, _, _) => LeaseKeepsInv(s, e, s', cfg, groupOf);
    case ReleaseCall(_, _) => ReleaseKeepsInv(s, e, s', cfg, groupOf);
    case Mark(_) => StatementKeepsInv(s, e, s', cfg, groupOf);
    case ReleaseDrained => StatementKeepsInv(s, e, s', cfg, groupOf);
    case CloseDrained => StatementKeepsInv(s, e, s', cfg, groupOf);
    case Generate(_) => GenerateKeepsInv(s, e, s', cfg, groupOf);
    case Abort =>
  }

  ghost predicate IsRun(states: seq<State>, events: seq<Event>, cfg: Config, groupOf: nat -> Group) {
    && |states| == |events| + 1
    && Init(states[0])
    && forall i :: 0 <= i < |events| ==> Next(states[i], events[i], states[i + 1], cfg, groupOf)
  }

  lemma {:induction false} RunKeeps(states: seq<State>, events: seq<Event>, cfg: Config, groupOf: nat -> Group, n: nat)
    requires cfg.redundancy > 0 && IsRun(states, events, cfg, groupOf) && n < |states|
    ensures Inv(states[n], cfg, groupOf)
  {
    if n == 0 {
      InitHolds(states[0], cfg, groupOf);
    } else {
      RunKeeps(states, events, cfg, groupOf, n - 1);
      NextKeeps(states[n - 1], events[n - 1], states[n], cfg, groupOf);
    }
  }

  // ----- what the invariant means

  ghost function Image<T>(s: set<nat>, f: nat -> T): set<T> { set x | x in s :: f(x) }

  lemma {:induction false} ImageSize<T>(s: set<nat>, f: nat -> T)
    requires forall x, y :: x in s && y in s && f(x) == f(y) ==> x == y
    ensures |Image(s, f)| == |s|
    decreases |s|
  {
    if s == {} {
      assert Image(s, f) == {};
    } else {
      var x :| x in s;
      ImageSize(s - {x}, f);
      assert Image(s, f) == Image(s - {x}, f) + {f(x)};
    }
  }

  ghost function WorkerOf(db: Db): nat -> Worker {
    l => if l in db.leases then db.leases[l].worker else ""
  }

  ghost function AssignmentOf(db: Db): nat -> nat {
    l => if l in db.leases then db.leases[l].assignment else 0
  }

  /** The workers behind a set of leases. */
  ghost function Workers(db: Db, leases: set<nat>): set<Worker> { Image(leases, WorkerOf(db)) }

  predicate OnGroup(db: Db, g: Group, l: nat) {
    Live(db, l) && db.leases[l].assignment in db.assignments && db.assignments[db.leases[l].assignment].group == g
  }

  predicate OnTarget(db: Db, t: nat, l: nat) {
    Live(db, l) && db.leases[l].assignment in db.assignments && db.assignments[db.leases[l].assignment].target == t
  }

  /** The live leases on replicas of a group, whatever the status of the replica. */
  ghost function HoldingGroup(db: Db, g: Group): set<nat> { set l | l in db.leases && OnGroup(db, g, l) }

  /** The live leases on replicas of a target, whatever the status of the replica. */
  ghost function HoldingTarget(db: Db, t: nat): set<nat> { set l | l in db.leases && OnTarget(db, t, l) }

  lemma DistinctWorkers(db: Db, leases: set<nat>)
    requires Diverse(db)
    requires forall l, m :: l in leases && m in leases ==> Live(db, l) && Live(db, m) && SameGroup(db, db.leases[l].assignment, db.leases[m].assignment)
    ensures |Workers(db, leases)| == |leases|
  {
    var f := WorkerOf(db);
    forall l, m | l in leases && m in leases && f(l) == f(m) ensures l == m { assert Rivals(db, l, m); }
    ImageSize(leases, f);
  }

  lemma HoldersAreBusy(db: Db, t: nat)
    requires OneHolder(db)
    ensures |HoldingTarget(db, t)| <= |BusyOf(db, t)|
  {
    var held, f := HoldingTarget(db, t), AssignmentOf(db);
    forall l, m | l in held && m in held && f(l) == f(m) ensures l == m {
      assert Live(db, l) && Live(db, m);
    }
    ImageSize(held, f);
    forall a | a in Image(held, f) ensures a in BusyOf(db, t) {
      var l :| l in held && f(l) == a;
      assert HeldBy(db, l, a);
    }
    SubsetSize(Image(held, f), BusyOf(db, t));
  }

  /** k live leases on the replicas of a target are held by k distinct workers, and k is at most the configured redundancy. */
  lemma TargetHolders(s: State, cfg: Config, groupOf: nat -> Group, t: nat)
    requires Inv(s, cfg, groupOf)
    ensures var held := HoldingTarget(s.db, t); |Workers(s.db, held)| == |held| <= cfg.redundancy
  {
    HoldersAreBusy(s.db, t);
    DistinctWorkers(s.db, HoldingTarget(s.db, t));
  }

  /** No other target has this group. */
  ghost predicate OwnGroup(groupOf: nat -> Group, g: Group) {
    forall t, u :: groupOf(t) == g && groupOf(u) == g ==> t == u
  }

  /**
   k live leases in a redundancy group are held by k distinct workers; where the group belongs
   to one target alone, k is at most the configured redundancy.
   */
  lemma GroupHolders(s: State, cfg: Config, groupOf: nat -> Group, g: Group)
    requires Inv(s, cfg, groupOf)
    ensures var held := HoldingGroup(s.db, g);
            |Workers(s.db, held)| == |held| && (OwnGroup(groupOf, g) ==> |held| <= cfg.redundancy)
  {
    var held := HoldingGroup(s.db, g);
    DistinctWorkers(s.db, held);
    if OwnGroup(groupOf, g) {
      GroupWithinTarget(s.db, groupOf, g);
      var t: nat :| held <= HoldingTarget(s.db, t);
      SubsetSize(held, HoldingTarget(s.db, t));
      TargetHolders(s, cfg, groupOf, t);
    }
  }

  lemma GroupWithinTarget(db: Db, groupOf: nat -> Group, g: Group)
    requires GroupsFollow(db, groupOf) && OwnGroup(groupOf, g)
    ensures exists t: nat :: HoldingGroup(db, g) <= HoldingTarget(db, t)
  {
    var held := HoldingGroup(db, g);
    if l :| l in held {
      var t := db.assignments[db.leases[l].assignment].target;
      forall m | m in held ensures m in HoldingTarget(db, t) {
        assert groupOf(t) == g && groupOf(db.assignments[db.leases[m].assignment].target) == g;
      }
      assert held <= HoldingTarget(db, t);
    } else {
      assert held <= HoldingTarget(db, 0);
    }
  }

  /** So at every point of every run, whatever the target and the group. */
  lemma RedundancyInEveryRun(states: seq<State>, events: seq<Event>, cfg: Config, groupOf: nat -> Group, n: nat, t: nat, g: Group)
    requires cfg.redundancy > 0 && IsRun(states, events, cfg, groupOf) && n < |states|
    ensures var held := HoldingTarget(states[n].db, t); |Workers(states[n].db, held)| == |held| <= cfg.redundancy
    ensures var held := HoldingGroup(states[n].db, g);
            |Workers(states[n].db, held)| == |held| && (OwnGroup(groupOf, g) ==> |held| <= cfg.redundancy)
  {
    RunKeeps(states, events, cfg, groupOf, n);
    TargetHolders(states[n], cfg, groupOf, t);
    GroupHolders(states[n], cfg, groupOf, g);
  }
}
