/**
 What one lease call does: it takes all the work its capacity has room for, extends the
 caller's leases and frees what anyone let expire.
 */
module LeaseCalls {
  import opened Scheduling
  import opened LeaseProtocol

  /** Nothing the worker could take is left: it holds the group, or the provider is its own network. */
  ghost predicate NothingLeft(db: Db, w: Worker, own: set<Provider>) {
    forall a :: Has(db, a, Open) ==> Mine(db, w, db.assignments[a].group) || db.assignments[a].provider in own
  }

  lemma {:induction false} LowestOfGroup(db: Db, w: Worker, own: set<Provider>, a: nat) returns (b: nat)
    requires Claimable(db, w, own, a)
    ensures b in Candidates(db, w, own) && db.assignments[b].group == db.assignments[a].group && b <= a
    decreases a
  {
    if c :| c in db.assignments && c < a && db.assignments[c].group == db.assignments[a].group && Claimable(db, w, own, c) {
      b := LowestOfGroup(db, w, own, c);
    } else {
      b := a;
    }
  }

  lemma RenewedHolding(db: Db, w: Worker, now: int, ttl: nat)
    ensures Held(Reaped(db, w, now, ttl), w) == Held(db, w)
  {
    var mid := Reaped(db, w, now, ttl);
    forall l ensures l in Held(mid, w) <==> l in Held(db, w) {
    }
  }

  ghost function AddedLeases(db: Db, db': Db): set<nat> {
    set l | l in db'.leases && l !in db.leases
  }

  lemma GrantAddsHolding(db: Db, db': Db, w: Worker, chosen: set<nat>, until: int)
    requires Granted(db, db', w, chosen, until)
    ensures Held(db', w) == Held(db, w) + AddedLeases(db, db')
  {
    forall l ensures l in Held(db', w) <==> l in Held(db, w) || l in AddedLeases(db, db') {
      if l in db.leases { assert db'.leases[l] == db.leases[l]; }
    }
  }

  lemma OneLeaseEach(db: Db, db': Db, w: Worker, chosen: set<nat>, until: int)
    requires Granted(db, db', w, chosen, until)
    ensures |AddedLeases(db, db')| == |chosen|
  {
    var added, f := AddedLeases(db, db'), AssignmentOf(db');
    forall l, m | l in added && m in added && f(l) == f(m) ensures l == m {
      assert NewLease(db, db', l, f(l)) && NewLease(db, db', m, f(l));
    }
    ImageSize(added, f);
    var image := Image(added, f);
    forall a ensures a in chosen <==> a in image {
      if a in chosen {
        var l :| NewLease(db, db', l, a);
        assert l in added && f(l) == a;
      }
    }
    assert chosen == image;
  }

  lemma GrantCounts(db: Db, db': Db, w: Worker, chosen: set<nat>, until: int)
    requires Granted(db, db', w, chosen, until)
    ensures |Held(db', w)| == |Held(db, w)| + |chosen|
  {
    GrantAddsHolding(db, db', w, chosen, until);
    OneLeaseEach(db, db', w, chosen, until);
    assert Held(db, w) !! AddedLeases(db, db');
  }

  lemma ClaimTakesAll(db: Db, db': Db, w: Worker, want: nat, until: int, own: set<Provider>, chosen: set<nat>)
    requires FirstOf(chosen, Candidates(db, w, own), want) && Granted(db, db', w, chosen, until)
    requires |chosen| < want
    ensures NothingLeft(db', w, own)
  {
    var all := Candidates(db, w, own);
    assert chosen == all by {
      assert all == chosen + (all - chosen);
    }
    forall a | Has(db', a, Open) && db'.assignments[a].provider !in own ensures Mine(db', w, db'.assignments[a].group) {
      assert Has(db, a, Open);
      if Mine(db, w, db.assignments[a].group) {
        MineStays(db, db', w, chosen, until, db.assignments[a].group);
      } else {
        var b := LowestOfGroup(db, w, own, a);
        var l :| NewLease(db, db', l, b);
        assert Holds(db', w, l);
      }
    }
  }

  lemma ClaimConserves(db: Db, db': Db, w: Worker, capacity: nat, until: int, own: set<Provider>)
    requires ClaimUpTo(db, db', w, capacity, until, own)
    ensures |Held(db, w)| <= |Held(db', w)|
    ensures |Held(db', w)| <= if |Held(db, w)| < capacity then capacity else |Held(db, w)|
    ensures |Held(db', w)| < capacity ==> NothingLeft(db', w, own)
  {
    var held := |Held(db, w)|;
    if capacity > held {
      var want := capacity - held;
      var chosen :| FirstOf(chosen, Candidates(db, w, own), want) && Granted(db, db', w, chosen, until);
      GrantCounts(db, db', w, chosen, until);
      if |chosen| < want { ClaimTakesAll(db, db', w, want, until, own, chosen); }
    }
  }

  /**
   A lease call never takes a worker beyond the larger of its previous holding and its
   capacity; if the worker ends below capacity, nothing claimable is left for it.
   */
  lemma WorkConservation(db: Db, db': Db, w: Worker, capacity: nat, now: int, ttl: nat, own: set<Provider>)
    requires LeaseStep(db, db', w, capacity, now, ttl, own)
    ensures |Held(db, w)| <= |Held(db', w)|
    ensures |Held(db', w)| <= if |Held(db, w)| < capacity then capacity else |Held(db, w)|
    ensures |Held(db', w)| < capacity ==> NothingLeft(db', w, own)
  {
    RenewedHolding(db, w, now, ttl);
    ClaimConserves(Reaped(db, w, now, ttl), db', w, capacity, now + ttl, own);
  }

  /**
   Claims go to the lowest ids: whatever is still open below a newly claimed assignment is of a
   group the worker now holds, or in its own network.
   */
  lemma ClaimsLowestFirst(db: Db, db': Db, w: Worker, capacity: nat, now: int, ttl: nat, own: set<Provider>, l: nat, b: nat)
    requires LeaseStep(db, db', w, capacity, now, ttl, own)
    requires l in db'.leases && l !in db.leases && Has(db', b, Open) && b < db'.leases[l].assignment
    ensures Mine(db', w, db'.assignments[b].group) || db'.assignments[b].provider in own
  {
    ReapKeepsIds(db, w, now, ttl);
    LowestClaimed(Reaped(db, w, now, ttl), db', w, capacity, now + ttl, own, l, b);
  }

  lemma LowestClaimed(db: Db, db': Db, w: Worker, capacity: nat, until: int, own: set<Provider>, l: nat, b: nat)
    requires ClaimUpTo(db, db', w, capacity, until, own)
    requires l in db'.leases && l !in db.leases && Has(db', b, Open) && b < db'.leases[l].assignment
    ensures Mine(db', w, db'.assignments[b].group) || db'.assignments[b].provider in own
  {
    var chosen :| FirstOf(chosen, Candidates(db, w, own), capacity - |Held(db, w)|) && Granted(db, db', w, chosen, until);
    assert Has(db, b, Open);
    if Mine(db, w, db.assignments[b].group) {
      MineStays(db, db', w, chosen, until, db.assignments[b].group);
    } else if db.assignments[b].provider !in own {
      var c := LowestOfGroup(db, w, own, b);
      assert c in chosen;
      var m :| NewLease(db, db', m, c);
      assert Holds(db', w, m);
    }
  }

  lemma MineStays(db: Db, db': Db, w: Worker, chosen: set<nat>, until: int, g: Group)
    requires Granted(db, db', w, chosen, until) && Mine(db, w, g)
    ensures Mine(db', w, g)
  {
    var l :| l in db.leases && Holds(db, w, l) && db.leases[l].assignment in db.assignments
          && db.assignments[db.leases[l].assignment].group == g;
    assert Holds(db', w, l);
  }

  // ----- effect on leases and assignments

  lemma ReapEffect(db: Db, w: Worker, now: int, ttl: nat, l: nat)
    requires l in db.leases
    ensures var mid := Reaped(db, w, now, ttl);
            && l in mid.leases && mid.leases[l].assignment == db.leases[l].assignment && mid.leases[l].worker == db.leases[l].worker
            && (db.leases[l].worker == w && db.leases[l].live ==> mid.leases[l] == db.leases[l].(expires := now + ttl))
            && (db.leases[l].worker == w && !db.leases[l].live ==> mid.leases[l] == db.leases[l])
            && (db.leases[l].worker != w ==> mid.leases[l] == db.leases[l].(live := db.leases[l].live && db.leases[l].expires >= now))
  {
  }

  lemma ClaimEffect(db: Db, db': Db, w: Worker, capacity: nat, until: int, own: set<Provider>, l: nat)
    requires ClaimUpTo(db, db', w, capacity, until, own)
    ensures l in db.leases ==> l in db'.leases && db'.leases[l] == db.leases[l]
    ensures l in db'.leases && l !in db.leases ==>
              && db'.leases[l] == Lease(db'.leases[l].assignment, w, until, true)
              && Has(db, db'.leases[l].assignment, Open) && Has(db', db'.leases[l].assignment, Leased)
              && db'.assignments[db'.leases[l].assignment].provider !in own
  {
    if capacity > |Held(db, w)| && l in db'.leases && l !in db.leases {
      assert Candidate(db, w, own, db'.leases[l].assignment);
    }
  }

  lemma ReapKeepsIds(db: Db, w: Worker, now: int, ttl: nat)
    ensures Reaped(db, w, now, ttl).leases.Keys == db.leases.Keys
    ensures Reaped(db, w, now, ttl).assignments.Keys == db.assignments.Keys
  {
  }

  /**
   What a lease call does to leases: the caller's are extended, everyone's expired ones end,
   other workers' are otherwise untouched, and no new one is for a provider in the caller's own network.
   */
  lemma LeaseCallEffect(db: Db, db': Db, w: Worker, capacity: nat, now: int, ttl: nat, own: set<Provider>, l: nat)
    requires LeaseStep(db, db', w, capacity, now, ttl, own)
    ensures Holds(db', w, l) ==> db'.leases[l].expires == now + ttl
    ensures l in db.leases && db.leases[l].worker != w ==>
              l in db'.leases && db'.leases[l] == db.leases[l].(live := db.leases[l].live && db.leases[l].expires >= now)
    ensures l in db'.leases && l !in db.leases ==>
              && Holds(db', w, l) && Has(db', db'.leases[l].assignment, Leased)
              && db'.assignments[db'.leases[l].assignment].provider !in own
  {
    ReapKeepsIds(db, w, now, ttl);
    if l in db.leases { ReapEffect(db, w, now, ttl, l); }
    ClaimEffect(Reaped(db, w, now, ttl), db', w, capacity, now + ttl, own, l);
  }

  /** A leased assignment the caller holds stays leased, and the caller stays its holder. */
  lemma StillHeld(db: Db, db': Db, w: Worker, capacity: nat, now: int, ttl: nat, own: set<Provider>, l: nat)
    requires OneHolder(db) && LeaseStep(db, db', w, capacity, now, ttl, own)
    requires Holds(db, w, l) && Has(db, db.leases[l].assignment, Leased)
    ensures Holds(db', w, l) && db'.leases[l].assignment == db.leases[l].assignment && Has(db', db.leases[l].assignment, Leased)
  {
    ReapKeepsHeld(db, w, now, ttl, l);
    ClaimKeepsHeld(Reaped(db, w, now, ttl), db', w, capacity, now + ttl, own, l);
  }

  lemma ReapKeepsHeld(db: Db, w: Worker, now: int, ttl: nat, l: nat)
    requires OneHolder(db) && Holds(db, w, l) && Has(db, db.leases[l].assignment, Leased)
    ensures var mid := Reaped(db, w, now, ttl);
            Holds(mid, w, l) && mid.leases[l].assignment == db.leases[l].assignment && Has(mid, db.leases[l].assignment, Leased)
  {
    var renewed, a := Renewed(db, w, now + ttl), db.leases[l].assignment;
    assert l !in Expired(renewed, now);
    forall m | m in Expired(renewed, now) ensures renewed.leases[m].assignment != a { assert Live(db, m) && m != l; }
    assert !Freed(renewed, Expired(renewed, now), a);
  }

  lemma ClaimKeepsHeld(db: Db, db': Db, w: Worker, capacity: nat, until: int, own: set<Provider>, l: nat)
    requires ClaimUpTo(db, db', w, capacity, until, own) && Holds(db, w, l) && Has(db, db.leases[l].assignment, Leased)
    ensures Holds(db', w, l) && db'.leases[l].assignment == db.leases[l].assignment && Has(db', db.leases[l].assignment, Leased)
  {
  }

  lemma ReapReopens(db: Db, w: Worker, now: int, ttl: nat, l: nat)
    requires Live(db, l) && db.leases[l].worker != w && db.leases[l].expires < now && Has(db, db.leases[l].assignment, Leased)
    ensures Has(Reaped(db, w, now, ttl), db.leases[l].assignment, Open)
  {
    var renewed := Renewed(db, w, now + ttl);
    assert l in Expired(renewed, now) && Freed(renewed, Expired(renewed, now), db.leases[l].assignment);
  }

  /** The worker holds the assignment under a lease that is not among the given ones. */
  ghost predicate Claimed(before: set<nat>, db: Db, w: Worker, a: nat) {
    exists m :: m !in before && Holds(db, w, m) && db.leases[m].assignment == a
  }

  lemma OpenOrClaimed(db: Db, db': Db, w: Worker, capacity: nat, until: int, own: set<Provider>, a: nat, before: set<nat>)
    requires ClaimUpTo(db, db', w, capacity, until, own) && Has(db, a, Open) && db.leases.Keys == before
    ensures Has(db', a, Open) || Claimed(before, db', w, a)
  {
    if capacity > |Held(db, w)| {
      var chosen :| FirstOf(chosen, Candidates(db, w, own), capacity - |Held(db, w)|) && Granted(db, db', w, chosen, until);
      if a in chosen {
        var m :| NewLease(db, db', m, a);
        assert Holds(db', w, m);
      }
    }
  }

  /** The assignment of an expired lease is open again, unless the caller has claimed it. */
  lemma ExpiredReopens(db: Db, db': Db, w: Worker, capacity: nat, now: int, ttl: nat, own: set<Provider>, l: nat)
    requires LeaseStep(db, db', w, capacity, now, ttl, own)
    requires Live(db, l) && db.leases[l].worker != w && db.leases[l].expires < now && Has(db, db.leases[l].assignment, Leased)
    ensures var a := db.leases[l].assignment;
            Has(db', a, Open) || Claimed(db.leases.Keys, db', w, a)
  {
    ReapReopens(db, w, now, ttl, l);
    ReapKeepsIds(db, w, now, ttl);
    OpenOrClaimed(Reaped(db, w, now, ttl), db', w, capacity, now + ttl, own, db.leases[l].assignment, db.leases.Keys);
  }
}
