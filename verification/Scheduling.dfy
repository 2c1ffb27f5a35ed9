/**
 Assignments and leases: the tables, and the statements that change them
 (internal/coordinator/measurement.go, internal/scheduler/scheduler.go).

 The database enforces uniqueness only per (assignment, worker); that an assignment has one
 holder comes from the status protocol, and is proved in LeaseProtocol.
 */
module Scheduling {
  datatype Status = Open | Leased | Draining | Closed

  type Worker = string
  type Provider = string
  type Group = string

  datatype Assignment = Assignment(target: nat, provider: Provider, interval: int, group: Group, status: Status) {
    predicate Active() { status.Open? || status.Leased? }
  }

  datatype Lease = Lease(assignment: nat, worker: Worker, expires: int, live: bool)

  datatype Db = Db(assignments: map<nat, Assignment>, leases: map<nat, Lease>)

  predicate Live(db: Db, l: nat) { l in db.leases && db.leases[l].live }

  predicate Holds(db: Db, w: Worker, l: nat) { Live(db, l) && db.leases[l].worker == w }

  predicate Has(db: Db, a: nat, st: Status) { a in db.assignments && db.assignments[a].status == st }

  /** The open or leased replicas of a target. */
  function ActiveOf(db: Db, t: nat): set<nat> {
    set a | a in db.assignments && db.assignments[a].target == t && db.assignments[a].Active()
  }

  // ----- the lease transaction

  /** Live leases of the calling worker are extended. */
  function Renewed(db: Db, w: Worker, until: int): Db {
    db.(leases := map l | l in db.leases ::
          if Holds(db, w, l) then db.leases[l].(expires := until) else db.leases[l])
  }

  /** Some lease of the set is for this assignment. */
  predicate Freed(db: Db, gone: set<nat>, a: nat) {
    exists l :: l in gone && l in db.leases && db.leases[l].assignment == a
  }

  /** The given leases end, and the leased assignments among theirs reopen. */
  function Released(db: Db, gone: set<nat>): Db {
    Db(map a | a in db.assignments ::
         if Freed(db, gone, a) && db.assignments[a].status.Leased?
         then db.assignments[a].(status := Open) else db.assignments[a],
       map l | l in db.leases ::
         if l in gone then db.leases[l].(live := false) else db.leases[l])
  }

  function Expired(db: Db, now: int): set<nat> {
    set l | l in db.leases && db.leases[l].live && db.leases[l].expires < now
  }

  function Held(db: Db, w: Worker): set<nat> {
    set l | l in db.leases && db.leases[l].live && db.leases[l].worker == w
  }

  /** The worker already holds a replica of this redundancy group. */
  predicate Mine(db: Db, w: Worker, g: Group) {
    exists l :: l in db.leases && Holds(db, w, l) && db.leases[l].assignment in db.assignments
             && db.assignments[db.leases[l].assignment].group == g
  }

  predicate Claimable(db: Db, w: Worker, own: set<Provider>, a: nat) {
    && Has(db, a, Open)
    && !Mine(db, w, db.assignments[a].group)
    && db.assignments[a].provider !in own
  }

  /** One candidate per group: its lowest claimable assignment. */
  predicate Candidate(db: Db, w: Worker, own: set<Provider>, a: nat) {
    && Claimable(db, w, own, a)
    && forall b :: b in db.assignments && b < a && db.assignments[b].group == db.assignments[a].group ==>
         !Claimable(db, w, own, b)
  }

  function Candidates(db: Db, w: Worker, own: set<Provider>): set<nat> {
    set a | a in db.assignments && Candidate(db, w, own, a)
  }

  /** `chosen` is the first `limit` of `all` in order of id. */
  ghost predicate FirstOf(chosen: set<nat>, all: set<nat>, limit: nat) {
    && chosen <= all
    && |chosen| == (if |all| < limit then |all| else limit)
    && forall x, y :: x in chosen && y in all && y !in chosen ==> x < y
  }

  /** A fresh live lease of the worker for each chosen assignment, which becomes leased. */
  ghost predicate Granted(db: Db, db': Db, w: Worker, chosen: set<nat>, until: int) {
    && db'.assignments == (map a | a in db.assignments ::
         if a in chosen then db.assignments[a].(status := Leased) else db.assignments[a])
    && (forall l :: l in db.leases ==> l in db'.leases && db'.leases[l] == db.leases[l])
    && (forall l :: l in db'.leases && l !in db.leases ==>
          db'.leases[l].assignment in chosen && db'.leases[l] == Lease(db'.leases[l].assignment, w, until, true))
    && (forall a :: a in chosen ==> exists l :: NewLease(db, db', l, a))
    && (forall l, m, a :: NewLease(db, db', l, a) && NewLease(db, db', m, a) ==> l == m)
  }

  ghost predicate NewLease(db: Db, db': Db, l: nat, a: nat) {
    l in db'.leases && l !in db.leases && db'.leases[l].assignment == a
  }

  ghost predicate ClaimStep(db: Db, db': Db, w: Worker, want: nat, until: int, own: set<Provider>) {
    exists chosen :: FirstOf(chosen, Candidates(db, w, own), want) && Granted(db, db', w, chosen, until)
  }

  /** State of the tables when the lease call comes to claim. */
  function Reaped(db: Db, w: Worker, now: int, ttl: nat): Db {
    var renewed := Renewed(db, w, now + ttl);
    Released(renewed, Expired(renewed, now))
  }

  /** One lease call with a positive, already capped capacity. */
  ghost predicate LeaseStep(db: Db, db': Db, w: Worker, capacity: nat, now: int, ttl: nat, own: set<Provider>) {
    ClaimUpTo(Reaped(db, w, now, ttl), db', w, capacity, now + ttl, own)
  }

  /** Claims what the capacity leaves room for. */
  ghost predicate ClaimUpTo(db: Db, db': Db, w: Worker, capacity: nat, until: int, own: set<Provider>) {
    var held := |Held(db, w)|;
    if capacity > held then ClaimStep(db, db', w, capacity - held, until, own) else db' == db
  }

  // ----- release by the worker

  function GivenBack(db: Db, w: Worker, ids: set<nat>): set<nat> {
    set l | l in db.leases && db.leases[l].live && db.leases[l].worker == w && db.leases[l].assignment in ids
  }

  function ReleasedByWorker(db: Db, w: Worker, ids: set<nat>): Db { Released(db, GivenBack(db, w, ids)) }

  // ----- the statements of a scheduling pass

  datatype Listing = Listing(provider: Provider, priority: int)

  /** Eligible targets: active, in the published snapshot, of a monitored and listed provider. */
  type Routing = map<nat, Listing>

  datatype Config = Config(redundancy: int, fastInterval: int, midInterval: int, slowInterval: int, minInterval: int) {
    function WithDefaults(): (c: Config)
      ensures c.redundancy > 0 && c.fastInterval > 0 && c.midInterval > 0 && c.slowInterval > 0 && c.minInterval > 0
      ensures c.redundancy == if redundancy > 0 then redundancy else 3
      ensures c.minInterval == if minInterval > 0 then minInterval else 15
      ensures fastInterval <= 0 && midInterval <= 0 && slowInterval <= 0 ==>
                (c.fastInterval, c.midInterval, c.slowInterval) == (30, 60, 120)
      ensures fastInterval > 0 && midInterval > 0 && slowInterval > 0 ==>
                (c.fastInterval, c.midInterval, c.slowInterval) == (fastInterval, midInterval, slowInterval)
      ensures forall priority :: c.Interval(priority) >= c.minInterval
    {
      Config(if redundancy <= 0 then 3 else redundancy,
             if fastInterval <= 0 then 30 else fastInterval,
             if midInterval <= 0 then 60 else midInterval,
             if slowInterval <= 0 then 120 else slowInterval,
             if minInterval <= 0 then 15 else minInterval)
    }

    /** Providers of high, middle and low priority have their own interval, raised to the floor where it is shorter. */
    function Interval(priority: int): (r: int)
      ensures r >= minInterval
      ensures priority <= 10 ==> r == fastInterval || fastInterval < r == minInterval
      ensures 10 < priority <= 50 ==> r == midInterval || midInterval < r == minInterval
      ensures 50 < priority ==> r == slowInterval || slowInterval < r == minInterval
    {
      var byPriority := if priority <= 10 then fastInterval else if priority <= 50 then midInterval else slowInterval;
      if byPriority < minInterval then minInterval else byPriority
    }
  }

  function Marked(db: Db, eligible: Routing): Db {
    db.(assignments := map a | a in db.assignments ::
          if db.assignments[a].Active() && db.assignments[a].target !in eligible
          then db.assignments[a].(status := Draining) else db.assignments[a])
  }

  function DrainReleased(db: Db): Db {
    db.(leases := map l | l in db.leases ::
          if db.leases[l].live && Has(db, db.leases[l].assignment, Draining)
          then db.leases[l].(live := false) else db.leases[l])
  }

  function DrainClosed(db: Db): Db {
    db.(assignments := map a | a in db.assignments ::
          if db.assignments[a].status.Draining? then db.assignments[a].(status := Closed) else db.assignments[a])
  }

  /** One open replica is inserted for each missing slot of each eligible target. */
  ghost predicate Generated(db: Db, db': Db, eligible: Routing, cfg: Config, groupOf: nat -> Group) {
    && db'.leases == db.leases
    && (forall a :: a in db.assignments ==> a in db'.assignments && db'.assignments[a] == db.assignments[a])
    && (forall a :: a in db'.assignments && a !in db.assignments ==> NewReplica(db'.assignments[a], eligible, cfg, groupOf))
    && (forall t :: Filled(db, db', eligible, cfg, t))
  }

  /** The inserted replicas of a target are exactly its missing slots. */
  ghost predicate Filled(db: Db, db': Db, eligible: Routing, cfg: Config, t: nat) {
    |Added(db, db', t)| ==
      if t in eligible && |ActiveOf(db, t)| < cfg.redundancy then cfg.redundancy - |ActiveOf(db, t)| else 0
  }

  ghost predicate NewReplica(a: Assignment, eligible: Routing, cfg: Config, groupOf: nat -> Group) {
    && a.target in eligible
    && a.provider == eligible[a.target].provider
    && a.interval == cfg.Interval(eligible[a.target].priority)
    && a.group == groupOf(a.target)
    && a.status == Open
  }

  ghost function Added(db: Db, db': Db, t: nat): set<nat> {
    set a | a in db'.assignments && a !in db.assignments && db'.assignments[a].target == t
  }
}
