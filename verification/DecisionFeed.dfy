/**
 The decision loop of the advisor sync: polling an append-only feed with a cursor, over any
 schedule of successful polls, failed polls, restarts and crashes in the middle of a poll
 (internal/coordinator/advisorsync.go).
 */
module DecisionFeed {
  import opened Lifecycle

  type Registry = map<Worker, WorkerState>

  /** Feed timestamps are positive and strictly increasing; zero is the cursor of a fresh start. */
  ghost predicate Increasing(feed: seq<Decision>) {
    && (forall i :: 0 <= i < |feed| ==> feed[i].decidedAt > 0)
    && (forall i, j :: 0 <= i < j < |feed| ==> feed[i].decidedAt < feed[j].decidedAt)
  }

  /** What the site returns: the decisions recorded after the cursor, oldest first. */
  function Since(feed: seq<Decision>, cursor: int): seq<Decision> {
    if feed == [] then []
    else if feed[0].decidedAt > cursor then [feed[0]] + Since(feed[1..], cursor)
    else Since(feed[1..], cursor)
  }

  /** One worker's decisions, in order. */
  function Of(w: Worker, ds: seq<Decision>): seq<WorkerState> {
    if ds == [] then []
    else if ds[0].worker == w then [ds[0].state] + Of(w, ds[1..])
    else Of(w, ds[1..])
  }

  predicate Takes(r: Registry, d: Decision) { d.worker in r && Accepted(r[d.worker], d.state) }

  function ApplyTo(r: Registry, d: Decision): Registry {
    if d.worker in r then r[d.worker := Apply(r[d.worker], d.state)] else r
  }

  /** Registry and cursor after the first `n` decisions of a batch. */
  function After(r: Registry, batch: seq<Decision>, n: nat): Registry
    requires n <= |batch|
  {
    if n == 0 then r else ApplyTo(After(r, batch, n - 1), batch[n - 1])
  }

  function CursorAfter(r: Registry, batch: seq<Decision>, since: int, n: nat): int
    requires n <= |batch|
  {
    if n == 0 then since
    else
      var cursor := CursorAfter(r, batch, since, n - 1);
      if Takes(After(r, batch, n - 1), batch[n - 1]) && batch[n - 1].decidedAt > cursor
      then batch[n - 1].decidedAt else cursor
  }

  /** The registry and the poller's cursor, which lives in memory only. */
  class Poller {
    var registry: Registry
    var cursor: int

    constructor (r: Registry)
      ensures registry == r && cursor == 0
    {
      registry, cursor := r, 0;
    }

    /** Applies one decision; false when the worker is unknown or the transition is refused. */
    method ApplyDecision(d: Decision) returns (ok: bool)
      modifies this`registry
      ensures ok <==> d.worker in registry && registry[d.worker] == d.state
      ensures registry.Keys == old(registry).Keys && forall w :: w in registry && w != d.worker ==> registry[w] == old(registry)[w]
      ensures registry == ApplyTo(old(registry), d) && ok == Takes(old(registry), d)
    {
      if d.worker !in registry { return false; }
      var current := registry[d.worker];
      if current == d.state { return true; }
      if d.state !in Transitions(current) { return false; }
      registry := registry[d.worker := d.state];
      ok := true;
    }

    /** One pass over the decision feed; a failed pull changes nothing. */
    method SyncDecisions(feed: seq<Decision>, reachable: bool)
      modifies this
      ensures !reachable ==> registry == old(registry) && cursor == old(cursor)
      ensures reachable ==>
                var batch := Since(feed, old(cursor));
                && registry == After(old(registry), batch, |batch|)
                && cursor == CursorAfter(old(registry), batch, old(cursor), |batch|)
                && (Increasing(feed) && batch != [] && InForceAt(registry, batch[|batch| - 1]) ==> cursor == batch[|batch| - 1].decidedAt)
    {
      if !reachable { return; }
      var batch := Since(feed, cursor);
      var next := cursor;
      for n := 0 to |batch|
        invariant cursor == old(cursor)
        invariant registry == After(old(registry), batch, n)
        invariant next == CursorAfter(old(registry), batch, old(cursor), n)
      {
        var ok := ApplyDecision(batch[n]);
        if ok && batch[n].decidedAt > next {
          next := batch[n].decidedAt;
        }
      }
      cursor := next;
      if Increasing(feed) && batch != [] {
        BatchIsLater(feed, old(cursor));
        LastTakes(old(registry), batch, old(cursor));
      }
    }
  }

  // ----- batches

  lemma {:induction false} SinceIsSuffix(feed: seq<Decision>, cursor: int) returns (k: nat)
    requires Increasing(feed)
    ensures k <= |feed| && Since(feed, cursor) == feed[k..]
    ensures forall i :: 0 <= i < |feed| ==> (i < k <==> feed[i].decidedAt <= cursor)
  {
    if feed == [] {
      k := 0;
    } else {
      var j := SinceIsSuffix(feed[1..], cursor);
      if feed[0].decidedAt > cursor {
        assert |feed| > 1 ==> feed[1..][0].decidedAt > cursor;
        k := 0;
      } else {
        k := j + 1;
      }
      forall i | 0 <= i < |feed| ensures i < k <==> feed[i].decidedAt <= cursor {
        if i > 0 { assert feed[1..][i - 1] == feed[i]; }
      }
    }
  }

  lemma {:induction false} OfConcat(w: Worker, a: seq<Decision>, b: seq<Decision>)
    ensures Of(w, a + b) == Of(w, a) + Of(w, b)
  {
    if a == [] {
      assert a + b == b;
    } else {
      OfConcat(w, a[1..], b);
      assert (a + b)[1..] == a[1..] + b;
    }
  }

  lemma {:induction false} AfterIsFold(r: Registry, batch: seq<Decision>, n: nat, w: Worker)
    requires n <= |batch| && w in r
    ensures After(r, batch, n).Keys == r.Keys
    ensures After(r, batch, n)[w] == Fold(r[w], Of(w, batch[..n]))
  {
    if n == 0 {
    } else {
      AfterIsFold(r, batch, n - 1, w);
      var d := batch[n - 1];
      assert batch[..n] == batch[..n - 1] + [d];
      OfConcat(w, batch[..n - 1], [d]);
      FoldConcat(r[w], Of(w, batch[..n - 1]), Of(w, [d]));
    }
  }

  lemma {:induction false} CursorBounds(r: Registry, batch: seq<Decision>, since: int, n: nat, limit: int)
    requires n <= |batch| && since <= limit
    requires forall i :: 0 <= i < |batch| ==> batch[i].decidedAt <= limit
    ensures since <= CursorAfter(r, batch, since, n) <= limit
  {
    if n == 0 {
    } else {
      CursorBounds(r, batch, since, n - 1, limit);
    }
  }

  // ----- every schedule

  /**
   `origin` is the registry before the first poll, `seen` how much of the feed the last
   completed poll had read, `applied` everything applied to each worker so far, and `settled`
   is false between a crash in the middle of a poll and the next completed one.
   */
  datatype System = System(feed: seq<Decision>, registry: Registry, cursor: int, seen: nat, settled: bool,
                           applied: map<Worker, seq<WorkerState>>)

  datatype Event = Append(more: seq<Decision>) | Poll | FailedPoll | Restart | Crash(done: nat)

  ghost predicate Init(s: System, origin: Registry) {
    && s.feed == [] && s.registry == origin && s.cursor == 0 && s.seen == 0 && s.settled
    && s.applied.Keys == origin.Keys && forall w :: w in origin ==> s.applied[w] == []
  }

  ghost function Log(applied: map<Worker, seq<WorkerState>>, ds: seq<Decision>): map<Worker, seq<WorkerState>> {
    map w | w in applied :: applied[w] + Of(w, ds)
  }

  ghost predicate Next(s: System, e: Event, s': System) {
    var batch := Since(s.feed, s.cursor);
    match e
    case Append(more) => Increasing(s.feed + more) && s' == s.(feed := s.feed + more)
    case Poll =>
      s' == s.(registry := After(s.registry, batch, |batch|),
               cursor := CursorAfter(s.registry, batch, s.cursor, |batch|),
               seen := |s.feed|, settled := true, applied := Log(s.applied, batch))
    case FailedPoll => s' == s
    case Restart => s' == s.(cursor := 0)
    case Crash(done) =>
      done <= |batch| &&
      s' == s.(registry := After(s.registry, batch, done), cursor := 0, settled := false,
               applied := Log(s.applied, batch[..done]))
  }

  /** Each worker is where one pass over the part of the feed read so far would have put it. */
  ghost predicate InForce(s: System, origin: Registry)
    requires s.seen <= |s.feed| && s.registry.Keys == origin.Keys
  {
    forall w :: w in origin ==> s.registry[w] == Fold(origin[w], Of(w, s.feed[..s.seen]))
  }

  /** Whatever was applied came from the feed. */
  ghost predicate FromFeed(s: System, origin: Registry)
    requires s.registry.Keys == origin.Keys == s.applied.Keys
  {
    forall w :: w in origin ==>
      && s.registry[w] == Fold(origin[w], s.applied[w])
      && forall d :: d in s.applied[w] ==> d in Of(w, s.feed)
  }

  ghost predicate Inv(s: System, origin: Registry) {
    && Increasing(s.feed) && s.seen <= |s.feed|
    && s.registry.Keys == origin.Keys == s.applied.Keys
    && FromFeed(s, origin)
    && (s.settled ==> InForce(s, origin))
    && (!s.settled ==> s.cursor == 0)
    && CursorSeen(s)
  }

  /** The cursor never passes what a completed poll has read. */
  ghost predicate CursorSeen(s: System)
    requires s.seen <= |s.feed|
  {
    s.cursor == 0 || (s.seen > 0 && 0 < s.cursor <= s.feed[s.seen - 1].decidedAt)
  }

  lemma OfMember(w: Worker, a: seq<Decision>, b: seq<Decision>, d: WorkerState)
    requires d in Of(w, a) || d in Of(w, b)
    ensures d in Of(w, a + b)
  {
    OfConcat(w, a, b);
  }

  lemma BatchFromFeed(feed: seq<Decision>, cursor: int, n: nat, w: Worker, d: WorkerState)
    requires Increasing(feed) && n <= |Since(feed, cursor)| && d in Of(w, Since(feed, cursor)[..n])
    ensures d in Of(w, feed)
  {
    var batch := Since(feed, cursor);
    var k := SinceIsSuffix(feed, cursor);
    assert batch == batch[..n] + batch[n..] && feed == feed[..k] + batch;
    OfMember(w, batch[..n], batch[n..], d);
    OfMember(w, feed[..k], batch, d);
  }

  /** The effect on one worker of applying the first decisions of a batch. */
  lemma PartApplied(s: System, origin: Registry, n: nat, w: Worker)
    requires Inv(s, origin) && w in origin && n <= |Since(s.feed, s.cursor)|
    ensures After(s.registry, Since(s.feed, s.cursor), n).Keys == origin.Keys
    ensures After(s.registry, Since(s.feed, s.cursor), n)[w] ==
            Fold(origin[w], s.applied[w] + Of(w, Since(s.feed, s.cursor)[..n]))
  {
    var batch := Since(s.feed, s.cursor);
    AfterIsFold(s.registry, batch, n, w);
    FoldConcat(origin[w], s.applied[w], Of(w, batch[..n]));
  }

  /** Reading an overlap again before new decisions is as good as reading only the new ones. */
  lemma OverlapReplay(s: WorkerState, a: seq<WorkerState>, b: seq<WorkerState>, c: seq<WorkerState>)
    ensures Fold(Fold(s, a + b), b + c) == Fold(s, (a + b) + c)
  {
    SuffixReplay(s, a + b, |a|);
    assert (a + b)[|a|..] == b;
    FoldConcat(Fold(s, a + b), b, c);
    FoldConcat(s, a + b, c);
  }

  lemma OverlapRead(feed: seq<Decision>, k: nat, seen: nat, w: Worker, s: WorkerState)
    requires k <= seen <= |feed|
    ensures Fold(Fold(s, Of(w, feed[..seen])), Of(w, feed[k..])) == Fold(s, Of(w, feed))
  {
    var a, b, c := feed[..k], feed[k..seen], feed[seen..];
    assert feed[..seen] == a + b && feed[k..] == b + c && feed == (a + b) + c;
    OfConcat(w, a, b);
    OfConcat(w, b, c);
    OfConcat(w, a + b, c);
    OverlapReplay(s, Of(w, a), Of(w, b), Of(w, c));
  }

  /** A completed poll puts a worker where one pass over the whole feed would. */
  lemma PollSettles(s: System, origin: Registry, w: Worker)
    requires Inv(s, origin) && w in origin
    ensures var batch := Since(s.feed, s.cursor);
            w in After(s.registry, batch, |batch|) &&
            After(s.registry, batch, |batch|)[w] == Fold(origin[w], Of(w, s.feed))
  {
    var batch := Since(s.feed, s.cursor);
    AfterIsFold(s.registry, batch, |batch|, w);
    assert batch[..|batch|] == batch;
    var k := SinceIsSuffix(s.feed, s.cursor);
    if s.settled {
      assert s.seen < |s.feed| ==> s.cursor < s.feed[s.seen].decidedAt;
      OverlapRead(s.feed, k, s.seen, w, origin[w]);
    } else {
      assert |s.feed| > 0 ==> s.feed[0].decidedAt > 0;
      ReplayConverges(origin[w], s.applied[w], Of(w, s.feed));
    }
  }

  lemma WorkersKept(r: Registry, batch: seq<Decision>, n: nat)
    requires n <= |batch|
    ensures After(r, batch, n).Keys == r.Keys
  {
  }

  lemma AppliedKeeps(s: System, origin: Registry, n: nat, s': System)
    requires Inv(s, origin) && n <= |Since(s.feed, s.cursor)|
    requires s'.feed == s.feed && s'.registry == After(s.registry, Since(s.feed, s.cursor), n)
    requires s'.applied == Log(s.applied, Since(s.feed, s.cursor)[..n])
    ensures s'.registry.Keys == origin.Keys == s'.applied.Keys && FromFeed(s', origin)
  {
    var batch := Since(s.feed, s.cursor);
    WorkersKept(s.registry, batch, n);
    forall w | w in origin
      ensures s'.registry[w] == Fold(origin[w], s'.applied[w]) && forall d :: d in s'.applied[w] ==> d in Of(w, s'.feed)
    {
      PartApplied(s, origin, n, w);
      forall d | d in Of(w, batch[..n]) ensures d in Of(w, s.feed) { BatchFromFeed(s.feed, s.cursor, n, w, d); }
    }
  }

  lemma PollKeeps(s: System, origin: Registry, s': System)
    requires Inv(s, origin) && Next(s, Poll, s')
    ensures Inv(s', origin)
  {
    var batch := Since(s.feed, s.cursor);
    assert batch[..|batch|] == batch;
    AppliedKeeps(s, origin, |batch|, s');
    assert s.feed[..|s.feed|] == s.feed;
    forall w | w in origin ensures s'.registry[w] == Fold(origin[w], Of(w, s'.feed[..s'.seen])) {
      PollSettles(s, origin, w);
    }
    PollCursor(s.feed, s.registry, s.cursor);
  }

  /** A poll leaves the cursor at or before the last decision of the feed. */
  lemma PollCursor(feed: seq<Decision>, r: Registry, cursor: int)
    requires Increasing(feed) && 0 <= cursor && (feed == [] ==> cursor == 0)
    requires feed != [] ==> cursor <= feed[|feed| - 1].decidedAt
    ensures var batch := Since(feed, cursor);
            var next := CursorAfter(r, batch, cursor, |batch|);
            next == 0 || (feed != [] && 0 < next <= feed[|feed| - 1].decidedAt)
  {
    if feed != [] {
      var batch, last := Since(feed, cursor), feed[|feed| - 1].decidedAt;
      var k := SinceIsSuffix(feed, cursor);
      forall i | 0 <= i < |batch| ensures batch[i].decidedAt <= last { assert batch[i] == feed[k + i]; }
      CursorBounds(r, batch, cursor, |batch|, last);
    }
  }

  lemma AppendKeeps(s: System, origin: Registry, more: seq<Decision>, s': System)
    requires Inv(s, origin) && Next(s, Append(more), s')
    ensures Inv(s', origin)
  {
    assert s'.feed[..s.seen] == s.feed[..s.seen];
    forall w, d | w in origin && d in s.applied[w] ensures d in Of(w, s'.feed) { OfMember(w, s.feed, more, d); }
  }

  lemma NextKeeps(s: System, e: Event, s': System, origin: Registry)
    requires Inv(s, origin) && Next(s, e, s')
    ensures Inv(s', origin)
  {
    match e
    case Append(more) => AppendKeeps(s, origin, more, s');
    case Poll => PollKeeps(s, origin, s');
    case FailedPoll =>
    case Restart =>
    case Crash(done) => AppliedKeeps(s, origin, done, s');
  }

  ghost predicate IsRun(states: seq<System>, events: seq<Event>, origin: Registry) {
    && |states| == |events| + 1 && Init(states[0], origin)
    && forall i :: 0 <= i < |events| ==> Next(states[i], events[i], states[i + 1])
  }

  lemma {:induction false} RunKeeps(states: seq<System>, events: seq<Event>, origin: Registry, n: nat)
    requires IsRun(states, events, origin) && n < |states|
    ensures Inv(states[n], origin)
  {
    if n == 0 {
    } else {
      RunKeeps(states, events, origin, n - 1);
      NextKeeps(states[n - 1], events[n - 1], states[n], origin);
    }
  }

  /**
   Any schedule refines one fold: right after every completed poll, each registered worker is
   in the state that applying the whole feed once, in order, would give it.
   */
  lemma AnyScheduleRefinesOneFold(states: seq<System>, events: seq<Event>, origin: Registry, n: nat, w: Worker)
    requires IsRun(states, events, origin) && n < |events| && events[n] == Poll && w in origin
    ensures w in states[n + 1].registry
    ensures states[n + 1].registry[w] == Fold(origin[w], Of(w, states[n].feed))
  {
    RunKeeps(states, events, origin, n);
    PollSettles(states[n], origin, w);
  }

  // ----- the cursor

  /** The decision is in force: its worker is registered and in the decided state. */
  predicate InForceAt(r: Registry, d: Decision) { d.worker in r && r[d.worker] == d.state }

  /** A decision takes exactly when it is in force right after its turn; one already in force before its turn takes too. */
  lemma TakesExactly(r: Registry, d: Decision)
    ensures Takes(r, d) <==> InForceAt(ApplyTo(r, d), d)
    ensures InForceAt(r, d) ==> Takes(r, d) && ApplyTo(r, d) == r
  {
    if d.worker in r && r[d.worker] == d.state {
      NoSelfTransition(d.state);
    }
  }

  lemma NoSelfTransition(s: WorkerState)
    ensures Apply(s, s) == s
  {
  }

  /** A batch is in order, and all of it is later than the cursor it was read with. */
  lemma BatchIsLater(feed: seq<Decision>, since: int)
    requires Increasing(feed)
    ensures Increasing(Since(feed, since)) && forall i :: 0 <= i < |Since(feed, since)| ==> since < Since(feed, since)[i].decidedAt
  {
    var batch := Since(feed, since);
    var k := SinceIsSuffix(feed, since);
    forall i | 0 <= i < |batch| ensures batch[i] == feed[k + i] && since < batch[i].decidedAt {}
  }

  /** If the last decision of a batch is in force in the end, the cursor ends at its time. */
  lemma {:induction false} LastTakes(r: Registry, batch: seq<Decision>, since: int)
    requires batch != [] && Increasing(batch) && forall i :: 0 <= i < |batch| ==> since < batch[i].decidedAt
    ensures var last := batch[|batch| - 1];
            InForceAt(After(r, batch, |batch|), last) ==> CursorAfter(r, batch, since, |batch|) == last.decidedAt
  {
    var n := |batch| - 1;
    TakesExactly(After(r, batch, n), batch[n]);
    CursorBelow(r, batch, since, n, batch[n].decidedAt);
  }

  lemma {:induction false} CursorBelow(r: Registry, batch: seq<Decision>, since: int, n: nat, limit: int)
    requires n <= |batch| && since < limit
    requires forall i :: 0 <= i < n ==> batch[i].decidedAt < limit
    ensures CursorAfter(r, batch, since, n) < limit
  {
    if n == 0 {
    } else {
      CursorBelow(r, batch, since, n - 1, limit);
    }
  }

  // ----- decisions that do not take

  /** Decision `i` of the batch took when its turn came. */
  ghost predicate Took(r: Registry, batch: seq<Decision>, i: nat)
    requires i < |batch|
  {
    Takes(After(r, batch, i), batch[i])
  }

  lemma {:induction false} CursorIsLastTaken(r: Registry, batch: seq<Decision>, since: int, n: nat, t: int)
    requires n <= |batch| && Increasing(batch)
    requires forall i :: 0 <= i < |batch| ==> since < batch[i].decidedAt
    requires since < t
    ensures CursorAfter(r, batch, since, n) < t <==>
            forall j :: 0 <= j < n && Took(r, batch, j) ==> batch[j].decidedAt < t
  {
    if n == 0 {
    } else {
      CursorIsLastTaken(r, batch, since, n - 1, t);
    }
  }

  /** The next poll reads a decision again exactly when neither it nor any later one of its batch took. */
  lemma RereadExactly(r: Registry, batch: seq<Decision>, since: int, i: nat)
    requires i < |batch| && Increasing(batch)
    requires forall j :: 0 <= j < |batch| ==> since < batch[j].decidedAt
    ensures CursorAfter(r, batch, since, |batch|) < batch[i].decidedAt <==>
            forall j :: i <= j < |batch| ==> !Took(r, batch, j)
  {
    CursorIsLastTaken(r, batch, since, |batch|, batch[i].decidedAt);
  }

  /**
   A decision for a worker that is not registered yet is lost to the running poller when a
   later one takes: after registration the worker stays pending, although its approval is in
   the feed.
   */
  lemma StrandedApproval() returns (feed: seq<Decision>, r: Registry)
    ensures Increasing(feed) && "late" !in r
    ensures var batch := Since(feed, 0);
            var cursor := CursorAfter(r, batch, 0, |batch|);
            var registered := After(r, batch, |batch|)["late" := Pending];
            var again := Since(feed, cursor);
            && Fold(Pending, Of("late", feed)) == Active
            && again == [] && registered["late"] == Pending
  {
    feed := [Decision("late", Active, 1), Decision("early", Active, 2)];
    r := map["early" := Pending];
    assert Since(feed[1..], 0) == feed[1..];
    var batch := Since(feed, 0);
    assert batch == feed;
    assert After(r, batch, 1) == r;
    assert CursorAfter(r, batch, 0, 1) == 0;
    assert CursorAfter(r, batch, 0, 2) == 2;
    assert Since(feed, 2) == [];
    assert Of("late", feed[1..]) == [];
    assert Of("late", feed) == [Active];
  }
}
