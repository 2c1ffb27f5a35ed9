/**
 Replay protection of signed requests: the timestamp window, the nonce table and its pruning
 (internal/wireauth/wireauth.go, internal/registry/registry.go, internal/coordinator/server.go).

 Verifying a request and recording its nonce is one step, on one clock that never goes back.
 The signature itself is an uninterpreted yes or no.
 */
module Replay {
  import opened Lifecycle

  /** Times are in nanoseconds. */
  const MAX_SKEW: nat := 120_000_000_000

  /** A signed request names its worker, nonce and timestamp; a copy of it is the same request. */
  datatype Request = Request(worker: string, nonce: string, timestamp: int)

  datatype Outcome = Unauthorized | Conflict | Forbidden | Served

  type Nonces = map<(string, string), int>

  predicate InWindow(timestamp: int, now: int, skew: nat) {
    var d := now - timestamp;
    (if d < 0 then -d else d) <= skew
  }

  /** The window is symmetric about the clock: as far behind as ahead of it. */
  lemma WindowExactly(timestamp: int, now: int, skew: nat)
    ensures InWindow(timestamp, now, skew) <==> now - skew <= timestamp <= now + skew
    ensures InWindow(timestamp, now, skew) <==> InWindow(2 * now - timestamp, now, skew)
  {
  }

  /** The nonce table behind the request middleware. */
  class Middleware {
    var nonces: Nonces

    constructor ()
      ensures nonces == map[]
    {
      nonces := map[];
    }

    /** Records a nonce; true when it was already recorded. */
    method SeenNonce(worker: string, nonce: string, now: int) returns (seen: bool)
      modifies this
      ensures seen == ((worker, nonce) in old(nonces))
      ensures nonces == if seen then old(nonces) else old(nonces)[(worker, nonce) := now]
    {
      seen := (worker, nonce) in nonces;
      if !seen { nonces := nonces[(worker, nonce) := now]; }
    }

    /** Verify first, then the nonce, then the lifecycle state. */
    method Signed(r: Request, signatureValid: bool, state: WorkerState, now: int) returns (outcome: Outcome)
      modifies this
      ensures outcome == Unauthorized <==> !(signatureValid && now - MAX_SKEW <= r.timestamp <= now + MAX_SKEW)
      ensures outcome == Conflict <==>
                signatureValid && now - MAX_SKEW <= r.timestamp <= now + MAX_SKEW && (r.worker, r.nonce) in old(nonces)
      ensures outcome == Forbidden ==> state == Suspended || state == Retired
      ensures outcome == Served ==> state != Suspended && state != Retired
      ensures nonces == if outcome == Forbidden || outcome == Served
                        then old(nonces)[(r.worker, r.nonce) := now] else old(nonces)
      ensures Next(State(now, old(nonces)), if outcome == Forbidden || outcome == Served then Accept(r) else Reject,
                   State(now, nonces), MAX_SKEW, 2 * MAX_SKEW)
    {
      if !signatureValid || !InWindow(r.timestamp, now, MAX_SKEW) { return Unauthorized; }
      var replayed := SeenNonce(r.worker, r.nonce, now);
      if replayed { return Conflict; }
      if state == Suspended || state == Retired { return Forbidden; }
      outcome := Served;
    }

    /** Drops nonces recorded before the retention window. */
    method PruneNonces(now: int, retention: nat)
      modifies this
      ensures forall k :: k in nonces <==> k in old(nonces) && now - old(nonces)[k] <= retention
      ensures forall k :: k in nonces ==> nonces[k] == old(nonces)[k]
      ensures forall skew: nat :: Next(State(now, old(nonces)), Prune, State(now, nonces), skew, retention)
    {
      nonces := Pruned(nonces, now, retention);
    }

    /** Background upkeep: nonces are kept for twice the skew. */
    method Maintain(now: int)
      modifies this
      ensures forall k :: k in nonces <==> k in old(nonces) && now - old(nonces)[k] <= 2 * MAX_SKEW
      ensures forall k :: k in nonces ==> nonces[k] == old(nonces)[k]
      ensures Next(State(now, old(nonces)), Prune, State(now, nonces), MAX_SKEW, 2 * MAX_SKEW)
    {
      PruneNonces(now, 2 * MAX_SKEW);
    }
  }

  function Pruned(nonces: Nonces, now: int, retention: nat): Nonces {
    map k | k in nonces && nonces[k] >= now - retention :: nonces[k]
  }

  // ----- every run

  datatype State = State(now: int, nonces: Nonces)

  datatype Event = Tick(elapsed: nat) | Accept(request: Request) | Reject | Prune

  /** Passing the middleware up to the state gate: in the window, and the nonce was not recorded. */
  ghost predicate Next(s: State, e: Event, s': State, skew: nat, retention: nat) {
    match e
    case Tick(elapsed) => s' == s.(now := s.now + elapsed)
    case Accept(r) =>
      && InWindow(r.timestamp, s.now, skew) && (r.worker, r.nonce) !in s.nonces
      && s' == s.(nonces := s.nonces[(r.worker, r.nonce) := s.now])
    case Reject => s' == s
    case Prune => s' == s.(nonces := Pruned(s.nonces, s.now, retention))
  }

  ghost predicate IsRun(states: seq<State>, events: seq<Event>, skew: nat, retention: nat) {
    && |states| == |events| + 1 && states[0].nonces == map[]
    && forall i :: 0 <= i < |events| ==> Next(states[i], events[i], states[i + 1], skew, retention)
  }

  /** No request is accepted twice. */
  ghost predicate ReplayFree(events: seq<Event>) {
    forall i, j :: 0 <= i < j < |events| && events[i].Accept? && events[j].Accept? ==>
      events[i].request != events[j].request
  }

  lemma {:induction false} ClockRuns(states: seq<State>, events: seq<Event>, skew: nat, retention: nat, i: nat, j: nat)
    requires IsRun(states, events, skew, retention) && i <= j < |states|
    ensures states[i].now <= states[j].now
  {
    if i < j {
      ClockRuns(states, events, skew, retention, i, j - 1);
      assert Next(states[j - 1], events[j - 1], states[j], skew, retention);
    }
  }

  /** A nonce recorded at an acceptance is still there, at its time or later, as long as the retention has not passed. */
  lemma {:induction false} NonceStays(states: seq<State>, events: seq<Event>, skew: nat, retention: nat, i: nat, j: nat)
    requires IsRun(states, events, skew, retention) && i < j < |states|
    requires events[i].Accept? && states[j].now <= states[i].now + retention
    ensures var r := events[i].request;
            (r.worker, r.nonce) in states[j].nonces && states[i].now <= states[j].nonces[(r.worker, r.nonce)]
    decreases j
  {
    var k := (events[i].request.worker, events[i].request.nonce);
    assert Next(states[j - 1], events[j - 1], states[j], skew, retention);
    if i < j - 1 {
      ClockRuns(states, events, skew, retention, j - 1, j);
      NonceStays(states, events, skew, retention, i, j - 1);
      ClockRuns(states, events, skew, retention, i, j - 1);
    }
  }

  /** Retention of twice the skew, or more, keeps every run free of replays. */
  lemma EnoughRetention(states: seq<State>, events: seq<Event>, skew: nat, retention: nat)
    requires IsRun(states, events, skew, retention) && retention >= 2 * skew
    ensures ReplayFree(events)
  {
    forall i, j | 0 <= i < j < |events| && events[i].Accept? && events[j].Accept?
      ensures events[i].request != events[j].request
    {
      assert Next(states[i], events[i], states[i + 1], skew, retention);
      assert Next(states[j], events[j], states[j + 1], skew, retention);
      if states[j].now <= states[i].now + retention {
        NonceStays(states, events, skew, retention, i, j);
      }
    }
  }

  /** With any shorter retention some run accepts one request twice: at the two ends of its window. */
  lemma ShortRetention(skew: nat, retention: nat) returns (states: seq<State>, events: seq<Event>)
    requires retention < 2 * skew
    ensures IsRun(states, events, skew, retention) && !ReplayFree(events)
  {
    var r := Request("w", "n", 0);
    var k := (r.worker, r.nonce);
    events := [Accept(r), Tick(2 * skew), Prune, Accept(r)];
    var early: int := 0 - skew;
    var recorded: Nonces := map[k := early];
    states := [State(early, map[]), State(early, recorded), State(skew, recorded), State(skew, map[]),
               State(skew, map[k := skew])];
    assert Pruned(recorded, skew, retention) == map[];
    assert events[0].request == events[3].request;
  }

  /** Twice the skew is exactly the retention that is needed. */
  lemma RetentionIsTight(skew: nat, retention: nat)
    ensures retention >= 2 * skew <==>
            forall states, events :: IsRun(states, events, skew, retention) ==> ReplayFree(events)
  {
    if retention >= 2 * skew {
      forall states, events | IsRun(states, events, skew, retention) ensures ReplayFree(events) {
        EnoughRetention(states, events, skew, retention);
      }
    } else {
      var states, events := ShortRetention(skew, retention);
    }
  }
}
