/**
 Worker lifecycle states and the decisions that change them
 (internal/registry/registry.go, internal/coordinator/advisorsync.go).
 */
module Lifecycle {
  datatype WorkerState = Pending | Active | Suspended | Quarantined | Retired

  /** The table of legal transitions. */
  function Transitions(s: WorkerState): set<WorkerState> {
    match s
    case Pending => {Active, Suspended, Retired}
    case Active => {Suspended, Quarantined, Retired}
    case Suspended => {Active, Retired}
    case Quarantined => {Active, Suspended, Retired}
    case Retired => {}
  }

  /** In words: nobody leaves retirement or returns to pending, and only an active worker is quarantined; any other move is legal. */
  lemma LegalMoves(s: WorkerState, d: WorkerState)
    ensures d in Transitions(s) <==> s != Retired && d != Pending && d != s && (d == Quarantined ==> s == Active)
  {
  }

  type Worker = string

  datatype Decision = Decision(worker: Worker, state: WorkerState, decidedAt: int)

  /** A decision has no effect when the worker is already in that state, and none when it is refused. */
  function Apply(s: WorkerState, d: WorkerState): WorkerState {
    if d in Transitions(s) then d else s
  }

  predicate Accepted(s: WorkerState, d: WorkerState) { s == d || d in Transitions(s) }

  // ----- one worker's part of the feed

  function Fold(s: WorkerState, ds: seq<WorkerState>): WorkerState
    decreases |ds|
  {
    if ds == [] then s else Fold(Apply(s, ds[0]), ds[1..])
  }

  lemma {:induction false} FoldConcat(s: WorkerState, a: seq<WorkerState>, b: seq<WorkerState>)
    ensures Fold(s, a + b) == Fold(Fold(s, a), b)
    decreases |a|
  {
    if a == [] {
      assert a + b == b;
    } else {
      FoldConcat(Apply(s, a[0]), a[1..], b);
      assert (a + b)[1..] == a[1..] + b;
    }
  }

  /** Decisions that take effect in every state that is not retired. */
  predicate Resets(d: WorkerState) { d.Active? || d.Suspended? || d.Retired? }

  lemma {:induction false} RetiredStays(ds: seq<WorkerState>)
    ensures Fold(Retired, ds) == Retired
  {
    if ds == [] {
    } else {
      RetiredStays(ds[1..]);
    }
  }

  lemma {:induction false} RetiredWins(s: WorkerState, ds: seq<WorkerState>)
    requires Retired in ds
    ensures Fold(s, ds) == Retired
    decreases |ds|
  {
    if ds[0] == Retired {
      RetiredStays(ds[1..]);
    } else {
      assert Retired in ds[1..];
      RetiredWins(Apply(s, ds[0]), ds[1..]);
    }
  }

  /** A feed that holds a reset forgets the state it started from. */
  lemma {:induction false} ResetForgets(s: WorkerState, t: WorkerState, ds: seq<WorkerState>)
    requires s != Retired && t != Retired
    requires exists d :: d in ds && Resets(d)
    ensures Fold(s, ds) == Fold(t, ds)
    decreases |ds|
  {
    if Resets(ds[0]) {
      assert Apply(s, ds[0]) == ds[0] == Apply(t, ds[0]);
    } else {
      var d :| d in ds && Resets(d);
      assert d in ds[1..];
      ResetForgets(Apply(s, ds[0]), Apply(t, ds[0]), ds[1..]);
    }
  }

  /** Without resets, a worker that is not active is never moved. */
  lemma {:induction false} NoResetHolds(s: WorkerState, ds: seq<WorkerState>)
    requires s != Active && forall d :: d in ds ==> !Resets(d)
    ensures Fold(s, ds) == s
    decreases |ds|
  {
    if ds == [] {
    } else {
      assert ds[0] in ds;
      NoResetHolds(Apply(s, ds[0]), ds[1..]);
    }
  }

  /** Without resets, an active worker is quarantined by the first quarantine and otherwise stays. */
  lemma {:induction false} NoResetActive(ds: seq<WorkerState>)
    requires forall d :: d in ds ==> !Resets(d)
    ensures Fold(Active, ds) == if Quarantined in ds then Quarantined else Active
  {
    if ds == [] {
    } else {
      assert ds[0] in ds;
      if ds[0] == Quarantined {
        NoResetHolds(Quarantined, ds[1..]);
      } else {
        NoResetActive(ds[1..]);
      }
    }
  }

  lemma {:induction false} NeverRetired(s: WorkerState, ds: seq<WorkerState>)
    requires s != Retired && Retired !in ds
    ensures Fold(s, ds) != Retired
    decreases |ds|
  {
    if ds == [] {
    } else {
      NeverRetired(Apply(s, ds[0]), ds[1..]);
    }
  }

  /**
   Convergence: whatever was applied before out of the same feed, in any order, applying the
   whole feed leads to the state one application from the start leads to.
   */
  lemma ReplayConverges(s: WorkerState, before: seq<WorkerState>, feed: seq<WorkerState>)
    requires forall d :: d in before ==> d in feed
    ensures Fold(Fold(s, before), feed) == Fold(s, feed)
  {
    var x := Fold(s, before);
    if Retired in feed {
      RetiredWins(x, feed);
      RetiredWins(s, feed);
    } else if s == Retired {
      RetiredStays(before);
    } else {
      NeverRetired(s, before);
      if exists d :: d in feed && Resets(d) {
        ResetForgets(x, s, feed);
      } else {
        if s == Active {
          NoResetActive(before);
          NoResetActive(feed);
          NoResetHolds(Quarantined, feed);
        } else {
          NoResetHolds(s, before);
        }
      }
    }
  }

  /** Replaying any suffix of an applied feed leaves the final state alone. */
  lemma SuffixReplay(s: WorkerState, feed: seq<WorkerState>, k: nat)
    requires k <= |feed|
    ensures Fold(Fold(s, feed), feed[k..]) == Fold(s, feed)
  {
    var pre, suf := feed[..k], feed[k..];
    assert feed == pre + suf;
    FoldConcat(s, pre, suf);
    ReplayConverges(Fold(s, pre), suf, suf);
  }
}
