/**
 The published status and the reachability anomalies of one provider over all status rollups
 (`RollupStatus` and `handleTransition` of internal/aggregate/aggregate.go).
 */
module Status {
  import opened Basics
  import opened Consensus

  const GLOBAL := "global"

  /** A settled window: the verdict of one region and when the window started. */
  datatype Win = Win(region: Region, verdict: Verdict, start: int)

  datatype Entry = Entry(verdict: Verdict, since: int)
  datatype Anomaly = Anomaly(openedAt: int, resolvedAt: Option<int>)

  type Table = map<Region, Entry>

  datatype Board = Board(table: Table, anomalies: seq<Anomaly>)

  /** A rollup reads the newest window of each region, at most one per region. */
  ghost predicate OnePerRegion(wins: seq<Win>) {
    forall i, j :: 0 <= i < j < |wins| ==> wins[i].region != wins[j].region
  }

  // ----- steps

  function Upsert(table: Table, w: Win): Table {
    table[w.region := Entry(w.verdict,
      if w.region in table && table[w.region].verdict == w.verdict then table[w.region].since else w.start)]
  }

  function UpsertAll(table: Table, wins: seq<Win>, n: nat): Table
    requires n <= |wins|
  {
    if n == 0 then table else Upsert(UpsertAll(table, wins, n - 1), wins[n - 1])
  }

  /** Opening times of the anomalies that are not resolved. */
  function Unresolved(anomalies: seq<Anomaly>): seq<int> {
    if anomalies == [] then []
    else (if anomalies[0].resolvedAt.None? then [anomalies[0].openedAt] else []) + Unresolved(anomalies[1..])
  }

  function Resolve(anomalies: seq<Anomaly>, at: int): seq<Anomaly> {
    if anomalies == [] then []
    else [if anomalies[0].resolvedAt.None? then Anomaly(anomalies[0].openedAt, Some(at)) else anomalies[0]]
         + Resolve(anomalies[1..], at)
  }

  function Transition(anomalies: seq<Anomaly>, prev: Option<Verdict>, verdict: Verdict, at: int): seq<Anomaly> {
    var opens := verdict == Outage || (verdict == Degraded && prev == Some(Healthy));
    var grown := if opens && Unresolved(anomalies) == [] then anomalies + [Anomaly(at, None)] else anomalies;
    if verdict == Healthy then Resolve(grown, at) else grown
  }

  function Find(wins: seq<Win>, r: Region): seq<Win> {
    if wins == [] then [] else (if wins[0].region == r then [wins[0]] else []) + Find(wins[1..], r)
  }

  function Previous(table: Table): Option<Verdict> {
    if GLOBAL in table then Some(table[GLOBAL].verdict) else None
  }

  /** Status first, then the anomalies if there is a global window whose verdict changed. */
  function Rollup(b: Board, wins: seq<Win>): Board {
    var table := UpsertAll(b.table, wins, |wins|);
    var global := Find(wins, GLOBAL);
    if global == [] then Board(table, b.anomalies)
    else
      var w := global[|global| - 1];
      if Previous(b.table) == Some(w.verdict) then Board(table, b.anomalies)
      else Board(table, Transition(b.anomalies, Previous(b.table), w.verdict, w.start))
  }

  /** The tables of the status rollup and the code that maintains them. */
  class Engine {
    var table: Table
    var anomalies: seq<Anomaly>

    function View(): Board
      reads this
    {
      Board(table, anomalies)
    }

    constructor ()
      ensures View() == Board(map[], [])
    {
      table, anomalies := map[], [];
    }

    /** If the open anomalies were right for the verdicts so far, they are right with the new one added. */
    method HandleTransition(prev: Option<Verdict>, verdict: Verdict, at: int)
      modifies this`anomalies
      ensures forall h, w: Win :: Tracked(old(anomalies), h) && Latest(h) == prev && w.verdict == verdict && w.start == at ==>
                Tracked(anomalies, h + [w])
      ensures |old(anomalies)| <= |anomalies|
      ensures forall i :: 0 <= i < |old(anomalies)| ==> Follows(old(anomalies)[i], anomalies[i], at)
      ensures anomalies == Transition(old(anomalies), prev, verdict, at)
    {
      TransitionKeeps(anomalies, prev, verdict, at);
      if verdict == Outage || (verdict == Degraded && prev == Some(Healthy)) {
        if Unresolved(anomalies) == [] {
          anomalies := anomalies + [Anomaly(at, None)];
        }
      }
      if verdict == Healthy {
        anomalies := Resolve(anomalies, at);
      }
    }

    method RollupStatus(wins: seq<Win>)
      modifies this
      ensures View() == Rollup(old(View()), wins)
    {
      var prev := Previous(table);
      var global: Option<Win> := None;
      for n := 0 to |wins|
        invariant table == UpsertAll(old(table), wins, n) && anomalies == old(anomalies)
        invariant global == LastOf(wins, n, GLOBAL)
      {
        if wins[n].region == GLOBAL {
          global := Some(wins[n]);
        }
        table := Upsert(table, wins[n]);
      }
      LastIsFound(wins, |wins|, GLOBAL);
      assert wins[..|wins|] == wins;
      if global.Some? && prev != Some(global.value.verdict) {
        HandleTransition(prev, global.value.verdict, global.value.start);
      }
    }
  }

  /** The last of the first `n` windows that is of the region. */
  function LastOf(wins: seq<Win>, n: nat, r: Region): Option<Win>
    requires n <= |wins|
  {
    if n == 0 then None else if wins[n - 1].region == r then Some(wins[n - 1]) else LastOf(wins, n - 1, r)
  }

  lemma {:induction false} LastIsFound(wins: seq<Win>, n: nat, r: Region)
    requires n <= |wins|
    ensures var f := Find(wins[..n], r); LastOf(wins, n, r) == if f == [] then None else Some(f[|f| - 1])
  {
    if n == 0 {
    } else {
      LastIsFound(wins, n - 1, r);
      assert wins[..n] == wins[..n - 1] + [wins[n - 1]];
      FindConcat(wins[..n - 1], [wins[n - 1]], r);
    }
  }

  lemma {:induction false} FindConcat(a: seq<Win>, b: seq<Win>, r: Region)
    ensures Find(a + b, r) == Find(a, r) + Find(b, r)
  {
    if a == [] {
      assert a + b == b;
    } else {
      FindConcat(a[1..], b, r);
      var first := if a[0].region == r then [a[0]] else [];
      assert (a + b)[1..] == a[1..] + b;
      assert first + (Find(a[1..], r) + Find(b, r)) == (first + Find(a[1..], r)) + Find(b, r);
    }
  }

  // ----- every sequence of rollups

  function Run(rollups: seq<seq<Win>>): Board
    decreases |rollups|
  {
    if rollups == [] then Board(map[], []) else Rollup(Run(rollups[..|rollups| - 1]), rollups[|rollups| - 1])
  }

  /** What the rollups saw of one region. */
  function History(rollups: seq<seq<Win>>, r: Region): seq<Win>
    decreases |rollups|
  {
    if rollups == [] then [] else History(rollups[..|rollups| - 1], r) + Find(rollups[|rollups| - 1], r)
  }

  ghost predicate WellFormed(rollups: seq<seq<Win>>) {
    forall i :: 0 <= i < |rollups| ==> OnePerRegion(rollups[i])
  }

  /** The current unbroken run of equal verdicts began at index `k`. */
  ghost predicate RunBegan(h: seq<Win>, k: nat) {
    && k < |h|
    && (forall j :: k <= j < |h| ==> h[j].verdict == h[|h| - 1].verdict)
    && (k > 0 ==> h[k - 1].verdict != h[|h| - 1].verdict)
  }

  /** The entry of a region is absent before its first window, and then dates from the start of its run. */
  ghost predicate Dated(table: Table, r: Region, h: seq<Win>) {
    if h == [] then r !in table
    else
      && r in table && table[r].verdict == h[|h| - 1].verdict
      && exists k: nat :: RunBegan(h, k) && table[r].since == h[k].start
  }

  lemma {:induction false} FindAtMostOne(wins: seq<Win>, r: Region)
    requires OnePerRegion(wins)
    ensures |Find(wins, r)| <= 1
    ensures forall w :: w in Find(wins, r) ==> w.region == r
    ensures r !in (set i | 0 <= i < |wins| :: wins[i].region) ==> Find(wins, r) == []
  {
    if wins == [] {
    } else {
      FindAtMostOne(wins[1..], r);
      if wins[0].region == r {
        forall i | 0 <= i < |wins[1..]| ensures wins[1..][i].region != r { assert wins[1..][i] == wins[i + 1]; }
      } else {
        forall i | 0 <= i < |wins[1..]| ensures wins[1..][i].region in (set i | 0 <= i < |wins| :: wins[i].region) {
          assert wins[1..][i] == wins[i + 1];
        }
      }
    }
  }

  lemma {:induction false} NoneBefore(wins: seq<Win>, n: nat, r: Region)
    requires n <= |wins| && forall i :: 0 <= i < n ==> wins[i].region != r
    ensures LastOf(wins, n, r) == None
  {
    if n == 0 {
    } else {
      NoneBefore(wins, n - 1, r);
    }
  }

  /** The entry of a region, if it has one. */
  function EntryOf(table: Table, r: Region): Option<Entry> { if r in table then Some(table[r]) else None }

  /** One rollup touches a region's entry exactly as its own window says. */
  lemma {:induction false} UpsertOne(table: Table, wins: seq<Win>, n: nat, r: Region)
    requires OnePerRegion(wins) && n <= |wins|
    ensures match LastOf(wins, n, r)
            case None => EntryOf(UpsertAll(table, wins, n), r) == EntryOf(table, r)
            case Some(w) => w.region == r && EntryOf(UpsertAll(table, wins, n), r) == EntryOf(Upsert(table, w), r)
  {
    if n == 0 {
    } else {
      UpsertOne(table, wins, n - 1, r);
      if wins[n - 1].region == r { NoneBefore(wins, n - 1, r); }
    }
  }

  lemma RunExtends(h: seq<Win>, w: Win, k: nat)
    requires RunBegan(h, k)
    ensures h[|h| - 1].verdict == w.verdict ==> RunBegan(h + [w], k)
    ensures h[|h| - 1].verdict != w.verdict ==> RunBegan(h + [w], |h|)
  {
  }

  lemma DatedNext(table: Table, r: Region, h: seq<Win>, w: Win)
    requires Dated(table, r, h) && w.region == r
    ensures Dated(Upsert(table, w), r, h + [w])
  {
    if h == [] {
      assert RunBegan([w], 0);
    } else {
      var k: nat :| RunBegan(h, k) && table[r].since == h[k].start;
      RunExtends(h, w, k);
      var k' := if h[|h| - 1].verdict == w.verdict then k else |h|;
      assert RunBegan(h + [w], k') && Upsert(table, w)[r].since == (h + [w])[k'].start;
    }
  }

  lemma SameEntry(a: Table, b: Table, r: Region, h: seq<Win>)
    requires EntryOf(a, r) == EntryOf(b, r) && Dated(a, r, h)
    ensures Dated(b, r, h)
  {
  }

  /** The entry of one region is what a single upsert of its own window makes it. */
  lemma DatedRollup(table: Table, wins: seq<Win>, r: Region, h: seq<Win>)
    requires OnePerRegion(wins) && Dated(table, r, h)
    ensures Dated(UpsertAll(table, wins, |wins|), r, h + Find(wins, r))
  {
    var after, f := UpsertAll(table, wins, |wins|), Find(wins, r);
    UpsertOne(table, wins, |wins|, r);
    LastIsFound(wins, |wins|, r);
    assert wins[..|wins|] == wins;
    FindAtMostOne(wins, r);
    if f == [] {
      assert h + f == h;
      SameEntry(table, after, r, h);
    } else {
      assert f == [f[0]];
      DatedNext(table, r, h, f[0]);
      SameEntry(Upsert(table, f[0]), after, r, h + [f[0]]);
    }
  }

  /** After any sequence of rollups, `since` of every region is the start of its current run of equal verdicts. */
  lemma {:induction false} SinceIsRunStart(rollups: seq<seq<Win>>, r: Region)
    requires WellFormed(rollups)
    ensures Dated(Run(rollups).table, r, History(rollups, r))
    decreases |rollups|
  {
    if rollups == [] {
    } else {
      var before, wins := rollups[..|rollups| - 1], rollups[|rollups| - 1];
      SinceIsRunStart(before, r);
      DatedRollup(Run(before).table, wins, r, History(before, r));
    }
  }

  // ----- anomalies

  /** A verdict that raises an alarm: an outage, or a degradation straight from healthy. */
  ghost predicate Alarm(h: seq<Win>, k: nat) {
    k < |h| && (h[k].verdict == Outage || (h[k].verdict == Degraded && k > 0 && h[k - 1].verdict == Healthy))
  }

  /** An alarm since which nothing was healthy. */
  ghost predicate Standing(h: seq<Win>, k: nat) {
    Alarm(h, k) && forall j :: k <= j < |h| ==> h[j].verdict != Healthy
  }

  ghost predicate FirstStanding(h: seq<Win>, k: nat) {
    Standing(h, k) && forall j :: 0 <= j < k ==> !Standing(h, j)
  }

  /** The open anomalies are exactly: one, opened at the first standing alarm, if there is one. */
  ghost predicate Tracked(anomalies: seq<Anomaly>, h: seq<Win>) {
    || (Unresolved(anomalies) == [] && forall k: nat :: !Standing(h, k))
    || (exists k: nat :: FirstStanding(h, k) && Unresolved(anomalies) == [h[k].start])
  }

  lemma {:induction false} ResolvedNone(anomalies: seq<Anomaly>, at: int)
    ensures Unresolved(Resolve(anomalies, at)) == []
  {
    if anomalies == [] {
    } else {
      ResolvedNone(anomalies[1..], at);
    }
  }

  lemma {:induction false} UnresolvedAppend(anomalies: seq<Anomaly>, a: Anomaly)
    ensures Unresolved(anomalies + [a]) == Unresolved(anomalies) + if a.resolvedAt.None? then [a.openedAt] else []
  {
    if anomalies == [] {
      assert anomalies + [a] == [a];
    } else {
      UnresolvedAppend(anomalies[1..], a);
      assert (anomalies + [a])[1..] == anomalies[1..] + [a];
    }
  }

  ghost function Latest(h: seq<Win>): Option<Verdict> {
    if h == [] then None else Some(h[|h| - 1].verdict)
  }

  lemma StandingNext(h: seq<Win>, w: Win, k: nat)
    ensures k < |h| ==> (Standing(h + [w], k) <==> Standing(h, k) && w.verdict != Healthy)
    ensures Standing(h + [w], |h|) <==> w.verdict == Outage || (w.verdict == Degraded && Latest(h) == Some(Healthy))
    ensures k > |h| ==> !Standing(h + [w], k)
  {
    var h' := h + [w];
    assert forall j :: 0 <= j < |h| ==> h'[j] == h[j];
    assert h'[|h|] == w;
  }

  /** A verdict that repeats the previous one changes no standing alarm. */
  lemma RepeatKeeps(anomalies: seq<Anomaly>, h: seq<Win>, w: Win)
    requires Tracked(anomalies, h) && Latest(h) == Some(w.verdict)
    ensures Tracked(anomalies, h + [w])
  {
    forall k: nat { StandingNext(h, w, k); }
    if w.verdict == Healthy {
      assert forall k: nat :: !Standing(h, k) by {
        forall k: nat ensures !Standing(h, k) { if k < |h| { assert h[|h| - 1].verdict == Healthy; } }
      }
    } else if w.verdict == Outage {
      EarlierOutageStands(h);
    }
    TrackedNext(anomalies, anomalies, h, w);
  }

  lemma EarlierOutageStands(h: seq<Win>)
    requires h != [] && h[|h| - 1].verdict == Outage
    ensures Standing(h, |h| - 1)
  {
  }

  /** How the open anomalies must move when one more verdict arrives. */
  lemma TrackedNext(anomalies: seq<Anomaly>, anomalies': seq<Anomaly>, h: seq<Win>, w: Win)
    requires Tracked(anomalies, h)
    requires var raised := Standing(h + [w], |h|);
             Unresolved(anomalies') == if w.verdict == Healthy then []
                                       else if raised && Unresolved(anomalies) == [] then [w.start]
                                       else Unresolved(anomalies)
    ensures Tracked(anomalies', h + [w])
  {
    forall k: nat { StandingNext(h, w, k); }
    var h' := h + [w];
    if w.verdict == Healthy {
    } else if Unresolved(anomalies) == [] {
      if Standing(h', |h|) { assert FirstStanding(h', |h|) && h'[|h|].start == w.start; }
    } else {
      var k: nat :| FirstStanding(h, k) && Unresolved(anomalies) == [h[k].start];
      assert FirstStanding(h', k) && h'[k] == h[k];
    }
  }

  /** The same anomaly: unchanged, or resolved now. */
  predicate Follows(a: Anomaly, b: Anomaly, at: int) {
    b == a || (a.resolvedAt.None? && b == a.(resolvedAt := Some(at)))
  }

  lemma {:induction false} ResolveFollows(anomalies: seq<Anomaly>, at: int)
    ensures |Resolve(anomalies, at)| == |anomalies|
    ensures forall i :: 0 <= i < |anomalies| ==> Follows(anomalies[i], Resolve(anomalies, at)[i], at)
  {
    if anomalies == [] {
    } else {
      ResolveFollows(anomalies[1..], at);
    }
  }

  lemma TransitionKeeps(anomalies: seq<Anomaly>, prev: Option<Verdict>, verdict: Verdict, at: int)
    ensures var now := Transition(anomalies, prev, verdict, at);
            && (forall h, w: Win :: Tracked(anomalies, h) && Latest(h) == prev && w.verdict == verdict && w.start == at ==>
                  Tracked(now, h + [w]))
            && |anomalies| <= |now| && forall i :: 0 <= i < |anomalies| ==> Follows(anomalies[i], now[i], at)
  {
    forall h, w: Win | Tracked(anomalies, h) && Latest(h) == prev && w.verdict == verdict && w.start == at
      ensures Tracked(Transition(anomalies, prev, verdict, at), h + [w])
    {
      TransitionTracks(anomalies, h, w);
    }
    ResolveFollows(anomalies, at);
    ResolveFollows(anomalies + [Anomaly(at, None)], at);
  }

  lemma TransitionTracks(anomalies: seq<Anomaly>, h: seq<Win>, w: Win)
    requires Tracked(anomalies, h)
    ensures Tracked(Transition(anomalies, Latest(h), w.verdict, w.start), h + [w])
  {
    StandingNext(h, w, |h|);
    UnresolvedAppend(anomalies, Anomaly(w.start, None));
    ResolvedNone(anomalies, w.start);
    ResolvedNone(anomalies + [Anomaly(w.start, None)], w.start);
    TrackedNext(anomalies, Transition(anomalies, Latest(h), w.verdict, w.start), h, w);
  }

  /** After any sequence of rollups, the open anomalies are determined by the global verdicts alone. */
  lemma {:induction false} AnomaliesTrackVerdicts(rollups: seq<seq<Win>>)
    requires WellFormed(rollups)
    ensures Tracked(Run(rollups).anomalies, History(rollups, GLOBAL))
    decreases |rollups|
  {
    if rollups == [] {
    } else {
      var before, wins := rollups[..|rollups| - 1], rollups[|rollups| - 1];
      AnomaliesTrackVerdicts(before);
      SinceIsRunStart(before, GLOBAL);
      FindAtMostOne(wins, GLOBAL);
      var h, f := History(before, GLOBAL), Find(wins, GLOBAL);
      assert Previous(Run(before).table) == Latest(h);
      if f == [] {
        assert History(rollups, GLOBAL) == h;
      } else {
        assert f == [f[0]];
        if Latest(h) == Some(f[0].verdict) {
          RepeatKeeps(Run(before).anomalies, h, f[0]);
        } else {
          TransitionTracks(Run(before).anomalies, h, f[0]);
        }
      }
    }
  }

  /** A global outage means exactly one open reachability anomaly, healthy means none, and there is never more than one. */
  lemma OutageHasOneAnomaly(rollups: seq<seq<Win>>)
    requires WellFormed(rollups)
    ensures |Unresolved(Run(rollups).anomalies)| <= 1
    ensures Latest(History(rollups, GLOBAL)) == Some(Outage) ==> |Unresolved(Run(rollups).anomalies)| == 1
    ensures Latest(History(rollups, GLOBAL)) == Some(Healthy) ==> Unresolved(Run(rollups).anomalies) == []
  {
    AnomaliesTrackVerdicts(rollups);
    var h := History(rollups, GLOBAL);
    if Latest(h) == Some(Outage) {
      EarlierOutageStands(h);
    }
    if Latest(h) == Some(Healthy) {
      forall k: nat ensures !Standing(h, k) { if k < |h| { assert h[|h| - 1].verdict == Healthy; } }
    }
  }
}
