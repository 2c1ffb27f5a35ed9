/**
 Trust-weighted consensus of one provider over one window (internal/aggregate/aggregate.go):
 observations reduce to one vote per worker and target, votes to one weighted result per
 target, targets to a verdict, globally and per region. Ratios are over the reals.
 */
module Consensus {
  import opened Basics

  type Worker = nat
  type Target = nat
  type Region = string

  datatype Observation = Observation(worker: Worker, target: Target, ok: bool)

  // ----- finite sums and averages

  ghost function Sum(s: set<nat>, f: nat -> real): real
    decreases |s|
  {
    if s == {} then 0.0 else var x :| x in s; f(x) + Sum(s - {x}, f)
  }

  lemma {:induction false} SumPick(s: set<nat>, f: nat -> real, x: nat)
    requires x in s
    ensures Sum(s, f) == f(x) + Sum(s - {x}, f)
    decreases |s|
  {
    var y :| y in s && Sum(s, f) == f(y) + Sum(s - {y}, f);
    if y != x {
      SumPick(s - {y}, f, x);
      SumPick(s - {x}, f, y);
      assert s - {y} - {x} == s - {x} - {y};
    }
  }

  /** n-fold sum of a constant. */
  ghost function Times(c: real, n: nat): real {
    if n == 0 then 0.0 else c + Times(c, n - 1)
  }

  lemma {:induction false} TimesIsProduct(c: real, n: nat)
    ensures Times(c, n) == c * n as real
  {
    if n == 0 {
    } else {
      TimesIsProduct(c, n - 1);
      assert c * n as real == c + c * (n - 1) as real;
    }
  }

  lemma {:induction false} TimesAdds(c: real, m: nat, n: nat)
    ensures Times(c, m + n) == Times(c, m) + Times(c, n)
  {
    if m == 0 {
    } else {
      TimesAdds(c, m - 1, n);
    }
  }

  lemma {:induction false} SumFoldsAbove(s: set<nat>, f: nat -> real, lo: real)
    requires forall x :: x in s ==> lo <= f(x)
    ensures Times(lo, |s|) <= Sum(s, f)
    decreases |s|
  {
    if s == {} {
    } else {
      var x :| x in s;
      SumPick(s, f, x);
      SumFoldsAbove(s - {x}, f, lo);
    }
  }

  lemma {:induction false} SumFoldsBelow(s: set<nat>, f: nat -> real, hi: real)
    requires forall x :: x in s ==> f(x) <= hi
    ensures Sum(s, f) <= Times(hi, |s|)
    decreases |s|
  {
    if s == {} {
    } else {
      var x :| x in s;
      SumPick(s, f, x);
      SumFoldsBelow(s - {x}, f, hi);
    }
  }

  lemma {:induction false} SumAtLeast(s: set<nat>, f: nat -> real, lo: real)
    requires forall x :: x in s ==> lo <= f(x)
    ensures lo * |s| as real <= Sum(s, f)
  {
    SumFoldsAbove(s, f, lo);
    TimesIsProduct(lo, |s|);
  }

  lemma {:induction false} SumAtMost(s: set<nat>, f: nat -> real, hi: real)
    requires forall x :: x in s ==> f(x) <= hi
    ensures Sum(s, f) <= hi * |s| as real
  {
    SumFoldsBelow(s, f, hi);
    TimesIsProduct(hi, |s|);
  }

  lemma SumBelowSize(s: set<nat>, f: nat -> real)
    requires s != {} && forall x :: x in s ==> f(x) < 1.0
    ensures Sum(s, f) < |s| as real
  {
    var x :| x in s;
    SumPick(s, f, x);
    SumAtMost(s - {x}, f, 1.0);
  }

  lemma {:induction false} SumDisjoint(a: set<nat>, b: set<nat>, f: nat -> real)
    requires a !! b
    ensures Sum(a + b, f) == Sum(a, f) + Sum(b, f)
    decreases |a|
  {
    if a == {} {
      assert a + b == b;
    } else {
      var x :| x in a;
      SumPick(a, f, x);
      SumPick(a + b, f, x);
      assert a + b - {x} == (a - {x}) + b;
      SumDisjoint(a - {x}, b, f);
    }
  }

  lemma SumSubset(a: set<nat>, b: set<nat>, f: nat -> real)
    requires a <= b && forall x :: x in b ==> 0.0 <= f(x)
    ensures Sum(a, f) <= Sum(b, f)
  {
    assert b == a + (b - a);
    SumDisjoint(a, b - a, f);
    SumNonNegative(b - a, f);
  }

  lemma {:induction false} SumNonNegative(s: set<nat>, f: nat -> real)
    requires forall x :: x in s ==> 0.0 <= f(x)
    ensures 0.0 <= Sum(s, f)
    decreases |s|
  {
    if s == {} {
    } else {
      var x :| x in s;
      SumPick(s, f, x);
      SumNonNegative(s - {x}, f);
    }
  }

  ghost function Average(s: set<nat>, f: nat -> real): real
    requires s != {}
  {
    Sum(s, f) / |s| as real
  }

  lemma AverageInUnit(s: set<nat>, f: nat -> real)
    requires s != {} && forall x :: x in s ==> 0.0 <= f(x) <= 1.0
    ensures 0.0 <= Average(s, f) <= 1.0
  {
    SumAtLeast(s, f, 0.0);
    SumAtMost(s, f, 1.0);
    Compare(Sum(s, f), |s| as real, 0.0);
    Compare(Sum(s, f), |s| as real, 1.0);
  }

  lemma AverageGrows(s: set<nat>, f: nat -> real, g: nat -> real)
    requires s != {} && forall x :: x in s ==> f(x) <= g(x)
    ensures Average(s, f) <= Average(s, g)
  {
    SumGrows(s, f, g);
    RatioGrows(Sum(s, f), Sum(s, g), |s| as real);
  }

  lemma {:induction false} SumGrows(s: set<nat>, f: nat -> real, g: nat -> real)
    requires forall x :: x in s ==> f(x) <= g(x)
    ensures Sum(s, f) <= Sum(s, g)
    decreases |s|
  {
    if s == {} {
    } else {
      var x :| x in s;
      SumPick(s, f, x);
      SumPick(s, g, x);
      SumGrows(s - {x}, f, g);
    }
  }

  lemma AverageOfConstant(s: set<nat>, f: nat -> real, c: real)
    requires s != {} && forall x :: x in s ==> f(x) == c
    ensures Average(s, f) == c
  {
    SumAtLeast(s, f, c);
    SumAtMost(s, f, c);
    Compare(Sum(s, f), |s| as real, c);
  }

  /** Comparing a quotient is comparing the cross product. */
  lemma {:induction false} Compare(x: real, y: real, c: real)
    requires 0.0 < y
    ensures x / y >= c <==> x >= c * y
    ensures x / y <= c <==> x <= c * y
  {
    assert (x / y) * y == x;
    if x / y >= c { ScaleUp(c, x / y, y); }
    if x / y <= c { ScaleUp(x / y, c, y); }
  }

  lemma ScaleUp(a: real, b: real, y: real)
    requires 0.0 < y && a <= b
    ensures a * y <= b * y && (a < b ==> a * y < b * y)
  {
  }

  // ----- votes

  /** A worker's voting weight: its score, but never less than the floor. */
  function Weight(scores: map<Worker, real>, w: Worker): real {
    if w in scores && scores[w] >= 0.1 then scores[w] else 0.1
  }

  ghost function Weights(scores: map<Worker, real>): Worker -> real {
    (w: Worker) => Weight(scores, w)
  }

  function Count(obs: seq<Observation>, w: Worker, t: Target): nat {
    if obs == [] then 0
    else
      var last := obs[|obs| - 1];
      Count(obs[..|obs| - 1], w, t) + if last.worker == w && last.target == t then 1 else 0
  }

  function OkCount(obs: seq<Observation>, w: Worker, t: Target): (n: nat)
    ensures n <= Count(obs, w, t)
  {
    if obs == [] then 0
    else
      var last := obs[|obs| - 1];
      OkCount(obs[..|obs| - 1], w, t) + if last.worker == w && last.target == t && last.ok then 1 else 0
  }

  function Voters(obs: seq<Observation>, t: Target): set<Worker> {
    set i | 0 <= i < |obs| && obs[i].target == t :: obs[i].worker
  }

  /** The share of a worker's observations of a target that succeeded. */
  function OkRatio(obs: seq<Observation>, w: Worker, t: Target): real
    requires Count(obs, w, t) > 0
  {
    OkCount(obs, w, t) as real / Count(obs, w, t) as real
  }

  ghost predicate VotesUp(obs: seq<Observation>, w: Worker, t: Target) {
    Count(obs, w, t) > 0 && OkRatio(obs, w, t) >= 0.5
  }

  ghost function UpVoters(obs: seq<Observation>, t: Target): set<Worker> {
    set w | w in Voters(obs, t) && VotesUp(obs, w, t)
  }

  /** The part of the voting weight that saw the target reachable. */
  ghost function UpShare(scores: map<Worker, real>, up: set<Worker>, voters: set<Worker>): real
    requires voters != {}
  {
    PositiveWeight(scores, voters);
    Sum(up, Weights(scores)) / Sum(voters, Weights(scores))
  }

  lemma {:induction false} PositiveWeight(scores: map<Worker, real>, s: set<Worker>)
    ensures Sum(s, Weights(scores)) >= 0.1 * |s| as real
    ensures s != {} ==> Sum(s, Weights(scores)) > 0.0
  {
    SumAtLeast(s, Weights(scores), 0.1);
  }

  ghost predicate TargetUp(obs: seq<Observation>, scores: map<Worker, real>, t: Target) {
    Voters(obs, t) != {} && UpShare(scores, UpVoters(obs, t), Voters(obs, t)) >= 0.5
  }

  lemma {:induction false} UpMeans(scores: map<Worker, real>, up: set<Worker>, voters: set<Worker>)
    requires voters != {}
    ensures UpShare(scores, up, voters) >= 0.5 <==>
            Sum(up, Weights(scores)) >= 0.5 * Sum(voters, Weights(scores))
  {
    PositiveWeight(scores, voters);
    Compare(Sum(up, Weights(scores)), Sum(voters, Weights(scores)), 0.5);
  }

  /** The observations a worker made of a target. */
  function Seen(obs: seq<Observation>, w: Worker, t: Target): set<nat> {
    set i: nat | i < |obs| && obs[i].worker == w && obs[i].target == t
  }

  /** Those of them that succeeded, and those that failed. */
  function Succeeded(obs: seq<Observation>, w: Worker, t: Target): set<nat> {
    set i: nat | i < |obs| && obs[i].worker == w && obs[i].target == t && obs[i].ok
  }

  function Failed(obs: seq<Observation>, w: Worker, t: Target): set<nat> {
    set i: nat | i < |obs| && obs[i].worker == w && obs[i].target == t && !obs[i].ok
  }

  lemma {:induction false} CountsAreSizes(obs: seq<Observation>, w: Worker, t: Target)
    ensures Count(obs, w, t) == |Seen(obs, w, t)| && OkCount(obs, w, t) == |Succeeded(obs, w, t)|
  {
    if obs == [] {
      assert Seen(obs, w, t) == {} && Succeeded(obs, w, t) == {};
    } else {
      CountsAreSizes(obs[..|obs| - 1], w, t);
      SeenStep(obs, w, t);
      SucceededStep(obs, w, t);
    }
  }

  lemma {:induction false} SeenStep(obs: seq<Observation>, w: Worker, t: Target)
    requires obs != []
    ensures var n := |obs| - 1;
            |Seen(obs, w, t)| == |Seen(obs[..n], w, t)| + if obs[n].worker == w && obs[n].target == t then 1 else 0
  {
    var n := |obs| - 1;
    var before := Seen(obs[..n], w, t);
    assert n !in before;
    assert Seen(obs, w, t) == if obs[n].worker == w && obs[n].target == t then before + {n} else before;
  }

  lemma {:induction false} SucceededStep(obs: seq<Observation>, w: Worker, t: Target)
    requires obs != []
    ensures var n := |obs| - 1;
            |Succeeded(obs, w, t)| ==
              |Succeeded(obs[..n], w, t)| + if obs[n].worker == w && obs[n].target == t && obs[n].ok then 1 else 0
  {
    var n := |obs| - 1;
    var before := Succeeded(obs[..n], w, t);
    assert n !in before;
    assert Succeeded(obs, w, t) == if obs[n].worker == w && obs[n].target == t && obs[n].ok then before + {n} else before;
  }

  lemma SeenSplits(obs: seq<Observation>, w: Worker, t: Target)
    ensures |Seen(obs, w, t)| == |Succeeded(obs, w, t)| + |Failed(obs, w, t)|
  {
    assert Seen(obs, w, t) == Succeeded(obs, w, t) + Failed(obs, w, t);
  }

  lemma CountOfVoter(obs: seq<Observation>, w: Worker, t: Target)
    ensures w in Voters(obs, t) <==> Count(obs, w, t) > 0
  {
    CountsAreSizes(obs, w, t);
    if w in Voters(obs, t) {
      var i :| 0 <= i < |obs| && obs[i].target == t && obs[i].worker == w;
      assert i in Seen(obs, w, t);
    }
    if i :| i in Seen(obs, w, t) { assert obs[i].worker in Voters(obs, t); }
  }

  /** A worker votes a target up exactly when it observed it and at least as many of its observations succeeded as failed. */
  lemma {:induction false} VotesUpExactly(obs: seq<Observation>, w: Worker, t: Target)
    ensures w in UpVoters(obs, t) <==> Seen(obs, w, t) != {} && |Succeeded(obs, w, t)| >= |Failed(obs, w, t)|
  {
    CountOfVoter(obs, w, t);
    CountsAreSizes(obs, w, t);
    SeenSplits(obs, w, t);
    if Count(obs, w, t) > 0 {
      Compare(OkCount(obs, w, t) as real, Count(obs, w, t) as real, 0.5);
    }
  }

  /** A target is up exactly when someone observed it and those who vote it up weigh at least as much as the others. */
  lemma {:induction false} TargetUpExactly(obs: seq<Observation>, scores: map<Worker, real>, t: Target)
    ensures TargetUp(obs, scores, t) <==>
            && Voters(obs, t) != {}
            && Sum(UpVoters(obs, t), Weights(scores)) >= Sum(Voters(obs, t) - UpVoters(obs, t), Weights(scores))
  {
    var up, voters := UpVoters(obs, t), Voters(obs, t);
    if voters != {} {
      assert voters == up + (voters - up);
      SumDisjoint(up, voters - up, Weights(scores));
      UpMeans(scores, up, voters);
    }
  }

  // ----- rollup and verdict

  datatype Verdict = Healthy | Degraded | Outage | InsufficientData

  datatype Config = Config(minWorkers: int, healthyRatio: real, degradedRatio: real) {
    function WithDefaults(): (c: Config)
      ensures c.minWorkers > 0 && c.healthyRatio > 0.0 && c.degradedRatio > 0.0
      ensures c.minWorkers == 3 || c.minWorkers == minWorkers
      ensures minWorkers > 0 && healthyRatio > 0.0 && degradedRatio > 0.0 ==> c == this
    {
      Config(if minWorkers <= 0 then 3 else minWorkers,
             if healthyRatio <= 0.0 then 0.9 else healthyRatio,
             if degradedRatio <= 0.0 then 0.5 else degradedRatio)
    }
  }

  /** One window of one provider: the observations of active workers and what they are judged by. */
  datatype Window = Window(obs: seq<Observation>, scores: map<Worker, real>, responsive: set<Target>, regionOf: map<Target, Region>)

  const UNKNOWN_REGION := "ZZ"

  function RegionOf(win: Window, t: Target): Region {
    if t in win.regionOf && win.regionOf[t] != "" then win.regionOf[t] else UNKNOWN_REGION
  }

  /** Targets that were observed in the window and answered someone recently. */
  function Measured(win: Window): set<Target> {
    set i | 0 <= i < |win.obs| && win.obs[i].target in win.responsive :: win.obs[i].target
  }

  function MeasuredIn(win: Window, r: Region): set<Target> {
    set t | t in Measured(win) && RegionOf(win, t) == r
  }

  /** A target counts for a region exactly when it is responsive, was observed, and is recorded there; targets recorded nowhere count for ZZ. */
  lemma RegionExactly(win: Window, r: Region, t: Target)
    ensures t in MeasuredIn(win, r) <==>
            && t in win.responsive && (exists i :: 0 <= i < |win.obs| && win.obs[i].target == t)
            && if t in win.regionOf && win.regionOf[t] != "" then win.regionOf[t] == r else r == "ZZ"
  {
    if i :| 0 <= i < |win.obs| && win.obs[i].target == t && t in win.responsive {
      assert win.obs[i].target in Measured(win);
    }
  }

  ghost function IsUp(win: Window): Target -> bool { (t: Target) => TargetUp(win.obs, win.scores, t) }

  ghost function Where(s: set<Target>, p: Target -> bool): set<Target> { set t | t in s && p(t) }

  ghost function UpIn(win: Window, s: set<Target>): set<Target> { Where(s, IsUp(win)) }

  /** The largest number of distinct workers on one target of the set. */
  ghost function WorkerCount(win: Window, s: set<Target>): nat
    decreases |s|
  {
    if s == {} then 0
    else
      var t :| t in s;
      var rest := WorkerCount(win, s - {t});
      if |Voters(win.obs, t)| > rest then |Voters(win.obs, t)| else rest
  }

  lemma {:induction false} WorkerCountIsMax(win: Window, s: set<Target>, k: nat)
    ensures WorkerCount(win, s) < k <==> k > 0 && forall t :: t in s ==> |Voters(win.obs, t)| < k
    decreases |s|
  {
    if s == {} {
    } else {
      var t :| t in s && WorkerCount(win, s) ==
        var rest := WorkerCount(win, s - {t}); if |Voters(win.obs, t)| > rest then |Voters(win.obs, t)| else rest;
      WorkerCountIsMax(win, s - {t}, k);
      assert forall u :: u in s <==> u == t || u in s - {t};
    }
  }

  function Judge(cfg: Config, workers: nat, measured: nat, up: nat): Verdict {
    if workers < cfg.minWorkers || measured == 0 then InsufficientData
    else if up as real / measured as real >= cfg.healthyRatio then Healthy
    else if up as real / measured as real >= cfg.degradedRatio then Degraded
    else Outage
  }

  /** The verdict over a set of measured targets: all of them globally, one country's regionally. */
  ghost function VerdictOver(win: Window, cfg: Config, s: set<Target>): Verdict {
    Judge(cfg, WorkerCount(win, s), |s|, |UpIn(win, s)|)
  }

  ghost function GlobalVerdict(win: Window, cfg: Config): Verdict { VerdictOver(win, cfg, Measured(win)) }

  ghost function RegionalVerdict(win: Window, cfg: Config, r: Region): Verdict { VerdictOver(win, cfg, MeasuredIn(win, r)) }

  function Rank(v: Verdict): int {
    match v
    case Healthy => 2
    case Degraded => 1
    case Outage => 0
    case InsufficientData => -1
  }

  // ----- monotonicity

  /** The same observations, some failed ones turned into successes. */
  ghost predicate Improves(a: seq<Observation>, b: seq<Observation>) {
    && |a| == |b|
    && forall i :: 0 <= i < |a| ==>
         a[i].worker == b[i].worker && a[i].target == b[i].target && (a[i].ok ==> b[i].ok)
  }

  lemma {:induction false} ImprovedCounts(a: seq<Observation>, b: seq<Observation>, w: Worker, t: Target)
    requires Improves(a, b)
    ensures Count(a, w, t) == Count(b, w, t) && OkCount(a, w, t) <= OkCount(b, w, t)
  {
    if a == [] {
    } else {
      var n := |a| - 1;
      ImprovedCounts(a[..n], b[..n], w, t);
    }
  }

  lemma ImprovedVoters(a: seq<Observation>, b: seq<Observation>, t: Target)
    requires Improves(a, b)
    ensures Voters(a, t) == Voters(b, t)
  {
    forall w ensures w in Voters(a, t) <==> w in Voters(b, t) {
      ImprovedCounts(a, b, w, t);
      CountOfVoter(a, w, t);
      CountOfVoter(b, w, t);
    }
  }

  lemma RatioGrows(x: real, x': real, y: real)
    requires 0.0 < y && x <= x'
    ensures x / y <= x' / y
  {
    Compare(x', y, x / y);
    assert (x / y) * y == x;
  }

  lemma ImprovedVotes(a: seq<Observation>, b: seq<Observation>, t: Target)
    requires Improves(a, b)
    ensures UpVoters(a, t) <= UpVoters(b, t)
  {
    ImprovedVoters(a, b, t);
    forall w | w in UpVoters(a, t) ensures w in UpVoters(b, t) {
      ImprovedCounts(a, b, w, t);
      RatioGrows(OkCount(a, w, t) as real, OkCount(b, w, t) as real, Count(a, w, t) as real);
    }
  }

  /** Turning failures into successes never brings a target down. */
  lemma ImprovedTarget(a: seq<Observation>, b: seq<Observation>, scores: map<Worker, real>, t: Target)
    requires Improves(a, b) && TargetUp(a, scores, t)
    ensures TargetUp(b, scores, t)
  {
    ImprovedVoters(a, b, t);
    ImprovedVotes(a, b, t);
    UpMeans(scores, UpVoters(a, t), Voters(a, t));
    UpMeans(scores, UpVoters(b, t), Voters(b, t));
    SumSubset(UpVoters(a, t), UpVoters(b, t), Weights(scores));
  }

  lemma JudgeMonotone(cfg: Config, workers: nat, measured: nat, up: nat, up': nat)
    requires up <= up'
    ensures Rank(Judge(cfg, workers, measured, up)) <= Rank(Judge(cfg, workers, measured, up'))
    ensures Judge(cfg, workers, measured, up).InsufficientData? <==> Judge(cfg, workers, measured, up').InsufficientData?
  {
    if measured > 0 { RatioGrows(up as real, up' as real, measured as real); }
  }

  lemma {:induction false} SameWorkerCount(win: Window, win': Window, s: set<Target>)
    requires Improves(win.obs, win'.obs)
    ensures WorkerCount(win, s) == WorkerCount(win', s)
  {
    forall t { ImprovedVoters(win.obs, win'.obs, t); }
    var n, n' := WorkerCount(win, s), WorkerCount(win', s);
    WorkerCountIsMax(win, s, n);
    WorkerCountIsMax(win, s, n');
    WorkerCountIsMax(win', s, n);
    WorkerCountIsMax(win', s, n');
  }

  /** With weights and responsive targets fixed, successes never worsen any verdict over a set of targets. */
  lemma VerdictMonotone(win: Window, obs': seq<Observation>, cfg: Config, s: set<Target>)
    requires Improves(win.obs, obs')
    ensures Rank(VerdictOver(win, cfg, s)) <= Rank(VerdictOver(win.(obs := obs'), cfg, s))
    ensures VerdictOver(win, cfg, s).InsufficientData? <==> VerdictOver(win.(obs := obs'), cfg, s).InsufficientData?
  {
    var win' := win.(obs := obs');
    SameWorkerCount(win, win', s);
    forall t | t in UpIn(win, s) ensures t in UpIn(win', s) { ImprovedTarget(win.obs, obs', win.scores, t); }
    SubsetSize(UpIn(win, s), UpIn(win', s));
    JudgeMonotone(cfg, WorkerCount(win, s), |s|, |UpIn(win, s)|, |UpIn(win', s)|);
  }

  /** Hence neither the global verdict nor any regional one. */
  lemma VerdictsMonotone(win: Window, obs': seq<Observation>, cfg: Config, r: Region)
    requires Improves(win.obs, obs')
    ensures Rank(GlobalVerdict(win, cfg)) <= Rank(GlobalVerdict(win.(obs := obs'), cfg))
    ensures Rank(RegionalVerdict(win, cfg, r)) <= Rank(RegionalVerdict(win.(obs := obs'), cfg, r))
  {
    var win' := win.(obs := obs');
    assert Measured(win') == Measured(win) by {
      forall t ensures t in Measured(win') <==> t in Measured(win) {
        if t in Measured(win) {
          var i :| 0 <= i < |win.obs| && win.obs[i].target in win.responsive && win.obs[i].target == t;
          assert win'.obs[i].target == t;
        }
        if t in Measured(win') {
          var i :| 0 <= i < |win'.obs| && win'.obs[i].target in win'.responsive && win'.obs[i].target == t;
          assert win.obs[i].target == t;
        }
      }
    }
    assert MeasuredIn(win', r) == MeasuredIn(win, r);
    VerdictMonotone(win, obs', cfg, Measured(win));
    VerdictMonotone(win, obs', cfg, MeasuredIn(win, r));
  }

  // ----- global against regional

  ghost function Regions(win: Window): set<Region> {
    set t | t in Measured(win) :: RegionOf(win, t)
  }

  /** The measured targets of some of the regions. */
  ghost function MeasuredAmong(win: Window, rs: set<Region>): set<Target> {
    set t | t in Measured(win) && RegionOf(win, t) in rs
  }

  /** Up targets beyond a given fraction of the set; additive over disjoint sets. */
  ghost function Surplus(win: Window, s: set<Target>, ratio: real): real {
    Excess(|UpIn(win, s)|, |s|, ratio)
  }

  ghost function Excess(up: nat, of: nat, ratio: real): real { up as real - Times(ratio, of) }

  lemma {:induction false} ExcessAdds(all: nat, size: nat, up: nat, of: nat, up': nat, of': nat, ratio: real)
    requires all == up + up' && size == of + of'
    ensures Excess(all, size, ratio) == Excess(up, of, ratio) + Excess(up', of', ratio)
  {
    TimesAdds(ratio, of, of');
  }

  lemma SizesAdd(a: set<Target>, b: set<Target>, p: Target -> bool)
    requires a !! b
    ensures |a + b| == |a| + |b| && |Where(a + b, p)| == |Where(a, p)| + |Where(b, p)|
  {
    assert Where(a + b, p) == Where(a, p) + Where(b, p);
  }

  lemma {:induction false} SurplusAdds(win: Window, a: set<Target>, b: set<Target>, ratio: real)
    requires a !! b
    ensures Surplus(win, a + b, ratio) == Surplus(win, a, ratio) + Surplus(win, b, ratio)
  {
    SizesAdd(a, b, IsUp(win));
    ExcessAdds(|UpIn(win, a + b)|, |a + b|, |UpIn(win, a)|, |a|, |UpIn(win, b)|, |b|, ratio);
  }

  lemma {:induction false} SurplusSign(win: Window, s: set<Target>, ratio: real)
    requires s != {}
    ensures |UpIn(win, s)| as real / |s| as real >= ratio <==> Surplus(win, s, ratio) >= 0.0
  {
    ExcessSign(|UpIn(win, s)|, |s|, ratio);
  }

  lemma {:induction false} ExcessSign(up: nat, of: nat, ratio: real)
    requires of > 0
    ensures up as real / of as real >= ratio <==> Excess(up, of, ratio) >= 0.0
  {
    TimesIsProduct(ratio, of);
    Compare(up as real, of as real, ratio);
  }

  lemma {:induction false} RegionsDecide(win: Window, rs: set<Region>, ratio: real)
    ensures (forall r :: r in rs ==> Surplus(win, MeasuredIn(win, r), ratio) >= 0.0) ==>
              Surplus(win, MeasuredAmong(win, rs), ratio) >= 0.0
    ensures rs != {} && (forall r :: r in rs ==> Surplus(win, MeasuredIn(win, r), ratio) < 0.0) ==>
              Surplus(win, MeasuredAmong(win, rs), ratio) < 0.0
    decreases |rs|
  {
    if rs == {} {
      NothingUp(win, rs, ratio);
    } else {
      var r :| r in rs;
      var rest := rs - {r};
      RegionsDecide(win, rest, ratio);
      assert MeasuredAmong(win, rs) == MeasuredIn(win, r) + MeasuredAmong(win, rest);
      SurplusAdds(win, MeasuredIn(win, r), MeasuredAmong(win, rest), ratio);
      if rest == {} { NothingUp(win, rest, ratio); }
    }
  }

  lemma NothingUp(win: Window, rs: set<Region>, ratio: real)
    requires rs == {}
    ensures Surplus(win, MeasuredAmong(win, rs), ratio) == 0.0
  {
    assert MeasuredAmong(win, rs) == {};
    assert UpIn(win, {}) == {};
  }

  /** A rank is reached exactly when a ratio is: the rank of degraded at the lower of the two thresholds. */
  function Threshold(cfg: Config, k: int): real {
    if k >= 2 || cfg.healthyRatio < cfg.degradedRatio then cfg.healthyRatio else cfg.degradedRatio
  }

  lemma RankByRatio(win: Window, cfg: Config, s: set<Target>, k: int)
    requires 1 <= k <= 2 && !VerdictOver(win, cfg, s).InsufficientData?
    ensures s != {}
    ensures Rank(VerdictOver(win, cfg, s)) >= k <==> Surplus(win, s, Threshold(cfg, k)) >= 0.0
  {
    SurplusSign(win, s, cfg.healthyRatio);
    SurplusSign(win, s, cfg.degradedRatio);
    var ratio := |UpIn(win, s)| as real / |s| as real;
    assert Rank(VerdictOver(win, cfg, s)) >= k <==> ratio >= Threshold(cfg, k);
  }

  /** Data is lacking when no target of the set has enough distinct workers. */
  ghost predicate TooFewWorkers(win: Window, cfg: Config, s: set<Target>) {
    forall t :: t in s ==> |Voters(win.obs, t)| < cfg.minWorkers
  }

  lemma InsufficientMeans(win: Window, cfg: Config, s: set<Target>)
    requires cfg.minWorkers > 0 && s != {}
    ensures VerdictOver(win, cfg, s).InsufficientData? <==> TooFewWorkers(win, cfg, s)
  {
    WorkerCountIsMax(win, s, cfg.minWorkers);
    LacksData(cfg, WorkerCount(win, s), |s|, |UpIn(win, s)|);
  }

  lemma LacksData(cfg: Config, workers: nat, measured: nat, up: nat)
    ensures Judge(cfg, workers, measured, up).InsufficientData? <==> workers < cfg.minWorkers || measured == 0
  {
  }

  lemma RegionHasTargets(win: Window, r: Region)
    requires r in Regions(win)
    ensures MeasuredIn(win, r) != {}
  {
    var t :| t in Measured(win) && RegionOf(win, t) == r;
    assert t in MeasuredIn(win, r);
  }

  /** The global window lacks data exactly when every region does. */
  lemma GlobalInsufficient(win: Window, cfg: Config)
    requires cfg.minWorkers > 0 && Measured(win) != {}
    ensures GlobalVerdict(win, cfg).InsufficientData? <==>
            forall r :: r in Regions(win) ==> RegionalVerdict(win, cfg, r).InsufficientData?
  {
    InsufficientMeans(win, cfg, Measured(win));
    forall r | r in Regions(win)
      ensures RegionalVerdict(win, cfg, r).InsufficientData? <==> TooFewWorkers(win, cfg, MeasuredIn(win, r))
    {
      RegionHasTargets(win, r);
      InsufficientMeans(win, cfg, MeasuredIn(win, r));
    }
    forall t | t in Measured(win) ensures RegionOf(win, t) in Regions(win) && t in MeasuredIn(win, RegionOf(win, t)) {}
  }

  /**
   When every region has data, the global verdict lies between the worst and the best
   regional one, for each bound a reader may put on the regions.
   */
  lemma GlobalBetweenRegions(win: Window, cfg: Config, k: int)
    requires cfg.minWorkers > 0 && Measured(win) != {}
    requires forall r :: r in Regions(win) ==> !RegionalVerdict(win, cfg, r).InsufficientData?
    ensures !GlobalVerdict(win, cfg).InsufficientData?
    ensures (forall r :: r in Regions(win) ==> Rank(RegionalVerdict(win, cfg, r)) >= k) ==> Rank(GlobalVerdict(win, cfg)) >= k
    ensures (forall r :: r in Regions(win) ==> Rank(RegionalVerdict(win, cfg, r)) <= k) ==> Rank(GlobalVerdict(win, cfg)) <= k
  {
    GlobalHasData(win, cfg);
    if 1 <= k <= 2 { RanksDecide(win, cfg, k); }
    if 1 <= k + 1 <= 2 { RanksDecide(win, cfg, k + 1); }
  }

  lemma GlobalHasData(win: Window, cfg: Config)
    requires cfg.minWorkers > 0 && Measured(win) != {}
    requires forall r :: r in Regions(win) ==> !RegionalVerdict(win, cfg, r).InsufficientData?
    ensures !GlobalVerdict(win, cfg).InsufficientData?
    ensures Regions(win) != {} && MeasuredAmong(win, Regions(win)) == Measured(win)
  {
    var t0 :| t0 in Measured(win);
    assert RegionOf(win, t0) in Regions(win);
    GlobalInsufficient(win, cfg);
  }

  lemma RanksDecide(win: Window, cfg: Config, k: int)
    requires 1 <= k <= 2 && Regions(win) != {} && MeasuredAmong(win, Regions(win)) == Measured(win)
    requires !GlobalVerdict(win, cfg).InsufficientData?
    requires forall r :: r in Regions(win) ==> !RegionalVerdict(win, cfg, r).InsufficientData?
    ensures (forall r :: r in Regions(win) ==> Rank(RegionalVerdict(win, cfg, r)) >= k) ==> Rank(GlobalVerdict(win, cfg)) >= k
    ensures (forall r :: r in Regions(win) ==> Rank(RegionalVerdict(win, cfg, r)) < k) ==> Rank(GlobalVerdict(win, cfg)) < k
  {
    RankByRatio(win, cfg, Measured(win), k);
    forall r | r in Regions(win)
      ensures Rank(RegionalVerdict(win, cfg, r)) >= k <==> Surplus(win, MeasuredIn(win, r), Threshold(cfg, k)) >= 0.0
    {
      RankByRatio(win, cfg, MeasuredIn(win, r), k);
    }
    RegionsDecide(win, Regions(win), Threshold(cfg, k));
  }

  /** If all regions share one verdict, the global verdict is that one. */
  lemma SharedVerdictIsGlobal(win: Window, cfg: Config, v: Verdict)
    requires cfg.minWorkers > 0 && Measured(win) != {}
    requires forall r :: r in Regions(win) ==> RegionalVerdict(win, cfg, r) == v
    ensures GlobalVerdict(win, cfg) == v
  {
    GlobalInsufficient(win, cfg);
    if v != InsufficientData { GlobalBetweenRegions(win, cfg, Rank(v)); }
  }

  // ----- verdicts from the observations

  /** With enough workers, the verdict is decided by the up targets beyond each of the two shares of all. */
  lemma {:induction false} VerdictExactly(win: Window, cfg: Config, s: set<Target>, t: Target)
    requires t in s && |Voters(win.obs, t)| >= cfg.minWorkers
    ensures VerdictOver(win, cfg, s) ==
              if Surplus(win, s, cfg.healthyRatio) >= 0.0 then Healthy
              else if Surplus(win, s, cfg.degradedRatio) >= 0.0 then Degraded else Outage
  {
    EnoughWorkers(win, cfg, s, t);
    JudgeExactly(cfg, WorkerCount(win, s), |s|, |UpIn(win, s)|);
  }

  lemma EnoughWorkers(win: Window, cfg: Config, s: set<Target>, t: Target)
    requires t in s && |Voters(win.obs, t)| >= cfg.minWorkers
    ensures WorkerCount(win, s) >= cfg.minWorkers
  {
    if cfg.minWorkers > 0 { WorkerCountIsMax(win, s, cfg.minWorkers); }
  }

  lemma {:induction false} JudgeExactly(cfg: Config, workers: nat, measured: nat, up: nat)
    requires workers >= cfg.minWorkers && measured > 0
    ensures Judge(cfg, workers, measured, up) ==
              if Excess(up, measured, cfg.healthyRatio) >= 0.0 then Healthy
              else if Excess(up, measured, cfg.degradedRatio) >= 0.0 then Degraded else Outage
  {
    ExcessSign(up, measured, cfg.healthyRatio);
    ExcessSign(up, measured, cfg.degradedRatio);
  }

  /** All targets up is healthy and none up is an outage, whatever the thresholds. */
  lemma JudgeExtremes(cfg: Config, workers: nat, measured: nat)
    requires workers >= cfg.minWorkers && measured > 0
    ensures cfg.healthyRatio <= 1.0 ==> Judge(cfg, workers, measured, measured) == Healthy
    ensures cfg.healthyRatio > 0.0 && cfg.degradedRatio > 0.0 ==> Judge(cfg, workers, measured, 0) == Outage
  {
    assert measured as real / measured as real == 1.0;
    assert 0 as real / measured as real == 0.0;
  }

  /** Every observation of a target of the set turned out this way. */
  ghost predicate AllTurnedOut(win: Window, among: set<Target>, ok: bool) {
    forall i :: 0 <= i < |win.obs| && win.obs[i].target in among ==> win.obs[i].ok == ok
  }

  lemma UpIfAllOk(win: Window, s: set<Target>, t: Target)
    requires s <= Measured(win) && t in s && AllTurnedOut(win, s, true)
    ensures TargetUp(win.obs, win.scores, t)
  {
    var up, voters := UpVoters(win.obs, t), Voters(win.obs, t);
    var i :| 0 <= i < |win.obs| && win.obs[i].target in win.responsive && win.obs[i].target == t;
    assert win.obs[i].worker in voters;
    forall w | w in voters ensures w in up {
      VotesUpExactly(win.obs, w, t);
      var j :| 0 <= j < |win.obs| && win.obs[j].target == t && win.obs[j].worker == w;
      assert j in Seen(win.obs, w, t);
      assert Failed(win.obs, w, t) == {};
    }
    assert up == voters && voters - up == {};
    SumNonNegative(up, Weights(win.scores));
    TargetUpExactly(win.obs, win.scores, t);
  }

  lemma DownIfAllFailed(win: Window, s: set<Target>, t: Target)
    requires t in s && AllTurnedOut(win, s, false)
    ensures !TargetUp(win.obs, win.scores, t)
  {
    var up, voters := UpVoters(win.obs, t), Voters(win.obs, t);
    forall w ensures w !in up {
      VotesUpExactly(win.obs, w, t);
      if j :| j in Seen(win.obs, w, t) {
        assert j in Failed(win.obs, w, t);
        assert Succeeded(win.obs, w, t) == {};
      }
    }
    assert up == {} && voters - up == voters;
    PositiveWeight(win.scores, voters);
    TargetUpExactly(win.obs, win.scores, t);
  }

  lemma AllFailedIsOutage(win: Window, cfg: Config, s: set<Target>, t: Target)
    requires t in s && |Voters(win.obs, t)| >= cfg.minWorkers && cfg.healthyRatio > 0.0 && cfg.degradedRatio > 0.0
    requires AllTurnedOut(win, s, false)
    ensures VerdictOver(win, cfg, s) == Outage
  {
    forall x | x in s ensures !TargetUp(win.obs, win.scores, x) { DownIfAllFailed(win, s, x); }
    assert UpIn(win, s) == {};
    EnoughWorkers(win, cfg, s, t);
    JudgeExtremes(cfg, WorkerCount(win, s), |s|);
  }

  lemma AllOkIsHealthy(win: Window, cfg: Config, s: set<Target>, t: Target)
    requires s <= Measured(win) && t in s && |Voters(win.obs, t)| >= cfg.minWorkers && cfg.healthyRatio <= 1.0
    requires AllTurnedOut(win, s, true)
    ensures VerdictOver(win, cfg, s) == Healthy
  {
    forall x | x in s ensures TargetUp(win.obs, win.scores, x) { UpIfAllOk(win, s, x); }
    assert UpIn(win, s) == s;
    EnoughWorkers(win, cfg, s, t);
    JudgeExtremes(cfg, WorkerCount(win, s), |s|);
  }

  /** A responsive target that enough workers observed. */
  ghost predicate WellObserved(win: Window, cfg: Config, t: Target) {
    t in win.responsive && |Voters(win.obs, t)| >= cfg.minWorkers
  }

  /**
   End to end: if enough workers observed some responsive target and every observation of a
   responsive target failed, the provider is in outage; if every one succeeded, it is healthy.
   Observations of targets that answer nobody do not matter.
   */
  lemma WindowExtremes(win: Window, cfg: Config, t: Target)
    requires cfg.minWorkers > 0 && 0.0 < cfg.healthyRatio <= 1.0 && cfg.degradedRatio > 0.0 && WellObserved(win, cfg, t)
    ensures AllTurnedOut(win, win.responsive, false) ==> GlobalVerdict(win, cfg) == Outage
    ensures AllTurnedOut(win, win.responsive, true) ==> GlobalVerdict(win, cfg) == Healthy
    ensures AllTurnedOut(win, win.responsive, false) ==> RegionalVerdict(win, cfg, RegionOf(win, t)) == Outage
    ensures AllTurnedOut(win, win.responsive, true) ==> RegionalVerdict(win, cfg, RegionOf(win, t)) == Healthy
  {
    var w :| w in Voters(win.obs, t);
    var i :| 0 <= i < |win.obs| && win.obs[i].target == t && win.obs[i].worker == w;
    assert win.obs[i].target in Measured(win);
    var here := MeasuredIn(win, RegionOf(win, t));
    if AllTurnedOut(win, win.responsive, false) {
      AllFailedIsOutage(win, cfg, Measured(win), t);
      AllFailedIsOutage(win, cfg, here, t);
    }
    if AllTurnedOut(win, win.responsive, true) {
      AllOkIsHealthy(win, cfg, Measured(win), t);
      AllOkIsHealthy(win, cfg, here, t);
    }
  }
}
