/**
 Trust scores and their feedback into the consensus (internal/trust/trust.go, and the
 agreement and confidence figures of internal/aggregate/aggregate.go).
 */
module Trust {
  import opened Basics
  import opened Consensus

  /** What a worker is scored on. Times are in minutes and days before the scoring. */
  datatype Evidence = Evidence(heartbeatAge: Option<real>, approvedDays: Option<real>, agreements: seq<real>, securityEvents: nat)

  function Availability(e: Evidence): real {
    match e.heartbeatAge
    case None => 0.0
    case Some(age) => if age < 5.0 then 1.0 else if age < 60.0 then 0.5 else 0.0
  }

  ghost predicate Sound(e: Evidence) {
    && (e.approvedDays.Some? ==> e.approvedDays.value >= 0.0)
    && forall i :: 0 <= i < |e.agreements| ==> 0.0 <= e.agreements[i] <= 1.0
  }

  function Tenure(e: Evidence): real
    requires e.approvedDays.Some? ==> e.approvedDays.value >= 0.0
  {
    match e.approvedDays
    case None => 0.0
    case Some(d) => d / (d + 14.0)
  }

  function Total(xs: seq<real>): real {
    if xs == [] then 0.0 else xs[0] + Total(xs[1..])
  }

  function Agreement(e: Evidence): real {
    if e.agreements == [] then 0.5 else Total(e.agreements) / |e.agreements| as real
  }

  function Penalty(e: Evidence): real {
    if 0.1 * e.securityEvents as real < 0.5 then 0.1 * e.securityEvents as real else 0.5
  }

  function Raw(e: Evidence): real
    requires e.approvedDays.Some? ==> e.approvedDays.value >= 0.0
  {
    Availability(e) * (0.2 + 0.3 * Tenure(e)) + 0.5 * Agreement(e) - Penalty(e)
  }

  function Score(e: Evidence): real
    requires e.approvedDays.Some? ==> e.approvedDays.value >= 0.0
  {
    var capped := if Raw(e) < 1.0 then Raw(e) else 1.0;
    if capped > 0.0 then capped else 0.0
  }

  lemma QuotientInUnit(x: real, y: real)
    requires 0.0 <= x <= y && 0.0 < y
    ensures 0.0 <= x / y <= 1.0
  {
    Compare(x, y, 0.0);
    Compare(x, y, 1.0);
  }

  lemma QuotientPoints(x: real, y: real)
    requires y > 0.0
    ensures x == 0.0 ==> x / y == 0.0
    ensures x == y ==> x / y == 1.0
    ensures 2.0 * x == y ==> x / y == 0.5
  {
  }

  lemma {:induction false} TotalBounds(xs: seq<real>)
    requires forall i :: 0 <= i < |xs| ==> 0.0 <= xs[i] <= 1.0
    ensures 0.0 <= Total(xs) <= |xs| as real
  {
    if xs == [] {
    } else {
      TotalBounds(xs[1..]);
    }
  }

  lemma TenureBelowOne(e: Evidence)
    requires Sound(e)
    ensures 0.0 <= Tenure(e) < 1.0
  {
    if e.approvedDays.Some? {
      var d := e.approvedDays.value;
      Compare(d, d + 14.0, 0.0);
      Compare(d, d + 14.0, 1.0);
      assert (d / (d + 14.0)) * (d + 14.0) == d;
    }
  }

  lemma AgreementInUnit(e: Evidence)
    requires Sound(e)
    ensures 0.0 <= Agreement(e) <= 1.0
  {
    if e.agreements != [] {
      TotalBounds(e.agreements);
      QuotientInUnit(Total(e.agreements), |e.agreements| as real);
    }
  }

  lemma Product(a: real, t: real)
    requires a == 0.0 || a == 0.5 || a == 1.0
    requires 0.0 <= t < 1.0
    ensures 0.0 <= a * (0.2 + 0.3 * t) < 0.5
  {
  }

  /** Every score lies in [0, 1), so the upper clamp never takes effect. */
  lemma ScoreBelowOne(e: Evidence)
    requires Sound(e)
    ensures Raw(e) < 1.0
    ensures 0.0 <= Score(e) < 1.0
  {
    TenureBelowOne(e);
    AgreementInUnit(e);
    Product(Availability(e), Tenure(e));
  }

  /** A worker nobody has approved yet, and without measurements, is never above 0.45. */
  lemma NewcomerIsCapped(e: Evidence)
    requires Sound(e) && e.approvedDays.None? && e.agreements == []
    ensures Score(e) <= 0.45
    ensures Availability(e) == 1.0 && e.securityEvents == 0 ==> Score(e) == 0.45
  {
  }

  /** One more security event takes a tenth off a positive score, down to zero, until five have been counted. */
  lemma EventCosts(e: Evidence)
    requires Sound(e) && Score(e) > 0.0
    ensures var after := Score(e.(securityEvents := e.securityEvents + 1));
            if e.securityEvents >= 5 then after == Score(e)
            else after == if Score(e) > 0.1 then Score(e) - 0.1 else 0.0
  {
    ScoreBelowOne(e);
    ScoreBelowOne(e.(securityEvents := e.securityEvents + 1));
  }

  /**
   What heartbeats are worth: a worker last heard of within an hour has half the standing of
   one heard of within five minutes, one heard of earlier or never has none.
   */
  lemma HeartbeatCosts(e: Evidence, recent: real, stale: real, lost: real)
    requires Sound(e) && recent < 5.0 <= stale < 60.0 <= lost
    ensures var none := Raw(e.(heartbeatAge := None));
            var full := Raw(e.(heartbeatAge := Some(recent))) - none;
            && full == 0.2 + 0.3 * Tenure(e)
            && Raw(e.(heartbeatAge := Some(stale))) - none == 0.5 * full
            && Raw(e.(heartbeatAge := Some(lost))) == none
  {
  }

  /** Tenure is worth half after two weeks. */
  lemma TwoWeeks(e: Evidence)
    requires e.approvedDays == Some(14.0)
    ensures Tenure(e) == 0.5
  {
  }

  /** Evidence that is at least as good in every respect: heartbeat, tenure, agreement, security events. */
  ghost predicate NoWorse(e: Evidence, e': Evidence) {
    && (e.heartbeatAge.Some? ==> e'.heartbeatAge.Some? && e'.heartbeatAge.value <= e.heartbeatAge.value)
    && (e.approvedDays.Some? ==> e'.approvedDays.Some? && e.approvedDays.value <= e'.approvedDays.value)
    && Agreement(e) <= Agreement(e')
    && e'.securityEvents <= e.securityEvents
  }

  lemma RampGrows(d: real, d': real)
    requires 0.0 <= d <= d'
    ensures d / (d + 14.0) <= d' / (d' + 14.0)
  {
    var t := d / (d + 14.0);
    assert t * (d + 14.0) == d;
    Compare(d, d + 14.0, 1.0);
    if d < d' { ScaleUp(t, 1.0, d' - d); }
    assert t * (d' + 14.0) == t * (d + 14.0) + t * (d' - d);
    Compare(d', d' + 14.0, t);
  }

  lemma TenureGrows(e: Evidence, e': Evidence)
    requires Sound(e) && Sound(e') && NoWorse(e, e')
    ensures Tenure(e) <= Tenure(e')
  {
    TenureBelowOne(e');
    if e.approvedDays.Some? { RampGrows(e.approvedDays.value, e'.approvedDays.value); }
  }

  lemma ProductGrows(a: real, a': real, x: real, x': real)
    requires 0.0 <= a <= a' && 0.0 < x <= x'
    ensures a * x <= a' * x'
  {
    ScaleUp(a, a', x);
    if a' > 0.0 { ScaleUp(x, x', a'); }
  }

  /** A worker is never scored lower for better evidence. */
  lemma ScoreMonotone(e: Evidence, e': Evidence)
    requires Sound(e) && Sound(e') && NoWorse(e, e')
    ensures Score(e) <= Score(e')
  {
    TenureBelowOne(e);
    TenureGrows(e, e');
    ProductGrows(Availability(e), Availability(e'), 0.2 + 0.3 * Tenure(e), 0.2 + 0.3 * Tenure(e'));
  }

  // ----- bounded influence

  ghost predicate BelowOne(scores: map<Worker, real>) {
    forall w :: w in scores ==> 0.0 <= scores[w] < 1.0
  }

  lemma WeightBounds(scores: map<Worker, real>, w: Worker)
    requires BelowOne(scores)
    ensures 0.1 <= Weight(scores, w) < 1.0
  {
  }

  /** Ten workers always outweigh one. */
  lemma TenOutweighOne(scores: map<Worker, real>, many: set<Worker>, few: set<Worker>)
    requires BelowOne(scores) && |many| >= 10 * |few| && many != {}
    ensures Sum(many, Weights(scores)) > Sum(few, Weights(scores))
  {
    PositiveWeight(scores, many);
    if few != {} {
      SumBelowSize(few, Weights(scores));
    }
  }

  lemma MajorityUp(scores: map<Worker, real>, up: set<Worker>, many: set<Worker>, few: set<Worker>)
    requires BelowOne(scores) && |many| >= 10 * |few| && many != {} && many !! few && many <= up
    ensures UpShare(scores, up, many + few) >= 0.5
  {
    TenOutweighOne(scores, many, few);
    OutvotedUp(scores, up, many, few);
  }

  lemma OutvotedUp(scores: map<Worker, real>, up: set<Worker>, many: set<Worker>, few: set<Worker>)
    requires Sum(many, Weights(scores)) > Sum(few, Weights(scores)) && many != {} && many !! few && many <= up
    ensures UpShare(scores, up, many + few) >= 0.5
  {
    SumDisjoint(many, few, Weights(scores));
    SumSubset(many, up, Weights(scores));
    UpMeans(scores, up, many + few);
  }

  lemma MajorityDown(scores: map<Worker, real>, up: set<Worker>, many: set<Worker>, few: set<Worker>)
    requires BelowOne(scores) && |many| >= 10 * |few| && many != {} && many !! few && up <= few
    ensures UpShare(scores, up, many + few) < 0.5
  {
    TenOutweighOne(scores, many, few);
    OutvotedDown(scores, up, many, few);
  }

  lemma OutvotedDown(scores: map<Worker, real>, up: set<Worker>, many: set<Worker>, few: set<Worker>)
    requires Sum(many, Weights(scores)) > Sum(few, Weights(scores)) && many != {} && many !! few && up <= few
    ensures UpShare(scores, up, many + few) < 0.5
  {
    SumDisjoint(many, few, Weights(scores));
    SumSubset(up, few, Weights(scores));
    UpMeans(scores, up, many + few);
  }

  /** A dissenting tenth of the voters never overturns the vote on a target, in either direction. */
  lemma BoundedInfluence(obs: seq<Observation>, scores: map<Worker, real>, t: Target, agreeing: set<Worker>, dissenting: set<Worker>)
    requires BelowOne(scores) && agreeing != {} && |agreeing| >= 10 * |dissenting|
    requires agreeing !! dissenting && agreeing + dissenting == Voters(obs, t)
    ensures (forall w :: w in agreeing ==> VotesUp(obs, w, t)) ==> TargetUp(obs, scores, t)
    ensures (forall w :: w in agreeing ==> !VotesUp(obs, w, t)) ==> !TargetUp(obs, scores, t)
  {
    if forall w :: w in agreeing ==> VotesUp(obs, w, t) {
      assert agreeing <= UpVoters(obs, t);
      MajorityUp(scores, UpVoters(obs, t), agreeing, dissenting);
    }
    if forall w :: w in agreeing ==> !VotesUp(obs, w, t) {
      assert UpVoters(obs, t) <= dissenting;
      MajorityDown(scores, UpVoters(obs, t), agreeing, dissenting);
    }
  }

  /** Nine are not always enough: one long-serving worker can outweigh nine newcomers. */
  lemma NineCanLose(many: set<Worker>, one: Worker) returns (e: Evidence)
    requires |many| == 9 && one !in many
    ensures Sound(e)
    ensures Sum({one}, Weights(map[one := Score(e)])) > Sum(many, Weights(map[one := Score(e)]))
  {
    e := Evidence(Some(1.0), Some(126.0), [1.0], 0);
    assert Tenure(e) == 0.9;
    assert Total([1.0]) == 1.0;
    assert Score(e) == 0.97;
    var f := Weights(map[one := Score(e)]);
    SumPick({one}, f, one);
    assert {one} - {one} == {};
    SumAtMost(many, f, 0.1);
  }

  // ----- agreement, dissent, confidence

  function Abs(x: real): real { if x < 0.0 then -x else x }

  function TargetsOf(obs: seq<Observation>, w: Worker): set<Target> {
    set i | 0 <= i < |obs| && obs[i].worker == w :: obs[i].target
  }

  ghost function TargetAgreement(obs: seq<Observation>, scores: map<Worker, real>, w: Worker): Target -> real {
    (t: Target) =>
      if Count(obs, w, t) > 0 then 1.0 - Abs(OkRatio(obs, w, t) - if TargetUp(obs, scores, t) then 1.0 else 0.0) else 0.0
  }

  /** Mean agreement of a worker's ok ratios with the per-target consensus. */
  ghost function WorkerAgreement(obs: seq<Observation>, scores: map<Worker, real>, w: Worker): real
    requires TargetsOf(obs, w) != {}
  {
    Average(TargetsOf(obs, w), TargetAgreement(obs, scores, w))
  }

  lemma {:induction false} OkRatioInUnit(obs: seq<Observation>, w: Worker, t: Target)
    requires Count(obs, w, t) > 0
    ensures 0.0 <= OkRatio(obs, w, t) <= 1.0
  {
    QuotientInUnit(OkCount(obs, w, t) as real, Count(obs, w, t) as real);
  }

  /** Agreement on a target is the share of successes if the consensus is up, and of failures if it is down. */
  lemma {:induction false} AgreementExactly(obs: seq<Observation>, scores: map<Worker, real>, w: Worker, t: Target)
    requires Count(obs, w, t) > 0
    ensures TargetAgreement(obs, scores, w)(t) == if TargetUp(obs, scores, t) then OkRatio(obs, w, t) else 1.0 - OkRatio(obs, w, t)
  {
    OkRatioInUnit(obs, w, t);
  }

  /** Every observation of the worker agrees (or disagrees) with the consensus on its target. */
  ghost predicate Sides(obs: seq<Observation>, scores: map<Worker, real>, w: Worker, agrees: bool) {
    forall i :: 0 <= i < |obs| && obs[i].worker == w ==> (obs[i].ok == TargetUp(obs, scores, obs[i].target)) == agrees
  }

  lemma SidesAtTarget(obs: seq<Observation>, scores: map<Worker, real>, w: Worker, agrees: bool, t: Target)
    requires t in TargetsOf(obs, w) && Sides(obs, scores, w, agrees)
    ensures TargetAgreement(obs, scores, w)(t) == if agrees then 1.0 else 0.0
  {
    var i :| 0 <= i < |obs| && obs[i].worker == w && obs[i].target == t;
    CountsAreSizes(obs, w, t);
    assert i in Seen(obs, w, t);
    var allOk := TargetUp(obs, scores, t) == agrees;
    assert Succeeded(obs, w, t) == if allOk then Seen(obs, w, t) else {};
    AgreementExactly(obs, scores, w, t);
    QuotientPoints(OkCount(obs, w, t) as real, Count(obs, w, t) as real);
  }

  /** A worker whose every observation agrees with the consensus has agreement one; one that always disagrees has zero. */
  lemma AgreementExtremes(obs: seq<Observation>, scores: map<Worker, real>, w: Worker, agrees: bool)
    requires TargetsOf(obs, w) != {} && Sides(obs, scores, w, agrees)
    ensures WorkerAgreement(obs, scores, w) == if agrees then 1.0 else 0.0
  {
    var f, c := TargetAgreement(obs, scores, w), if agrees then 1.0 else 0.0;
    forall t | t in TargetsOf(obs, w) ensures f(t) == c { SidesAtTarget(obs, scores, w, agrees, t); }
    AverageOfConstant(TargetsOf(obs, w), f, c);
  }

  /** The worker of the second window is at least as close to the same consensus on every target as that of the first. */
  ghost predicate Closer(obs: seq<Observation>, obs': seq<Observation>, scores: map<Worker, real>, w: Worker) {
    && TargetsOf(obs', w) == TargetsOf(obs, w)
    && forall t :: t in TargetsOf(obs, w) ==>
         && Count(obs, w, t) > 0 && Count(obs', w, t) > 0
         && (TargetUp(obs', scores, t) <==> TargetUp(obs, scores, t))
         && (if TargetUp(obs, scores, t) then OkRatio(obs, w, t) <= OkRatio(obs', w, t) else OkRatio(obs', w, t) <= OkRatio(obs, w, t))
  }

  lemma AgreementGrows(obs: seq<Observation>, obs': seq<Observation>, scores: map<Worker, real>, w: Worker)
    requires TargetsOf(obs, w) != {} && Closer(obs, obs', scores, w)
    ensures WorkerAgreement(obs, scores, w) <= WorkerAgreement(obs', scores, w)
  {
    var f, g := TargetAgreement(obs, scores, w), TargetAgreement(obs', scores, w);
    forall t | t in TargetsOf(obs, w) ensures f(t) <= g(t) {
      AgreementExactly(obs, scores, w, t);
      AgreementExactly(obs', scores, w, t);
    }
    AverageGrows(TargetsOf(obs, w), f, g);
  }

  lemma WorkerAgreementInUnit(obs: seq<Observation>, scores: map<Worker, real>, w: Worker)
    requires TargetsOf(obs, w) != {}
    ensures 0.0 <= WorkerAgreement(obs, scores, w) <= 1.0
  {
    var f := TargetAgreement(obs, scores, w);
    forall t ensures 0.0 <= f(t) <= 1.0 {
      if Count(obs, w, t) > 0 { OkRatioInUnit(obs, w, t); }
    }
    AverageInUnit(TargetsOf(obs, w), f);
  }

  ghost function TargetDissent(win: Window): Target -> real {
    (t: Target) =>
      if Voters(win.obs, t) == {} then 0.0
      else
        var up := UpShare(win.scores, UpVoters(win.obs, t), Voters(win.obs, t));
        2.0 * if up < 1.0 - up then up else 1.0 - up
  }

  ghost function Dissent(win: Window, s: set<Target>): real
    requires s != {}
  {
    Average(s, TargetDissent(win))
  }

  ghost function Confidence(win: Window, cfg: Config, s: set<Target>): real
    requires s != {} && cfg.minWorkers > 0
  {
    var n := WorkerCount(win, s);
    if n < cfg.minWorkers then 0.0 else Support(n, cfg.minWorkers) * (1.0 - Dissent(win, s))
  }

  /** How much of twice the required number of workers took part, at most one. */
  function Support(n: nat, minWorkers: nat): real
    requires minWorkers > 0
  {
    var share := n as real / (minWorkers * 2) as real;
    if share < 1.0 then share else 1.0
  }

  lemma UpShareInUnit(scores: map<Worker, real>, up: set<Worker>, voters: set<Worker>)
    requires voters != {} && up <= voters
    ensures 0.0 <= UpShare(scores, up, voters) <= 1.0
  {
    PositiveWeight(scores, voters);
    SumNonNegative(up, Weights(scores));
    SumSubset(up, voters, Weights(scores));
    QuotientInUnit(Sum(up, Weights(scores)), Sum(voters, Weights(scores)));
  }

  lemma UnitProduct(a: real, b: real)
    requires 0.0 <= a <= 1.0 && 0.0 <= b <= 1.0
    ensures 0.0 <= a * b <= 1.0
  {
    if b == 0.0 {
      assert a * b == 0.0;
    } else {
      ScaleUp(0.0, a, b);
      ScaleUp(a, 1.0, b);
      assert 0.0 * b == 0.0 && a * b <= 1.0 * b == b;
    }
  }

  lemma TargetDissentInUnit(win: Window, t: Target)
    ensures 0.0 <= TargetDissent(win)(t) <= 1.0
  {
    if Voters(win.obs, t) != {} { UpShareInUnit(win.scores, UpVoters(win.obs, t), Voters(win.obs, t)); }
  }

  lemma DissentInUnit(win: Window, s: set<Target>)
    requires s != {}
    ensures 0.0 <= Dissent(win, s) <= 1.0
  {
    var f := TargetDissent(win);
    forall t ensures 0.0 <= f(t) <= 1.0 { TargetDissentInUnit(win, t); }
    AverageInUnit(s, f);
  }

  lemma SupportInUnit(n: nat, minWorkers: nat)
    requires minWorkers > 0
    ensures 0.0 <= Support(n, minWorkers) <= 1.0
  {
    Compare(n as real, (minWorkers * 2) as real, 0.0);
  }

  lemma FiguresInUnit(win: Window, cfg: Config, s: set<Target>)
    requires s != {} && cfg.minWorkers > 0
    ensures 0.0 <= Dissent(win, s) <= 1.0 && 0.0 <= Confidence(win, cfg, s) <= 1.0
  {
    DissentInUnit(win, s);
    SupportInUnit(WorkerCount(win, s), cfg.minWorkers);
    UnitProduct(Support(WorkerCount(win, s), cfg.minWorkers), 1.0 - Dissent(win, s));
  }

  /** All voters on the target agree, or their weight is split evenly. */
  ghost predicate Unanimous(win: Window, t: Target) {
    UpVoters(win.obs, t) == {} || UpVoters(win.obs, t) == Voters(win.obs, t)
  }

  ghost predicate EvenlySplit(win: Window, t: Target) {
    var up, voters := UpVoters(win.obs, t), Voters(win.obs, t);
    voters != {} && Sum(up, Weights(win.scores)) == Sum(voters - up, Weights(win.scores))
  }

  lemma {:induction false} DissentExtremes(win: Window, t: Target)
    ensures Unanimous(win, t) ==> TargetDissent(win)(t) == 0.0
    ensures EvenlySplit(win, t) ==> TargetDissent(win)(t) == 1.0
  {
    var up, voters := UpVoters(win.obs, t), Voters(win.obs, t);
    if voters != {} {
      PositiveWeight(win.scores, voters);
      assert voters == up + (voters - up);
      SumDisjoint(up, voters - up, Weights(win.scores));
      var x, y := Sum(up, Weights(win.scores)), Sum(voters, Weights(win.scores));
      if Unanimous(win, t) { assert x == 0.0 || x == y; }
      QuotientPoints(x, y);
    }
  }

  /** With twice the required workers and unanimous targets the verdict is certain; with evenly split ones it is worth nothing. */
  lemma ConfidenceExtremes(win: Window, cfg: Config, s: set<Target>)
    requires s != {} && cfg.minWorkers > 0 && WorkerCount(win, s) >= 2 * cfg.minWorkers
    ensures (forall t :: t in s ==> Unanimous(win, t)) ==> Confidence(win, cfg, s) == 1.0
    ensures (forall t :: t in s ==> EvenlySplit(win, t)) ==> Confidence(win, cfg, s) == 0.0
  {
    SupportFull(WorkerCount(win, s), cfg.minWorkers);
    if forall t :: t in s ==> Unanimous(win, t) { DissentOfAll(win, s, 0.0); }
    if forall t :: t in s ==> EvenlySplit(win, t) { DissentOfAll(win, s, 1.0); }
  }

  /** With just the required workers the verdict is at most half certain, and exactly half if they are unanimous. */
  lemma ConfidenceAtMinimum(win: Window, cfg: Config, s: set<Target>)
    requires s != {} && cfg.minWorkers > 0 && WorkerCount(win, s) == cfg.minWorkers
    ensures Confidence(win, cfg, s) == 0.5 * (1.0 - Dissent(win, s))
  {
    QuotientPoints(cfg.minWorkers as real, (cfg.minWorkers * 2) as real);
  }

  lemma SupportFull(n: nat, minWorkers: nat)
    requires minWorkers > 0 && n >= 2 * minWorkers
    ensures Support(n, minWorkers) == 1.0
  {
    Compare(n as real, (minWorkers * 2) as real, 1.0);
  }

  lemma DissentOfAll(win: Window, s: set<Target>, d: real)
    requires s != {}
    requires (d == 0.0 && forall t :: t in s ==> Unanimous(win, t)) || (d == 1.0 && forall t :: t in s ==> EvenlySplit(win, t))
    ensures Dissent(win, s) == d
  {
    var f := TargetDissent(win);
    forall t | t in s ensures f(t) == d { DissentExtremes(win, t); }
    AverageOfConstant(s, f, d);
  }

  // ----- the loop

  /** Stored scores, and each worker's agreement rows, oldest first. */
  datatype Loop = Loop(scores: map<Worker, real>, agreements: map<Worker, seq<real>>)

  /** Settling a window appends one agreement row for every worker that measured in it. */
  ghost predicate Settled(s: Loop, s': Loop, obs: seq<Observation>) {
    && s'.scores == s.scores
    && s'.agreements.Keys == s.agreements.Keys + (set i | 0 <= i < |obs| :: obs[i].worker)
    && forall w :: w in s'.agreements ==> s'.agreements[w] == RowsAfter(s, obs, w)
  }

  ghost function RowsAfter(s: Loop, obs: seq<Observation>, w: Worker): seq<real> {
    (if w in s.agreements then s.agreements[w] else []) +
    (if TargetsOf(obs, w) == {} then [] else [WorkerAgreement(obs, s.scores, w)])
  }

  /** Scoring replaces scores; each is computed on a recent part of the worker's agreement rows. */
  ghost predicate Rescored(s: Loop, s': Loop, evidence: map<Worker, Evidence>) {
    && s'.agreements == s.agreements
    && s'.scores.Keys == s.scores.Keys + evidence.Keys
    && forall w :: w in s'.scores ==>
         if w in evidence then
           && (evidence[w].approvedDays.Some? ==> evidence[w].approvedDays.value >= 0.0)
           && Recent(s, w, evidence[w].agreements)
           && s'.scores[w] == Score(evidence[w])
         else w in s.scores && s'.scores[w] == s.scores[w]
  }

  ghost predicate Recent(s: Loop, w: Worker, rows: seq<real>) {
    if w in s.agreements then exists k :: 0 <= k <= |s.agreements[w]| && rows == s.agreements[w][k..] else rows == []
  }

  datatype Event = Settle(obs: seq<Observation>) | Rescore(evidence: map<Worker, Evidence>)

  ghost predicate Next(s: Loop, e: Event, s': Loop) {
    match e
    case Settle(obs) => Settled(s, s', obs)
    case Rescore(evidence) => Rescored(s, s', evidence)
  }

  ghost predicate Inv(s: Loop) {
    && BelowOne(s.scores)
    && forall w, i :: w in s.agreements && 0 <= i < |s.agreements[w]| ==> 0.0 <= s.agreements[w][i] <= 1.0
  }

  lemma NextKeeps(s: Loop, e: Event, s': Loop)
    requires Inv(s) && Next(s, e, s')
    ensures Inv(s')
  {
    match e
    case Settle(obs) => SettleKeeps(s, obs, s');
    case Rescore(evidence) => RescoreKeeps(s, evidence, s');
  }

  lemma SettleKeeps(s: Loop, obs: seq<Observation>, s': Loop)
    requires Inv(s) && Settled(s, s', obs)
    ensures Inv(s')
  {
    forall w, i | w in s'.agreements && 0 <= i < |s'.agreements[w]| ensures 0.0 <= s'.agreements[w][i] <= 1.0 {
      RowInUnit(s, obs, w, i);
    }
  }

  lemma RowInUnit(s: Loop, obs: seq<Observation>, w: Worker, i: nat)
    requires Inv(s) && i < |RowsAfter(s, obs, w)|
    ensures 0.0 <= RowsAfter(s, obs, w)[i] <= 1.0
  {
    var rows := if w in s.agreements then s.agreements[w] else [];
    if i < |rows| {
      assert RowsAfter(s, obs, w)[i] == s.agreements[w][i];
    } else {
      WorkerAgreementInUnit(obs, s.scores, w);
    }
  }

  lemma RescoreKeeps(s: Loop, evidence: map<Worker, Evidence>, s': Loop)
    requires Inv(s) && Rescored(s, s', evidence)
    ensures Inv(s')
  {
    forall w | w in s'.scores ensures 0.0 <= s'.scores[w] < 1.0 {
      if w in evidence {
        assert Recent(s, w, evidence[w].agreements);
        ScoreBelowOne(evidence[w]);
      }
    }
  }

  ghost predicate IsRun(states: seq<Loop>, events: seq<Event>) {
    && |states| == |events| + 1 && states[0] == Loop(map[], map[])
    && forall i :: 0 <= i < |events| ==> Next(states[i], events[i], states[i + 1])
  }

  /** In every run of scoring and settling, scores stay in [0, 1), agreements in [0, 1] and voting weights in [0.1, 1). */
  lemma {:induction false} RunKeeps(states: seq<Loop>, events: seq<Event>, n: nat)
    requires IsRun(states, events) && n < |states|
    ensures Inv(states[n])
    ensures forall w :: 0.1 <= Weight(states[n].scores, w) < 1.0
  {
    if n == 0 {
    } else {
      RunKeeps(states, events, n - 1);
      NextKeeps(states[n - 1], events[n - 1], states[n]);
    }
    forall w { WeightBounds(states[n].scores, w); }
  }

  /** Hence at no point of any run can a dissenting tenth of a target's voters overturn its vote. */
  lemma InfluenceBoundedInEveryRun(states: seq<Loop>, events: seq<Event>, n: nat, obs: seq<Observation>, t: Target,
                                   agreeing: set<Worker>, dissenting: set<Worker>)
    requires IsRun(states, events) && n < |states|
    requires agreeing != {} && |agreeing| >= 10 * |dissenting|
    requires agreeing !! dissenting && agreeing + dissenting == Voters(obs, t)
    ensures (forall w :: w in agreeing ==> VotesUp(obs, w, t)) ==> TargetUp(obs, states[n].scores, t)
    ensures (forall w :: w in agreeing ==> !VotesUp(obs, w, t)) ==> !TargetUp(obs, states[n].scores, t)
  {
    RunKeeps(states, events, n);
    BoundedInfluence(obs, states[n].scores, t, agreeing, dissenting);
  }
}
