/** `score_benchmark` (planrace/scoring_v2.py:170-334): paired, same-worker, relative
    measurements turned into a lower-confidence estimate of fractional savings. */
module Benchmark {
  import opened Statistics
  import opened Wrappers

  datatype ExecutionOrder = BaselineFirst | CandidateFirst

  datatype Trial = Trial(
    workerId: string,
    order: ExecutionOrder,
    baselineCold: real,
    candidateCold: real,
    baselineWarm: real,
    candidateWarm: real,
    baselineTimedOut: bool,
    candidateTimedOut: bool)
  {
    /** What the trial's constructor enforces. */
    predicate Valid() {
      && workerId != []
      && baselineCold > 0.0 && candidateCold > 0.0 && baselineWarm > 0.0 && candidateWarm > 0.0
    }
  }

  datatype Evidence = Evidence(
    correct: bool,
    compliant: bool,
    setup: real,
    artifactStorage: nat,
    databaseBytes: nat,
    trials: seq<Trial>)
  {
    predicate Valid() {
      && setup >= 0.0 && databaseBytes > 0
      && forall t :: t in trials ==> t.Valid()
    }
  }

  datatype BenchmarkPolicy = BenchmarkPolicy(
    horizons: seq<nat>,
    horizonWeights: seq<real>,
    minimumTrials: nat,
    winsorFraction: real,
    confidenceZ: real,
    maximumTimeoutRate: real,
    storagePenalty: real)
  {
    predicate Valid() {
      && horizons != [] && (forall i :: 0 <= i < |horizons| ==> horizons[i] >= 1)
      && |horizonWeights| == |horizons|
      && (forall i :: 0 <= i < |horizonWeights| ==> horizonWeights[i] >= 0.0)
      && CloseToOne(Sum(horizonWeights))
      && minimumTrials >= 2
      && 0.0 <= winsorFraction < 0.5
      && confidenceZ >= 0.0
      && 0.0 <= maximumTimeoutRate < 1.0
      && storagePenalty >= 0.0
    }
  }

  /** `math.isclose(x, 1.0, abs_tol=1e-12)`, whose relative tolerance stays at 1e-9. */
  predicate CloseToOne(x: real) {
    Abs(x - 1.0) <= MaxReal(Times(0.000000001, MaxReal(Abs(x), 1.0)), 0.000000000001)
  }

  datatype BenchmarkFailure =
    | InsufficientTrials
    | MixedWorkers
    | UnbalancedInterleaving
    | BaselineTimeout
    | ResultMismatch
    | PolicyRejected
    | TimeoutRate
    | CandidateTimeout
    | TimeoutOrderImbalance
    | NoRelativeImprovement

  datatype HorizonScore = HorizonScore(
    horizon: nat,
    relativeSpeedup: real,
    lowerConfidenceSpeedup: real,
    relativeSavings: real)

  datatype BenchmarkScore = BenchmarkScore(
    eligible: bool,
    benchmarkValid: bool,
    reward: real,
    failureCode: Option<BenchmarkFailure>,
    workerId: Option<string>,
    timeoutRate: real,
    storageRatio: real,
    horizons: seq<HorizonScore>)

  // ----- gates ---------------------------------------------------------------

  function CountOrder(trials: seq<Trial>, order: ExecutionOrder): nat {
    if trials == [] then 0 else (if trials[0].order == order then 1 else 0) + CountOrder(trials[1..], order)
  }

  predicate Balanced(trials: seq<Trial>) {
    var b, c := CountOrder(trials, BaselineFirst), CountOrder(trials, CandidateFirst);
    b > 0 && c > 0 && b <= c + 1 && c <= b + 1
  }

  function Completed(trials: seq<Trial>): (r: seq<Trial>)
    ensures |r| <= |trials|
    ensures forall t :: t in r <==> t in trials && !t.candidateTimedOut
  {
    if trials == [] then []
    else if trials[0].candidateTimedOut then Completed(trials[1..])
    else [trials[0]] + Completed(trials[1..])
  }

  /** The mean of the timeout flags. */
  function TimeoutRateOf(trials: seq<Trial>): real
    requires trials != []
  {
    Over((|trials| - |Completed(trials)|) as real, |trials| as real)
  }

  function StorageRatio(e: Evidence): real
    requires e.Valid()
  {
    Over(e.artifactStorage as real, e.databaseBytes as real)
  }

  function Invalid(e: Evidence, code: BenchmarkFailure, worker: Option<string>): BenchmarkScore
    requires e.Valid()
  {
    BenchmarkScore(false, false, 0.0, Some(code), worker, 0.0, StorageRatio(e), [])
  }

  function Zero(e: Evidence, code: BenchmarkFailure): BenchmarkScore
    requires e.Valid() && e.trials != []
  {
    BenchmarkScore(
      false, true, 0.0, Some(code), Some(e.trials[0].workerId), TimeoutRateOf(e.trials), StorageRatio(e), [])
  }

  /** The refusals, in the order in which the source checks them. */
  function Refusal(e: Evidence, policy: BenchmarkPolicy): Option<BenchmarkScore>
    requires e.Valid() && policy.Valid()
  {
    if |e.trials| < policy.minimumTrials then Some(Invalid(e, InsufficientTrials, None))
    else if exists t :: t in e.trials && t.workerId != e.trials[0].workerId
      then Some(Invalid(e, MixedWorkers, None))
    else if !Balanced(e.trials) then Some(Invalid(e, UnbalancedInterleaving, Some(e.trials[0].workerId)))
    else if exists t :: t in e.trials && t.baselineTimedOut
      then Some(Invalid(e, BaselineTimeout, Some(e.trials[0].workerId)))
    else if !e.correct then Some(Zero(e, ResultMismatch))
    else if !e.compliant then Some(Zero(e, PolicyRejected))
    else if TimeoutRateOf(e.trials) > policy.maximumTimeoutRate then Some(Zero(e, TimeoutRate))
    else if |Completed(e.trials)| < 2 then Some(Zero(e, CandidateTimeout))
    else if !Balanced(Completed(e.trials)) then Some(Zero(e, TimeoutOrderImbalance))
    else None
  }

  // ----- horizons ------------------------------------------------------------

  function StorageMultiplier(e: Evidence, policy: BenchmarkPolicy): (m: real)
    requires e.Valid() && policy.Valid()
    ensures m >= 1.0
  {
    RatioNonNegative(e.artifactStorage, e.databaseBytes);
    ProductNonNegative(StorageRatio(e), policy.storagePenalty);
    1.0 + Times(StorageRatio(e), policy.storagePenalty)
  }

  lemma RatioNonNegative(a: nat, b: nat)
    requires b > 0
    ensures Over(a as real, b as real) >= 0.0
  {
  }

  /** `cold + (horizon - 1) * warm`. */
  function Repeated(cold: real, warm: real, horizon: nat): (r: real)
    requires cold > 0.0 && warm > 0.0 && horizon >= 1
    ensures r > 0.0
  {
    ProductNonNegative((horizon - 1) as real, warm);
    cold + Times((horizon - 1) as real, warm)
  }

  function BaselineTotal(t: Trial, horizon: nat): (r: real)
    requires t.Valid() && horizon >= 1
    ensures r > 0.0
  {
    Repeated(t.baselineCold, t.baselineWarm, horizon)
  }

  /** What the candidate costs: setup, first and repeated runs, marked up for storage. */
  function CandidateTotal(t: Trial, setup: real, horizon: nat, multiplier: real): (r: real)
    requires t.Valid() && horizon >= 1 && setup >= 0.0 && multiplier >= 1.0
    ensures r > 0.0
  {
    var plain := setup + Repeated(t.candidateCold, t.candidateWarm, horizon);
    ProductNonNegative(plain, multiplier);
    Times(plain, multiplier)
  }

  function LogSpeedup(t: Trial, setup: real, horizon: nat, multiplier: real, fn: Analysis): real
    requires t.Valid() && horizon >= 1 && setup >= 0.0 && multiplier >= 1.0
  {
    fn.log2(Over(BaselineTotal(t, horizon), CandidateTotal(t, setup, horizon, multiplier)))
  }

  function LogSpeedups(trials: seq<Trial>, setup: real, horizon: nat, multiplier: real, fn: Analysis)
    : (r: seq<real>)
    requires horizon >= 1 && setup >= 0.0 && multiplier >= 1.0
    requires forall t :: t in trials ==> t.Valid()
    ensures |r| == |trials|
  {
    if trials == [] then []
    else
      assert trials[0] in trials;
      [LogSpeedup(trials[0], setup, horizon, multiplier, fn)]
      + LogSpeedups(trials[1..], setup, horizon, multiplier, fn)
  }

  function Savings(lowerSpeedup: real): (r: real)
    requires lowerSpeedup != 0.0
    ensures 0.0 <= r <= 1.0
  {
    MaxReal(0.0, MinReal(1.0, 1.0 - Over(1.0, lowerSpeedup)))
  }

  function LowerLog(v: seq<real>, policy: BenchmarkPolicy, fn: Analysis): real
    requires v != [] && policy.Valid() && fn.RootLaws()
  {
    WinsorizedMean(v, policy.winsorFraction, 1) - Times(policy.confidenceZ, RobustStandardError(v, fn))
  }

  function ScoreHorizon(v: seq<real>, horizon: nat, policy: BenchmarkPolicy, fn: Analysis): HorizonScore
    requires v != [] && policy.Valid() && fn.RootLaws() && fn.BinaryLaws()
  {
    var lower := fn.pow2(LowerLog(v, policy, fn));
    HorizonScore(horizon, fn.pow2(WinsorizedMean(v, policy.winsorFraction, 1)), lower, Savings(lower))
  }

  ghost predicate Scorable(e: Evidence, policy: BenchmarkPolicy, fn: Analysis) {
    e.Valid() && policy.Valid() && fn.RootLaws() && fn.BinaryLaws()
  }

  /** The score of one horizon on the completed trials. */
  function HorizonOf(e: Evidence, horizon: nat, policy: BenchmarkPolicy, fn: Analysis): HorizonScore
    requires Scorable(e, policy, fn) && Completed(e.trials) != [] && horizon >= 1
  {
    ScoreHorizon(
      LogSpeedups(Completed(e.trials), e.setup, horizon, StorageMultiplier(e, policy), fn), horizon, policy, fn)
  }

  function HorizonScores(e: Evidence, horizons: seq<nat>, policy: BenchmarkPolicy, fn: Analysis): (r: seq<HorizonScore>)
    requires Scorable(e, policy, fn) && Completed(e.trials) != []
    requires forall i :: 0 <= i < |horizons| ==> horizons[i] >= 1
    ensures |r| == |horizons|
  {
    if horizons == [] then []
    else [HorizonOf(e, horizons[0], policy, fn)] + HorizonScores(e, horizons[1..], policy, fn)
  }

  lemma {:induction false} HorizonScoresAt(e: Evidence, horizons: seq<nat>, policy: BenchmarkPolicy, fn: Analysis)
    requires Scorable(e, policy, fn) && Completed(e.trials) != []
    requires forall i :: 0 <= i < |horizons| ==> horizons[i] >= 1
    ensures forall i :: 0 <= i < |horizons| ==>
              HorizonScores(e, horizons, policy, fn)[i] == HorizonOf(e, horizons[i], policy, fn)
  {
    hide HorizonOf, Completed, Scorable;
    if horizons != [] { HorizonScoresAt(e, horizons[1..], policy, fn); }
  }

  function WeightedSavings(weights: seq<real>, scores: seq<HorizonScore>): real
    requires |weights| == |scores|
  {
    if weights == [] then 0.0
    else Times(weights[0], scores[0].relativeSavings) + WeightedSavings(weights[1..], scores[1..])
  }

  function Reliability(e: Evidence): real
    requires e.trials != []
  {
    Times(1.0 - TimeoutRateOf(e.trials), 1.0 - TimeoutRateOf(e.trials))
  }

  function RewardOf(e: Evidence, weights: seq<real>, scores: seq<HorizonScore>): real
    requires e.trials != [] && |weights| == |scores|
  {
    Times(Times(100.0, WeightedSavings(weights, scores)), Reliability(e))
  }

  function Verdict(e: Evidence, reward: real, scores: seq<HorizonScore>): BenchmarkScore
    requires e.Valid() && e.trials != []
  {
    BenchmarkScore(
      reward > 0.0, true, reward, if reward > 0.0 then None else Some(NoRelativeImprovement),
      Some(e.trials[0].workerId), TimeoutRateOf(e.trials), StorageRatio(e), scores)
  }

  /** The specification of `score_benchmark`. */
  function Score(e: Evidence, policy: BenchmarkPolicy, fn: Analysis): BenchmarkScore
    requires Scorable(e, policy, fn)
  {
    match Refusal(e, policy)
    case Some(refused) => refused
    case None =>
      var scores := HorizonScores(e, policy.horizons, policy, fn);
      Verdict(e, RewardOf(e, policy.horizonWeights, scores), scores)
  }

  // ----- the loops -----------------------------------------------------------

  lemma {:induction false} LogSpeedupsSnoc(
      trials: seq<Trial>, t: Trial, setup: real, horizon: nat, multiplier: real, fn: Analysis)
    requires horizon >= 1 && setup >= 0.0 && multiplier >= 1.0
    requires t.Valid() && forall u :: u in trials ==> u.Valid()
    ensures LogSpeedups(trials + [t], setup, horizon, multiplier, fn)
         == LogSpeedups(trials, setup, horizon, multiplier, fn) + [LogSpeedup(t, setup, horizon, multiplier, fn)]
  {
    hide LogSpeedup;
    if trials == [] {
      assert trials + [t] == [t];
    } else {
      assert (trials + [t])[1..] == trials[1..] + [t];
      LogSpeedupsSnoc(trials[1..], t, setup, horizon, multiplier, fn);
    }
  }

  method CollectLogSpeedups(completed: seq<Trial>, setup: real, horizon: nat, multiplier: real, fn: Analysis)
    returns (v: seq<real>)
    requires horizon >= 1 && setup >= 0.0 && multiplier >= 1.0
    requires forall t :: t in completed ==> t.Valid()
    ensures v == LogSpeedups(completed, setup, horizon, multiplier, fn)
  {
    v := [];
    for i := 0 to |completed|
      invariant forall t :: t in completed[..i] ==> t.Valid()
      invariant v == LogSpeedups(completed[..i], setup, horizon, multiplier, fn)
    {
      var t := completed[i];
      assert t in completed;
      var baselineTotal := t.baselineCold + Times((horizon - 1) as real, t.baselineWarm);
      var candidateTotal := Times(
        setup + (t.candidateCold + Times((horizon - 1) as real, t.candidateWarm)), multiplier);
      assert baselineTotal == BaselineTotal(t, horizon);
      assert candidateTotal == CandidateTotal(t, setup, horizon, multiplier);
      v := v + [fn.log2(Over(baselineTotal, candidateTotal))];
      LogSpeedupsSnoc(completed[..i], t, setup, horizon, multiplier, fn);
      assert completed[..i + 1] == completed[..i] + [t];
    }
    assert completed[..|completed|] == completed;
  }

  lemma {:induction false} WeightedSavingsSnoc(
      weights: seq<real>, scores: seq<HorizonScore>, w: real, s: HorizonScore)
    requires |weights| == |scores|
    ensures WeightedSavings(weights + [w], scores + [s])
         == WeightedSavings(weights, scores) + Times(w, s.relativeSavings)
  {
    if weights == [] {
      assert weights + [w] == [w] && scores + [s] == [s];
    } else {
      WeightedSavingsSnoc(weights[1..], scores[1..], w, s);
      assert (weights + [w])[1..] == weights[1..] + [w] && (scores + [s])[1..] == scores[1..] + [s];
    }
  }

  /** What the loop over the horizons has computed after `i` of them. */
  ghost predicate Scored(
      e: Evidence, policy: BenchmarkPolicy, fn: Analysis, i: nat, scores: seq<HorizonScore>, weighted: real)
    requires Scorable(e, policy, fn) && Completed(e.trials) != []
  {
    && i <= |policy.horizons| && |scores| == i
    && (forall j :: 0 <= j < i ==> scores[j] == HorizonOf(e, policy.horizons[j], policy, fn))
    && weighted == WeightedSavings(policy.horizonWeights[..i], scores)
  }

  lemma ScoredStart(e: Evidence, policy: BenchmarkPolicy, fn: Analysis)
    requires Scorable(e, policy, fn) && Completed(e.trials) != []
    ensures Scored(e, policy, fn, 0, [], 0.0)
    ensures |policy.horizonWeights| == |policy.horizons|
  {
    hide Completed, HorizonOf;
  }

  lemma PositiveHorizon(policy: BenchmarkPolicy, i: nat)
    requires policy.Valid() && i < |policy.horizons|
    ensures policy.horizons[i] >= 1
  {
  }

  lemma ScoredNext(
      e: Evidence, policy: BenchmarkPolicy, fn: Analysis, i: nat, scores: seq<HorizonScore>, weighted: real,
      s: HorizonScore)
    requires Scorable(e, policy, fn) && Completed(e.trials) != []
    requires Scored(e, policy, fn, i, scores, weighted) && i < |policy.horizons|
    requires s == HorizonOf(e, policy.horizons[i], policy, fn)
    ensures Scored(e, policy, fn, i + 1, scores + [s], weighted + Times(policy.horizonWeights[i], s.relativeSavings))
  {
    hide HorizonOf, Completed, WeightedSavings;
    var weights := policy.horizonWeights;
    WeightedSavingsSnoc(weights[..i], scores, weights[i], s);
    assert weights[..i + 1] == weights[..i] + [weights[i]];
  }

  lemma ScoredAll(e: Evidence, policy: BenchmarkPolicy, fn: Analysis, scores: seq<HorizonScore>, weighted: real)
    requires Scorable(e, policy, fn) && Completed(e.trials) != []
    requires Scored(e, policy, fn, |policy.horizons|, scores, weighted)
    ensures scores == HorizonScores(e, policy.horizons, policy, fn)
    ensures weighted == WeightedSavings(policy.horizonWeights, scores)
  {
    HorizonScoresAt(e, policy.horizons, policy, fn);
    hide HorizonOf, Completed, WeightedSavings;
    assert policy.horizonWeights[..|policy.horizons|] == policy.horizonWeights;
  }

  /** The body of that loop: one horizon over the completed trials. */
  method ScoreOneHorizon(
      e: Evidence, completed: seq<Trial>, multiplier: real, horizon: nat, policy: BenchmarkPolicy, fn: Analysis)
    returns (s: HorizonScore)
    requires Scorable(e, policy, fn) && completed == Completed(e.trials) != [] && horizon >= 1
    requires multiplier == StorageMultiplier(e, policy)
    ensures s == HorizonOf(e, horizon, policy, fn)
  {
    hide WinsorizedMean, RobustStandardError, Completed, LogSpeedups, HorizonOf, StorageMultiplier;
    var v := CollectLogSpeedups(completed, e.setup, horizon, multiplier, fn);
    var center := WinsorizedMean(v, policy.winsorFraction, 1);
    RootsDefined(v, fn);
    var lower := center - Times(policy.confidenceZ, RobustStandardError(v, fn));
    var lowerSpeedup := fn.pow2(lower);
    var savings := MaxReal(0.0, MinReal(1.0, 1.0 - Over(1.0, lowerSpeedup)));
    s := HorizonScore(horizon, fn.pow2(center), lowerSpeedup, savings);
    HorizonIs(e, horizon, policy, fn, s);
  }

  /** The loop over horizons and their weights. */
  method ScoreHorizons(e: Evidence, policy: BenchmarkPolicy, fn: Analysis)
    returns (scores: seq<HorizonScore>, weighted: real)
    requires Scorable(e, policy, fn) && Completed(e.trials) != []
    ensures scores == HorizonScores(e, policy.horizons, policy, fn)
    ensures weighted == WeightedSavings(policy.horizonWeights, scores)
  {
    assert e.Valid() && policy.Valid();
    hide *;
    var completed := Completed(e.trials);
    var multiplier := StorageMultiplier(e, policy);
    var horizons, weights := policy.horizons, policy.horizonWeights;
    scores := [];
    weighted := 0.0;
    ScoredStart(e, policy, fn);
    for i := 0 to |horizons|
      invariant Scored(e, policy, fn, i, scores, weighted)
    {
      PositiveHorizon(policy, i);
      var s := ScoreOneHorizon(e, completed, multiplier, horizons[i], policy, fn);
      ScoredNext(e, policy, fn, i, scores, weighted, s);
      scores := scores + [s];
      weighted := weighted + Times(weights[i], s.relativeSavings);
    }
    ScoredAll(e, policy, fn, scores, weighted);
  }

  lemma RootsDefined(v: seq<real>, fn: Analysis)
    requires fn.RootLaws()
    ensures fn.root(|v|) != 0.0 || |v| < 2
  {
  }

  lemma PassedGates(e: Evidence, policy: BenchmarkPolicy)
    requires e.Valid() && policy.Valid() && Refusal(e, policy).None?
    ensures e.trials != [] && Completed(e.trials) != []
  {
  }

  lemma ScoreIs(e: Evidence, policy: BenchmarkPolicy, fn: Analysis)
    requires Scorable(e, policy, fn) && Refusal(e, policy).None?
    ensures e.trials != [] && Completed(e.trials) != []
    ensures |policy.horizonWeights| == |policy.horizons|
    ensures var scores := HorizonScores(e, policy.horizons, policy, fn);
            Score(e, policy, fn) == Verdict(e, RewardOf(e, policy.horizonWeights, scores), scores)
  {
    PassedGates(e, policy);
    hide Refusal, Verdict, RewardOf, HorizonScores;
  }

  /** `score_benchmark`. */
  method ScoreBenchmark(e: Evidence, policy: BenchmarkPolicy, fn: Analysis) returns (r: BenchmarkScore)
    requires Scorable(e, policy, fn)
    ensures r == Score(e, policy, fn)
  {
    hide Refusal, HorizonScores, WeightedSavings, Verdict, Score, Completed;
    var refused := Refusal(e, policy);
    if refused.Some? {
      RefusedIs(e, policy, fn);
      return refused.value;
    }
    PassedGates(e, policy);
    var scores, weighted := ScoreHorizons(e, policy, fn);
    var reliability := Times(1.0 - TimeoutRateOf(e.trials), 1.0 - TimeoutRateOf(e.trials));
    var reward := Times(Times(100.0, weighted), reliability);
    ScoreIs(e, policy, fn);
    assert reward == RewardOf(e, policy.horizonWeights, scores);
    r := Verdict(e, reward, scores);
  }

  lemma RefusedIs(e: Evidence, policy: BenchmarkPolicy, fn: Analysis)
    requires Scorable(e, policy, fn) && Refusal(e, policy).Some?
    ensures Score(e, policy, fn) == Refusal(e, policy).value
  {
    hide Refusal;
  }

  lemma HorizonIs(e: Evidence, horizon: nat, policy: BenchmarkPolicy, fn: Analysis, s: HorizonScore)
    requires Scorable(e, policy, fn) && Completed(e.trials) != [] && horizon >= 1
    requires var v := LogSpeedups(Completed(e.trials), e.setup, horizon, StorageMultiplier(e, policy), fn);
             var center := WinsorizedMean(v, policy.winsorFraction, 1);
             var lower := fn.pow2(center - Times(policy.confidenceZ, RobustStandardError(v, fn)));
             s == HorizonScore(horizon, fn.pow2(center), lower,
                               MaxReal(0.0, MinReal(1.0, 1.0 - Over(1.0, lower))))
    ensures s == HorizonOf(e, horizon, policy, fn)
  {
    hide Completed, LogSpeedups, WinsorizedMean, RobustStandardError, StorageMultiplier;
  }
}
