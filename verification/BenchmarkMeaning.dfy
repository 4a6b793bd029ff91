/** What `score_benchmark` reports, in the arithmetic of planrace/scoring_v2.py:301-334 and
    of no function of the model: what each candidate run costs, what a horizon reports, and
    what the reward is after timeouts. */
module BenchmarkMeaning {
  import opened Statistics
  import opened Wrappers
  import opened Benchmark
  import opened BenchmarkLaws
  import opened BenchmarkRange

  // ----- one trial -----------------------------------------------------------

  /** What the candidate costs at a horizon, in milliseconds: the setup once, one cold run
      and the warm ones, marked up by the share of the database that its artifacts fill. */
  ghost function Cost(t: Trial, e: Evidence, policy: BenchmarkPolicy, horizon: nat): real
    requires e.databaseBytes > 0
  {
    (e.setup + t.candidateCold + (horizon as real - 1.0) * t.candidateWarm)
    * (1.0 + policy.storagePenalty * (e.artifactStorage as real / e.databaseBytes as real))
  }

  /** `x` is how many times cheaper than the baseline the candidate is. */
  ghost predicate IsSpeedup(t: Trial, e: Evidence, policy: BenchmarkPolicy, horizon: nat, x: real)
    requires e.databaseBytes > 0
  {
    x * Cost(t, e, policy, horizon) == t.baselineCold + (horizon as real - 1.0) * t.baselineWarm
  }

  lemma CostIs(t: Trial, e: Evidence, policy: BenchmarkPolicy, horizon: nat)
    requires t.Valid() && e.Valid() && policy.Valid() && horizon >= 1
    ensures CandidateTotal(t, e.setup, horizon, StorageMultiplier(e, policy)) == Cost(t, e, policy, horizon)
  {
    var m, k := StorageMultiplier(e, policy), (horizon - 1) as real;
    assert m == 1.0 + policy.storagePenalty * (e.artifactStorage as real / e.databaseBytes as real);
    assert k == horizon as real - 1.0 && Times(k, t.candidateWarm) == k * t.candidateWarm;
    var plain := e.setup + (t.candidateCold + k * t.candidateWarm);
    assert CandidateTotal(t, e.setup, horizon, m) == Times(plain, m);
    assert Cost(t, e, policy, horizon) == plain * m;
  }

  lemma Quotients(x: real, b: real, c: real)
    requires c != 0.0
    ensures x * c == b <==> x == Over(b, c)
  {
    if x * c == b { TimesOver(x, c); } else if x == Over(b, c) { OverTimes(b, c); }
  }

  lemma SpeedupIs(t: Trial, e: Evidence, policy: BenchmarkPolicy, horizon: nat, fn: Analysis) returns (x: real)
    requires t.Valid() && e.Valid() && policy.Valid() && horizon >= 1
    ensures IsSpeedup(t, e, policy, horizon, x) && x > 0.0
    ensures LogSpeedup(t, e.setup, horizon, StorageMultiplier(e, policy), fn) == fn.log2(x)
  {
    var b := BaselineTotal(t, horizon);
    var c := CandidateTotal(t, e.setup, horizon, StorageMultiplier(e, policy));
    CostIs(t, e, policy, horizon);
    assert b == t.baselineCold + (horizon as real - 1.0) * t.baselineWarm;
    x := Over(b, c);
    assert x * c == b ==> IsSpeedup(t, e, policy, horizon, x);
    hide Over, IsSpeedup, BaselineTotal, CandidateTotal, StorageMultiplier, Cost;
    Quotients(x, b, c);
    PositiveRatio(b, c);
  }

  lemma PositiveRatio(b: real, c: real)
    requires b > 0.0 && c > 0.0
    ensures Over(b, c) > 0.0
  {
  }

  // ----- one horizon ---------------------------------------------------------

  lemma {:induction false} LogSpeedupsAt(
      trials: seq<Trial>, setup: real, horizon: nat, multiplier: real, fn: Analysis, j: nat)
    requires horizon >= 1 && setup >= 0.0 && multiplier >= 1.0
    requires (forall t :: t in trials ==> t.Valid()) && j < |trials|
    ensures trials[j].Valid()
    ensures LogSpeedups(trials, setup, horizon, multiplier, fn)[j]
         == LogSpeedup(trials[j], setup, horizon, multiplier, fn)
  {
    hide LogSpeedup;
    assert trials[j] in trials;
    if j > 0 { LogSpeedupsAt(trials[1..], setup, horizon, multiplier, fn, j - 1); }
  }

  /** `v` holds the base-two logarithms of the speedups of the trials. */
  ghost predicate LogsOfSpeedups(
      trials: seq<Trial>, e: Evidence, policy: BenchmarkPolicy, horizon: nat, fn: Analysis, v: seq<real>)
    requires e.databaseBytes > 0
  {
    |v| == |trials|
    && forall j :: 0 <= j < |v| ==>
         exists x: real :: IsSpeedup(trials[j], e, policy, horizon, x) && v[j] == fn.log2(x)
  }

  lemma LogSpeedupsAre(trials: seq<Trial>, e: Evidence, policy: BenchmarkPolicy, horizon: nat, fn: Analysis)
    requires e.Valid() && policy.Valid() && horizon >= 1
    requires forall t :: t in trials ==> t.Valid()
    ensures LogsOfSpeedups(
              trials, e, policy, horizon, fn,
              LogSpeedups(trials, e.setup, horizon, StorageMultiplier(e, policy), fn))
  {
    var m := StorageMultiplier(e, policy);
    var v := LogSpeedups(trials, e.setup, horizon, m, fn);
    hide IsSpeedup, LogSpeedup, LogSpeedups, StorageMultiplier;
    forall j | 0 <= j < |v|
      ensures exists x: real :: IsSpeedup(trials[j], e, policy, horizon, x) && v[j] == fn.log2(x)
    {
      LogSpeedupsAt(trials, e.setup, horizon, m, fn, j);
      var x := SpeedupIs(trials[j], e, policy, horizon, fn);
    }
  }

  /** What a horizon reports for samples with this winsorised mean and standard error. */
  ghost predicate Reports(
      s: HorizonScore, horizon: nat, center: real, deviation: real, policy: BenchmarkPolicy, fn: Analysis)
  {
    && s.horizon == horizon
    && s.relativeSpeedup == fn.pow2(center)
    && s.lowerConfidenceSpeedup == fn.pow2(center - policy.confidenceZ * deviation)
    && s.lowerConfidenceSpeedup > 0.0
    && s.relativeSavings
       == if s.lowerConfidenceSpeedup <= 1.0 then 0.0 else 1.0 - 1.0 / s.lowerConfidenceSpeedup
  }

  lemma SavingsAre(x: real)
    requires x > 0.0
    ensures Savings(x) == if x <= 1.0 then 0.0 else 1.0 - 1.0 / x
  {
  }

  lemma ReportIs(s: HorizonScore, center: real, deviation: real, policy: BenchmarkPolicy, fn: Analysis)
    requires fn.BinaryLaws() && s.relativeSpeedup == fn.pow2(center)
    requires s.lowerConfidenceSpeedup == fn.pow2(center - Times(policy.confidenceZ, deviation)) != 0.0
    requires s.relativeSavings == Savings(s.lowerConfidenceSpeedup)
    ensures Reports(s, s.horizon, center, deviation, policy, fn)
  {
    var shift := policy.confidenceZ * deviation;
    assert Times(policy.confidenceZ, deviation) == shift;
    assert s.lowerConfidenceSpeedup == fn.pow2(center - shift) > 0.0;
    SavingsAre(s.lowerConfidenceSpeedup);
    assert s.relativeSavings
           == if s.lowerConfidenceSpeedup <= 1.0 then 0.0 else 1.0 - 1.0 / s.lowerConfidenceSpeedup;
    assert s.lowerConfidenceSpeedup == fn.pow2(center - policy.confidenceZ * deviation);
  }

  lemma HorizonReports(v: seq<real>, horizon: nat, policy: BenchmarkPolicy, fn: Analysis)
    requires v != [] && policy.Valid() && fn.RootLaws() && fn.BinaryLaws()
    ensures Reports(ScoreHorizon(v, horizon, policy, fn), horizon, WinsorizedMean(v, policy.winsorFraction, 1),
                    RobustStandardError(v, fn), policy, fn)
  {
    hide WinsorizedMean, RobustStandardError, Savings, Reports, Times;
    var center, deviation := WinsorizedMean(v, policy.winsorFraction, 1), RobustStandardError(v, fn);
    ReportIs(ScoreHorizon(v, horizon, policy, fn), center, deviation, policy, fn);
  }

  /** Horizon `i` of a scored benchmark rests on the logarithms `v` of the speedups of the
      completed trials: their winsorised mean, with at least one sample replaced at each
      end, and their standard error. */
  ghost predicate HorizonRests(e: Evidence, policy: BenchmarkPolicy, fn: Analysis, i: nat, v: seq<real>)
    requires Scorable(e, policy, fn) && i < |policy.horizons| && i < |Score(e, policy, fn).horizons|
  {
    && v != [] && LogsOfSpeedups(Completed(e.trials), e, policy, policy.horizons[i], fn, v)
    && Reports(Score(e, policy, fn).horizons[i], policy.horizons[i], WinsorizedMean(v, policy.winsorFraction, 1),
               RobustStandardError(v, fn), policy, fn)
  }

  /** A scored benchmark reports every horizon of the policy, from its completed trials. */
  lemma HorizonMeans(e: Evidence, policy: BenchmarkPolicy, fn: Analysis, i: nat) returns (v: seq<real>)
    requires Scorable(e, policy, fn) && Refusal(e, policy).None? && i < |policy.horizons|
    ensures |Score(e, policy, fn).horizons| == |policy.horizons|
    ensures HorizonRests(e, policy, fn, i, v)
  {
    var h := policy.horizons[i];
    PassedGates(e, policy);
    assert e.Valid() && policy.Valid();
    ScoreIs(e, policy, fn);
    HorizonScoresAt(e, policy.horizons, policy, fn);
    assert Score(e, policy, fn).horizons == HorizonScores(e, policy.horizons, policy, fn);
    hide Score, Refusal, Completed, HorizonScores, LogsOfSpeedups, Reports, LogSpeedups, ScoreHorizon;
    LogSpeedupsAre(Completed(e.trials), e, policy, h, fn);
    v := LogSpeedups(Completed(e.trials), e.setup, h, StorageMultiplier(e, policy), fn);
    HorizonReports(v, h, policy, fn);
  }

  // ----- uniform trials ------------------------------------------------------

  ghost predicate SameTimes(t: Trial, u: Trial) {
    && t.baselineCold == u.baselineCold && t.baselineWarm == u.baselineWarm
    && t.candidateCold == u.candidateCold && t.candidateWarm == u.candidateWarm
  }

  /** All trials that did not time out took the same four times. */
  ghost predicate Uniform(trials: seq<Trial>) {
    forall t, u :: t in trials && u in trials && !t.candidateTimedOut && !u.candidateTimedOut ==> SameTimes(t, u)
  }

  lemma SpeedupUnique(t: Trial, e: Evidence, policy: BenchmarkPolicy, horizon: nat, x: real, y: real)
    requires t.Valid() && e.Valid() && policy.Valid() && horizon >= 1
    requires IsSpeedup(t, e, policy, horizon, x) && IsSpeedup(t, e, policy, horizon, y)
    ensures x == y
  {
    CostIs(t, e, policy, horizon);
    var c := Cost(t, e, policy, horizon);
    var b := t.baselineCold + (horizon as real - 1.0) * t.baselineWarm;
    assert c > 0.0 && x * c == b && y * c == b;
    hide *;
    Quotients(x, b, c);
    Quotients(y, b, c);
  }

  lemma SameSpeedup(t: Trial, u: Trial, e: Evidence, policy: BenchmarkPolicy, horizon: nat, x: real)
    requires e.databaseBytes > 0 && SameTimes(t, u)
    ensures IsSpeedup(t, e, policy, horizon, x) == IsSpeedup(u, e, policy, horizon, x)
  {
    assert Cost(t, e, policy, horizon) == Cost(u, e, policy, horizon);
    hide Cost;
  }

  /** When the completed trials agree on their four times, the reported speedup is that of
      each of them at every horizon, and there is nothing to subtract for confidence. */
  lemma UniformTrialsScore(e: Evidence, policy: BenchmarkPolicy, fn: Analysis, i: nat)
    requires Scorable(e, policy, fn) && SoundBenchmark(e, policy) && SoundCandidate(e, policy)
    requires Uniform(e.trials) && i < |policy.horizons|
    ensures |Score(e, policy, fn).horizons| == |policy.horizons|
    ensures var s := Score(e, policy, fn).horizons[i];
            && s.horizon == policy.horizons[i]
            && (forall t :: t in e.trials && !t.candidateTimedOut ==>
                  IsSpeedup(t, e, policy, policy.horizons[i], s.relativeSpeedup))
            && s.lowerConfidenceSpeedup == s.relativeSpeedup > 0.0
            && s.relativeSavings == if s.relativeSpeedup <= 1.0 then 0.0 else 1.0 - 1.0 / s.relativeSpeedup
  {
    var h := policy.horizons[i];
    RefusalMeans(e, policy);
    PassedGates(e, policy);
    assert e.Valid() && policy.Valid() && h >= 1;
    var u := Completed(e.trials)[0];
    assert u in e.trials && !u.candidateTimedOut && u.Valid();
    assert forall t :: t in e.trials && !t.candidateTimedOut ==> SameTimes(t, u);
    hide Score, Refusal, Completed, IsSpeedup, SameTimes, SoundBenchmark, SoundCandidate, Uniform;
    var v := HorizonMeans(e, policy, fn, i);
    var x := SpeedupIs(u, e, policy, h, fn);
    UniformLogs(e, policy, fn, h, v, x, u);
    ConstantReports(Score(e, policy, fn).horizons[i], v, x, h, policy, fn);
    forall t | t in e.trials && !t.candidateTimedOut ensures IsSpeedup(t, e, policy, h, x) {
      SameSpeedup(t, u, e, policy, h, x);
    }
  }

  lemma UniformLogs(e: Evidence, policy: BenchmarkPolicy, fn: Analysis, h: nat, v: seq<real>, x: real, u: Trial)
    requires e.Valid() && policy.Valid() && h >= 1 && u.Valid()
    requires LogsOfSpeedups(Completed(e.trials), e, policy, h, fn, v)
    requires forall t :: t in e.trials && !t.candidateTimedOut ==> SameTimes(t, u)
    requires IsSpeedup(u, e, policy, h, x)
    ensures Constant(v, fn.log2(x))
  {
    var trials := Completed(e.trials);
    hide IsSpeedup, SameTimes;
    forall j | 0 <= j < |v| ensures v[j] == fn.log2(x) {
      var t := trials[j];
      assert t in trials;
      var y :| IsSpeedup(t, e, policy, h, y) && v[j] == fn.log2(y);
      SameSpeedup(t, u, e, policy, h, y);
      SpeedupUnique(u, e, policy, h, x, y);
    }
  }

  lemma ConstantReports(s: HorizonScore, v: seq<real>, x: real, horizon: nat, policy: BenchmarkPolicy, fn: Analysis)
    requires v != [] && Constant(v, fn.log2(x)) && x > 0.0 && policy.Valid() && fn.RootLaws() && fn.BinaryLaws()
    requires Reports(s, horizon, WinsorizedMean(v, policy.winsorFraction, 1), RobustStandardError(v, fn), policy, fn)
    ensures s.horizon == horizon && s.relativeSpeedup == s.lowerConfidenceSpeedup == x
    ensures s.relativeSavings == if x <= 1.0 then 0.0 else 1.0 - 1.0 / x
  {
    ConstantSpread(v, fn.log2(x), policy.winsorFraction, 1, fn);
    hide WinsorizedMean, RobustStandardError;
  }

  // ----- the counts ----------------------------------------------------------

  lemma {:induction false} CompletedSnoc(trials: seq<Trial>, t: Trial)
    ensures |Completed(trials + [t])| == |Completed(trials)| + if t.candidateTimedOut then 0 else 1
  {
    if trials == [] {
      assert trials + [t] == [t];
    } else {
      CompletedSnoc(trials[1..], t);
      assert (trials + [t])[1..] == trials[1..] + [t];
    }
  }

  lemma {:induction false} CountOrderSnoc(trials: seq<Trial>, t: Trial, order: ExecutionOrder)
    ensures CountOrder(trials + [t], order) == CountOrder(trials, order) + if t.order == order then 1 else 0
  {
    if trials == [] {
      assert trials + [t] == [t];
    } else {
      CountOrderSnoc(trials[1..], t, order);
      assert (trials + [t])[1..] == trials[1..] + [t];
    }
  }

  /** The positions of the trials in which the candidate timed out. */
  ghost function TimedOut(trials: seq<Trial>): set<nat> {
    set i | 0 <= i < |trials| && trials[i].candidateTimedOut
  }

  /** The positions of the trials in one execution order. */
  ghost function InOrder(trials: seq<Trial>, order: ExecutionOrder): set<nat> {
    set i | 0 <= i < |trials| && trials[i].order == order
  }

  lemma TimedOutSnoc(rest: seq<Trial>, t: Trial)
    ensures |TimedOut(rest + [t])| == |TimedOut(rest)| + if t.candidateTimedOut then 1 else 0
  {
    var was, now := TimedOut(rest), TimedOut(rest + [t]);
    assert forall i :: i in was ==> i in now;
    assert forall i :: i in now ==> i in was || (i == |rest| && t.candidateTimedOut);
    assert |rest| !in was;
    if t.candidateTimedOut { assert now == was + {|rest|}; } else { assert now == was; }
  }

  lemma InOrderSnoc(rest: seq<Trial>, t: Trial, order: ExecutionOrder)
    ensures |InOrder(rest + [t], order)| == |InOrder(rest, order)| + if t.order == order then 1 else 0
  {
    var was, now := InOrder(rest, order), InOrder(rest + [t], order);
    assert forall i :: i in was ==> i in now;
    assert forall i :: i in now ==> i in was || (i == |rest| && t.order == order);
    assert |rest| !in was;
    if t.order == order { assert now == was + {|rest|}; } else { assert now == was; }
  }

  lemma {:induction false} CompletedCount(trials: seq<Trial>)
    ensures |Completed(trials)| == |trials| - |TimedOut(trials)|
  {
    if trials != [] {
      var rest, t := trials[..|trials| - 1], trials[|trials| - 1];
      assert trials == rest + [t];
      CompletedCount(rest);
      CompletedSnoc(rest, t);
      TimedOutSnoc(rest, t);
      hide TimedOut, Completed;
    }
  }

  lemma {:induction false} OrderCount(trials: seq<Trial>, order: ExecutionOrder)
    ensures CountOrder(trials, order) == |InOrder(trials, order)|
  {
    if trials != [] {
      var rest, t := trials[..|trials| - 1], trials[|trials| - 1];
      assert trials == rest + [t];
      OrderCount(rest, order);
      CountOrderSnoc(rest, t, order);
      InOrderSnoc(rest, t, order);
      hide InOrder, CountOrder;
    }
  }

  /** Both execution orders occur, in numbers that differ by at most one. */
  ghost predicate Interleaved(trials: seq<Trial>) {
    var b, c := |InOrder(trials, BaselineFirst)|, |InOrder(trials, CandidateFirst)|;
    b >= 1 && c >= 1 && -1 <= b - c <= 1
  }

  lemma BalancedIs(trials: seq<Trial>)
    ensures Balanced(trials) <==> Interleaved(trials)
  {
    OrderCount(trials, BaselineFirst);
    OrderCount(trials, CandidateFirst);
  }

  // ----- the reward ----------------------------------------------------------

  /** The weights of the horizons times their savings. */
  ghost predicate WeighedSavings(weights: seq<real>, scores: seq<HorizonScore>, p: seq<real>) {
    |p| == |weights| == |scores| && forall i :: 0 <= i < |p| ==> p[i] == weights[i] * scores[i].relativeSavings
  }

  lemma {:induction false} WeightedSavingsAre(weights: seq<real>, scores: seq<HorizonScore>, p: seq<real>)
    requires WeighedSavings(weights, scores, p)
    ensures WeightedSavings(weights, scores) == Sum(p)
  {
    if p != [] {
      assert WeighedSavings(weights[1..], scores[1..], p[1..]);
      WeightedSavingsAre(weights[1..], scores[1..], p[1..]);
      assert Times(weights[0], scores[0].relativeSavings) == p[0];
    }
  }

  /** A hundred times the weighed savings, shrunk by the square of the share of the trials
      that did not time out. */
  ghost predicate Pays(reward: real, savings: real, timeouts: nat, trials: nat)
    requires trials > 0
  {
    var kept := 1.0 - timeouts as real / trials as real;
    reward == 100.0 * savings * (kept * kept)
  }

  /** What a scored benchmark pays: `k` timeouts among `n` trials cost the square of
      their share. */
  lemma RewardMeans(e: Evidence, policy: BenchmarkPolicy, fn: Analysis, p: seq<real>)
    requires Scorable(e, policy, fn) && SoundBenchmark(e, policy) && SoundCandidate(e, policy)
    requires WeighedSavings(policy.horizonWeights, Score(e, policy, fn).horizons, p)
    ensures var s := Score(e, policy, fn);
            && Pays(s.reward, Sum(p), |TimedOut(e.trials)|, |e.trials|)
            && s.timeoutRate == |TimedOut(e.trials)| as real / |e.trials| as real
            && s.storageRatio == e.artifactStorage as real / e.databaseBytes as real
            && s.workerId == Some(e.trials[0].workerId)
            && s.failureCode == if s.reward > 0.0 then None else Some(NoRelativeImprovement)
  {
    RefusalMeans(e, policy);
    PassedGates(e, policy);
    ScoreIs(e, policy, fn);
    var scores := HorizonScores(e, policy.horizons, policy, fn);
    var w := policy.horizonWeights;
    assert Score(e, policy, fn).horizons == scores;
    assert Score(e, policy, fn).reward == RewardOf(e, w, scores);
    WeightedSavingsAre(w, scores, p);
    RewardIs(e, w, scores);
    hide Score, Refusal, SoundBenchmark, SoundCandidate, RewardOf, Pays, Completed;
  }

  lemma TimeoutRateIs(trials: seq<Trial>)
    requires trials != []
    ensures TimeoutRateOf(trials) == |TimedOut(trials)| as real / |trials| as real
  {
    CompletedCount(trials);
    assert |trials| - |Completed(trials)| == |TimedOut(trials)|;
    hide Completed, TimedOut;
  }

  lemma RewardIs(e: Evidence, weights: seq<real>, scores: seq<HorizonScore>)
    requires e.trials != [] && |weights| == |scores|
    ensures TimeoutRateOf(e.trials) == |TimedOut(e.trials)| as real / |e.trials| as real
    ensures Pays(RewardOf(e, weights, scores), WeightedSavings(weights, scores), |TimedOut(e.trials)|, |e.trials|)
  {
    TimeoutRateIs(e.trials);
    var rate, savings := TimeoutRateOf(e.trials), WeightedSavings(weights, scores);
    assert RewardOf(e, weights, scores) == Times(Times(100.0, savings), Times(1.0 - rate, 1.0 - rate));
    hide WeightedSavings, TimeoutRateOf, TimedOut, RewardOf, Times, Pays;
    ProductsAre(savings, rate, |TimedOut(e.trials)|, |e.trials|);
  }

  lemma ProductsAre(savings: real, rate: real, timeouts: nat, trials: nat)
    requires trials > 0 && rate == timeouts as real / trials as real
    ensures Pays(Times(Times(100.0, savings), Times(1.0 - rate, 1.0 - rate)), savings, timeouts, trials)
  {
  }

  // ----- the failures --------------------------------------------------------

  ghost predicate OneWorkerOnly(trials: seq<Trial>) {
    forall s, t :: s in trials && t in trials ==> s.workerId == t.workerId
  }

  ghost predicate BaselinesFinish(trials: seq<Trial>) {
    forall t :: t in trials ==> !t.baselineTimedOut
  }

  /** The failure of an unpaid benchmark, by what is wrong with it. */
  ghost predicate FailsWith(e: Evidence, policy: BenchmarkPolicy, code: BenchmarkFailure) {
    var n, k, trials := |e.trials|, |TimedOut(e.trials)|, e.trials;
    var enough, oneWorker := n >= policy.minimumTrials, OneWorkerOnly(trials);
    var sound := enough && oneWorker && Interleaved(trials) && BaselinesFinish(trials);
    var obeys := sound && e.correct && e.compliant;
    var timely := n > 0 && k as real / n as real <= policy.maximumTimeoutRate;
    match code
    case InsufficientTrials => !enough
    case MixedWorkers => enough && !oneWorker
    case UnbalancedInterleaving => enough && oneWorker && !Interleaved(trials)
    case BaselineTimeout => enough && oneWorker && Interleaved(trials) && !BaselinesFinish(trials)
    case ResultMismatch => sound && !e.correct
    case PolicyRejected => sound && e.correct && !e.compliant
    case TimeoutRate => obeys && !timely
    case CandidateTimeout => obeys && timely && n - k < 2
    case TimeoutOrderImbalance => obeys && timely && n - k >= 2 && !Interleaved(Completed(trials))
    case NoRelativeImprovement => obeys && timely && n - k >= 2 && Interleaved(Completed(trials))
  }

  /** A benchmark that is not paid names its failure, and the code is the first one in the
      order of the checks. */
  lemma FailureMeans(e: Evidence, policy: BenchmarkPolicy, fn: Analysis)
    requires Scorable(e, policy, fn) && Score(e, policy, fn).reward <= 0.0
    ensures Score(e, policy, fn).failureCode.Some?
    ensures FailsWith(e, policy, Score(e, policy, fn).failureCode.value)
  {
    RewardPositiveIff(e, policy, fn);
    ScanMeans(e, policy);
    if Refusal(e, policy).None? {
      NoImprovement(e, policy, fn);
    } else {
      RefusedIs(e, policy, fn);
    }
  }

  lemma NoImprovement(e: Evidence, policy: BenchmarkPolicy, fn: Analysis)
    requires Scorable(e, policy, fn) && Refusal(e, policy).None? && Score(e, policy, fn).reward <= 0.0
    ensures Score(e, policy, fn).failureCode == Some(NoRelativeImprovement)
  {
    hide Refusal, RewardOf, HorizonScores;
    ScoreIs(e, policy, fn);
  }

  lemma ScansMean(trials: seq<Trial>)
    requires trials != []
    ensures (exists t :: t in trials && t.workerId != trials[0].workerId) <==> !OneWorkerOnly(trials)
    ensures (exists t :: t in trials && t.baselineTimedOut) <==> !BaselinesFinish(trials)
  {
    OneWorker(trials);
  }

  /** The outcome of the checks names the failure, and passing them all leaves only
      one. */
  lemma ScanMeans(e: Evidence, policy: BenchmarkPolicy)
    requires e.Valid() && policy.Valid()
    ensures Refusal(e, policy).Some? ==> Refusal(e, policy).value.failureCode.Some?
    ensures FailsWith(e, policy, if Refusal(e, policy).Some? then Refusal(e, policy).value.failureCode.value
                                 else NoRelativeImprovement)
  {
    CompletedCount(e.trials);
    BalancedIs(e.trials);
    BalancedIs(Completed(e.trials));
    hide Completed, Balanced, Interleaved, TimedOut, StorageRatio, TimeoutRateOf, OneWorkerOnly, BaselinesFinish;
    if e.trials != [] {
      ScansMean(e.trials);
      TimeoutRateIs(e.trials);
    }
  }
}
