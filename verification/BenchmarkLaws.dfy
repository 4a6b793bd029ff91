/** What a benchmark score means: hardware speed cancels, a lucky minority earns
    nothing, and the reward is positive exactly when some weighted horizon has a
    positive lower confidence bound. */
module BenchmarkLaws {
  import opened Statistics
  import opened Wrappers
  import opened Benchmark

  // ----- hardware scale ------------------------------------------------------

  /** The same trial on a machine that is `c` times slower. */
  function Slower(c: real, t: Trial): Trial {
    t.(baselineCold := Times(c, t.baselineCold), candidateCold := Times(c, t.candidateCold),
       baselineWarm := Times(c, t.baselineWarm), candidateWarm := Times(c, t.candidateWarm))
  }

  function SlowerAll(c: real, trials: seq<Trial>): (r: seq<Trial>)
    ensures |r| == |trials|
    ensures forall i :: 0 <= i < |r| ==> r[i] == Slower(c, trials[i])
  {
    if trials == [] then [] else [Slower(c, trials[0])] + SlowerAll(c, trials[1..])
  }

  function SlowerEvidence(c: real, e: Evidence): Evidence {
    e.(setup := Times(c, e.setup), trials := SlowerAll(c, e.trials))
  }

  lemma SlowerValid(c: real, t: Trial)
    requires c > 0.0 && t.Valid()
    ensures Slower(c, t).Valid()
  {
    ProductNonNegative(c, t.baselineCold);
    ProductNonNegative(c, t.candidateCold);
    ProductNonNegative(c, t.baselineWarm);
    ProductNonNegative(c, t.candidateWarm);
  }

  lemma SlowerAllValid(c: real, trials: seq<Trial>)
    requires c > 0.0 && forall t :: t in trials ==> t.Valid()
    ensures forall t :: t in SlowerAll(c, trials) ==> t.Valid()
  {
    var s := SlowerAll(c, trials);
    forall t | t in s ensures t.Valid() {
      var i :| 0 <= i < |s| && s[i] == t;
      assert trials[i] in trials;
      SlowerValid(c, trials[i]);
    }
  }

  lemma SlowerEvidenceValid(c: real, e: Evidence)
    requires c > 0.0 && e.Valid()
    ensures SlowerEvidence(c, e).Valid()
  {
    SlowerAllValid(c, e.trials);
    ProductNonNegative(c, e.setup);
  }

  lemma {:induction false} CountOrderSlower(c: real, trials: seq<Trial>, order: ExecutionOrder)
    ensures CountOrder(SlowerAll(c, trials), order) == CountOrder(trials, order)
  {
    if trials != [] { CountOrderSlower(c, trials[1..], order); }
  }

  lemma {:induction false} CompletedSlower(c: real, trials: seq<Trial>)
    ensures Completed(SlowerAll(c, trials)) == SlowerAll(c, Completed(trials))
  {
    if trials != [] { CompletedSlower(c, trials[1..]); }
  }

  lemma BalancedSlower(c: real, trials: seq<Trial>)
    ensures Balanced(SlowerAll(c, trials)) == Balanced(trials)
  {
    CountOrderSlower(c, trials, BaselineFirst);
    CountOrderSlower(c, trials, CandidateFirst);
  }

  lemma FlagsSlower(c: real, trials: seq<Trial>)
    requires trials != []
    ensures var s := SlowerAll(c, trials);
            && s[0].workerId == trials[0].workerId
            && ((exists t :: t in s && t.workerId != s[0].workerId)
                <==> (exists t :: t in trials && t.workerId != trials[0].workerId))
            && ((exists t :: t in s && t.baselineTimedOut) <==> (exists t :: t in trials && t.baselineTimedOut))
  {
    var s := SlowerAll(c, trials);
    var id := trials[0].workerId;
    if t :| t in trials && t.workerId != id {
      var i :| 0 <= i < |trials| && trials[i] == t;
      assert s[i] in s && s[i].workerId != id;
    }
    if t :| t in s && t.workerId != id {
      var i :| 0 <= i < |s| && s[i] == t;
      assert trials[i] in trials && trials[i].workerId != id;
    }
    if t :| t in trials && t.baselineTimedOut {
      var i :| 0 <= i < |trials| && trials[i] == t;
      assert s[i] in s && s[i].baselineTimedOut;
    }
    if t :| t in s && t.baselineTimedOut {
      var i :| 0 <= i < |s| && s[i] == t;
      assert trials[i] in trials && trials[i].baselineTimedOut;
    }
  }

  lemma TimeoutsSlower(c: real, trials: seq<Trial>)
    requires trials != []
    ensures TimeoutRateOf(SlowerAll(c, trials)) == TimeoutRateOf(trials)
  {
    hide Completed, Over, Slower;
    CompletedSlower(c, trials);
    assert |Completed(SlowerAll(c, trials))| == |Completed(trials)|;
  }

  lemma RefusalSlower(c: real, e: Evidence, policy: BenchmarkPolicy)
    requires c > 0.0 && e.Valid() && policy.Valid()
    ensures SlowerEvidence(c, e).Valid()
    ensures Refusal(SlowerEvidence(c, e), policy) == Refusal(e, policy)
  {
    hide Balanced, TimeoutRateOf, Completed, StorageRatio, SlowerAll;
    SlowerEvidenceValid(c, e);
    assert StorageRatio(SlowerEvidence(c, e)) == StorageRatio(e) by { RatioSlower(c, e); }
    if e.trials != [] {
      FlagsSlower(c, e.trials);
      TimeoutsSlower(c, e.trials);
      BalancedSlower(c, e.trials);
      CompletedSlower(c, e.trials);
      BalancedSlower(c, Completed(e.trials));
    }
  }

  lemma RatioSlower(c: real, e: Evidence)
    requires e.Valid() && SlowerEvidence(c, e).Valid()
    ensures StorageRatio(SlowerEvidence(c, e)) == StorageRatio(e)
  {
  }

  lemma RepeatedSlower(c: real, cold: real, warm: real, horizon: nat)
    requires c > 0.0 && cold > 0.0 && warm > 0.0 && horizon >= 1
    ensures Times(c, cold) > 0.0 && Times(c, warm) > 0.0
    ensures Repeated(Times(c, cold), Times(c, warm), horizon) == Times(c, Repeated(cold, warm, horizon))
  {
    var n := (horizon - 1) as real;
    ProductNonNegative(c, cold);
    ProductNonNegative(c, warm);
    TimesCommute(n, c, warm);
    TimesSum(c, cold, Times(n, warm));
  }

  lemma LogSpeedupSlower(c: real, t: Trial, setup: real, horizon: nat, multiplier: real, fn: Analysis)
    requires c > 0.0 && t.Valid() && horizon >= 1 && setup >= 0.0 && multiplier >= 1.0
    ensures Slower(c, t).Valid() && Times(c, setup) >= 0.0
    ensures LogSpeedup(Slower(c, t), Times(c, setup), horizon, multiplier, fn)
         == LogSpeedup(t, setup, horizon, multiplier, fn)
  {
    SlowerValid(c, t);
    ProductNonNegative(c, setup);
    var plain := setup + Repeated(t.candidateCold, t.candidateWarm, horizon);
    RepeatedSlower(c, t.baselineCold, t.baselineWarm, horizon);
    RepeatedSlower(c, t.candidateCold, t.candidateWarm, horizon);
    TimesSum(c, setup, Repeated(t.candidateCold, t.candidateWarm, horizon));
    MarkedUp(c, plain, multiplier);
    RatioCancels(c, BaselineTotal(t, horizon), CandidateTotal(t, setup, horizon, multiplier));
    hide Times, Over, Repeated;
  }

  lemma MarkedUp(c: real, x: real, multiplier: real)
    ensures Times(Times(c, x), multiplier) == Times(c, Times(x, multiplier))
  {
    assert (c * x) * multiplier == c * (x * multiplier);
  }

  lemma {:induction false} LogSpeedupsSlower(
      c: real, trials: seq<Trial>, setup: real, horizon: nat, multiplier: real, fn: Analysis)
    requires c > 0.0 && horizon >= 1 && setup >= 0.0 && multiplier >= 1.0
    requires forall t :: t in trials ==> t.Valid()
    ensures (forall t :: t in SlowerAll(c, trials) ==> t.Valid()) && Times(c, setup) >= 0.0
    ensures LogSpeedups(SlowerAll(c, trials), Times(c, setup), horizon, multiplier, fn)
         == LogSpeedups(trials, setup, horizon, multiplier, fn)
  {
    hide LogSpeedup, Slower, Times;
    SlowerAllValid(c, trials);
    ProductNonNegative(c, setup);
    if trials != [] {
      assert trials[0] in trials;
      LogSpeedupsSlower(c, trials[1..], setup, horizon, multiplier, fn);
      LogSpeedupSlower(c, trials[0], setup, horizon, multiplier, fn);
      assert SlowerAll(c, trials)[1..] == SlowerAll(c, trials[1..]);
    }
  }

  lemma MultiplierSlower(c: real, e: Evidence, policy: BenchmarkPolicy)
    requires e.Valid() && policy.Valid() && SlowerEvidence(c, e).Valid()
    ensures StorageMultiplier(SlowerEvidence(c, e), policy) == StorageMultiplier(e, policy)
  {
  }

  lemma HorizonSlower(c: real, e: Evidence, horizon: nat, policy: BenchmarkPolicy, fn: Analysis)
    requires c > 0.0 && Scorable(e, policy, fn) && Completed(e.trials) != [] && horizon >= 1
    ensures Scorable(SlowerEvidence(c, e), policy, fn) && Completed(SlowerEvidence(c, e).trials) != []
    ensures HorizonOf(SlowerEvidence(c, e), horizon, policy, fn) == HorizonOf(e, horizon, policy, fn)
  {
    SlowerEvidenceValid(c, e);
    CompletedSlower(c, e.trials);
    MultiplierSlower(c, e, policy);
    hide ScoreHorizon, StorageMultiplier;
    LogSpeedupsSlower(c, Completed(e.trials), e.setup, horizon, StorageMultiplier(e, policy), fn);
  }

  lemma ScoresSlower(c: real, e: Evidence, policy: BenchmarkPolicy, fn: Analysis)
    requires c > 0.0 && Scorable(e, policy, fn) && Completed(e.trials) != []
    ensures Scorable(SlowerEvidence(c, e), policy, fn) && Completed(SlowerEvidence(c, e).trials) != []
    ensures HorizonScores(SlowerEvidence(c, e), policy.horizons, policy, fn)
         == HorizonScores(e, policy.horizons, policy, fn)
  {
    var horizons := policy.horizons;
    assert forall i :: 0 <= i < |horizons| ==> horizons[i] >= 1;
    assert Scorable(SlowerEvidence(c, e), policy, fn) && Completed(SlowerEvidence(c, e).trials) != [] by {
      SlowerEvidenceValid(c, e);
      CompletedSlower(c, e.trials);
    }
    hide *;
    HorizonScoresAt(e, horizons, policy, fn);
    HorizonScoresAt(SlowerEvidence(c, e), horizons, policy, fn);
    forall i | 0 <= i < |horizons|
      ensures HorizonOf(SlowerEvidence(c, e), horizons[i], policy, fn) == HorizonOf(e, horizons[i], policy, fn)
    {
      HorizonSlower(c, e, horizons[i], policy, fn);
    }
  }

  /** Multiplying every timing and the setup time by `c` changes nothing at all. */
  lemma HardwareSpeedCancels(c: real, e: Evidence, policy: BenchmarkPolicy, fn: Analysis)
    requires c > 0.0 && Scorable(e, policy, fn)
    ensures Scorable(SlowerEvidence(c, e), policy, fn)
    ensures Score(SlowerEvidence(c, e), policy, fn) == Score(e, policy, fn)
  {
    SlowerEvidenceValid(c, e);
    hide *;
    RefusalSlower(c, e, policy);
    SlowerScorable(c, e, policy, fn);
    if Refusal(e, policy).None? {
      PassedGates(e, policy);
      ScoresSlower(c, e, policy, fn);
      ScoreIs(e, policy, fn);
      ScoreIs(SlowerEvidence(c, e), policy, fn);
      VerdictSlower(c, e, policy, HorizonScores(e, policy.horizons, policy, fn));
    } else {
      RefusedIs(e, policy, fn);
      RefusedIs(SlowerEvidence(c, e), policy, fn);
    }
  }

  lemma SlowerScorable(c: real, e: Evidence, policy: BenchmarkPolicy, fn: Analysis)
    requires Scorable(e, policy, fn) && SlowerEvidence(c, e).Valid()
    ensures Scorable(SlowerEvidence(c, e), policy, fn)
  {
  }

  lemma VerdictSlower(c: real, e: Evidence, policy: BenchmarkPolicy, scores: seq<HorizonScore>)
    requires e.Valid() && e.trials != [] && SlowerEvidence(c, e).Valid() && |scores| == |policy.horizonWeights|
    ensures SlowerEvidence(c, e).trials != []
    ensures RewardOf(SlowerEvidence(c, e), policy.horizonWeights, scores) == RewardOf(e, policy.horizonWeights, scores)
    ensures var reward := RewardOf(e, policy.horizonWeights, scores);
            Verdict(SlowerEvidence(c, e), reward, scores) == Verdict(e, reward, scores)
  {
    hide Times, WeightedSavings, TimeoutRateOf, StorageRatio;
    TimeoutsSlower(c, e.trials);
    RatioSlower(c, e);
  }

  // ----- when the reward is positive -----------------------------------------

  /** `lower_bound > 0` at one horizon. */
  ghost predicate Improves(e: Evidence, horizon: nat, policy: BenchmarkPolicy, fn: Analysis)
    requires Scorable(e, policy, fn) && Completed(e.trials) != [] && horizon >= 1
  {
    LowerLog(LogSpeedups(Completed(e.trials), e.setup, horizon, StorageMultiplier(e, policy), fn), policy, fn) > 0.0
  }

  lemma SavingsPositive(lower: real)
    requires lower > 0.0
    ensures Savings(lower) > 0.0 <==> lower > 1.0
  {
  }

  lemma HorizonImproves(e: Evidence, horizon: nat, policy: BenchmarkPolicy, fn: Analysis)
    requires Scorable(e, policy, fn) && Completed(e.trials) != [] && horizon >= 1
    ensures 0.0 <= HorizonOf(e, horizon, policy, fn).relativeSavings <= 1.0
    ensures HorizonOf(e, horizon, policy, fn).relativeSavings > 0.0 <==> Improves(e, horizon, policy, fn)
  {
    var v := LogSpeedups(Completed(e.trials), e.setup, horizon, StorageMultiplier(e, policy), fn);
    SavingsPositive(fn.pow2(LowerLog(v, policy, fn)));
  }

  lemma {:induction false} WeightedSavingsSign(weights: seq<real>, scores: seq<HorizonScore>)
    requires |weights| == |scores|
    requires forall i :: 0 <= i < |weights| ==> weights[i] >= 0.0 && 0.0 <= scores[i].relativeSavings <= 1.0
    ensures 0.0 <= WeightedSavings(weights, scores) <= Sum(weights)
    ensures WeightedSavings(weights, scores) > 0.0 <==>
            exists i :: 0 <= i < |weights| && weights[i] > 0.0 && scores[i].relativeSavings > 0.0
  {
    hide Times;
    if weights != [] {
      var w, s := weights[0], scores[0].relativeSavings;
      WeightedSavingsSign(weights[1..], scores[1..]);
      ProductNonNegative(w, s);
      Fraction(w, s);
      Shifted(weights, scores);
    }
  }

  lemma Fraction(w: real, s: real)
    requires w >= 0.0 && 0.0 <= s <= 1.0
    ensures Times(w, s) <= w
    ensures w == 0.0 || s == 0.0 ==> Times(w, s) == 0.0
  {
    assert w * (1.0 - s) >= 0.0;
  }

  lemma Shifted(weights: seq<real>, scores: seq<HorizonScore>)
    requires |weights| == |scores| && weights != []
    ensures (exists i :: 0 <= i < |weights| && weights[i] > 0.0 && scores[i].relativeSavings > 0.0)
        <==> || (weights[0] > 0.0 && scores[0].relativeSavings > 0.0)
             || (exists i :: 0 <= i < |weights[1..]| && weights[1..][i] > 0.0 && scores[1..][i].relativeSavings > 0.0)
  {
    forall i | 0 < i < |weights|
      ensures weights[i] == weights[1..][i - 1] && scores[i] == scores[1..][i - 1]
    {}
  }

  lemma RateBelowOne(e: Evidence, policy: BenchmarkPolicy)
    requires e.Valid() && policy.Valid() && Refusal(e, policy).None?
    ensures 0.0 < Reliability(e) <= 1.0
  {
    var q, n := (|e.trials| - |Completed(e.trials)|) as real, |e.trials| as real;
    var r := TimeoutRateOf(e.trials);
    assert 0.0 <= Over(q, n);
    assert 0.0 <= r < 1.0;
    hide *;
    SquareWithin(1.0 - r);
    ReliabilityIs(e);
  }

  lemma ReliabilityIs(e: Evidence)
    requires e.trials != []
    ensures Reliability(e) == Times(1.0 - TimeoutRateOf(e.trials), 1.0 - TimeoutRateOf(e.trials))
  {
  }

  lemma SquareWithin(x: real)
    requires 0.0 < x <= 1.0
    ensures 0.0 < Times(x, x) <= 1.0
  {
    ProductNonNegative(x, x);
    Fraction(x, x);
  }

  lemma RewardSign(savings: real, top: real, reliability: real)
    requires 0.0 <= savings <= top && 0.0 < reliability <= 1.0
    ensures 0.0 <= Times(Times(100.0, savings), reliability) <= Times(100.0, top)
    ensures Times(Times(100.0, savings), reliability) > 0.0 <==> savings > 0.0
  {
    var x := Times(100.0, savings);
    assert x >= 0.0 && (x > 0.0 <==> savings > 0.0);
    ProductNonNegative(x, reliability);
    Fraction(x, reliability);
    assert savings == 0.0 ==> Times(x, reliability) == 0.0;
  }

  /** A scored benchmark pays between nothing and a hundred times the sum of the horizon
      weights, and pays at all exactly when it improves some horizon that has weight. */
  lemma RewardPositiveIff(e: Evidence, policy: BenchmarkPolicy, fn: Analysis)
    requires Scorable(e, policy, fn)
    ensures var s := Score(e, policy, fn);
            && 0.0 <= s.reward <= Times(100.0, Sum(policy.horizonWeights))
            && (s.eligible <==> s.reward > 0.0)
            && (s.eligible <==> s.failureCode.None?)
            && (s.eligible ==> s.benchmarkValid)
            && (s.reward > 0.0 <==>
                  Refusal(e, policy).None?
                  && exists i :: 0 <= i < |policy.horizons| && policy.horizonWeights[i] > 0.0
                                 && Improves(e, policy.horizons[i], policy, fn))
  {
    var weights, horizons := policy.horizonWeights, policy.horizons;
    if Refusal(e, policy).None? {
      PassedGates(e, policy);
      PositiveScored(e, policy, fn);
    } else {
      RefusedPaysNothing(e, policy);
      RefusedIs(e, policy, fn);
      WeightsNonNegative(weights);
    }
  }

  lemma RefusedPaysNothing(e: Evidence, policy: BenchmarkPolicy)
    requires e.Valid() && policy.Valid() && Refusal(e, policy).Some?
    ensures var s := Refusal(e, policy).value; s.reward == 0.0 && !s.eligible && s.failureCode.Some?
  {
  }

  lemma PositiveScored(e: Evidence, policy: BenchmarkPolicy, fn: Analysis)
    requires Scorable(e, policy, fn) && Refusal(e, policy).None? && Completed(e.trials) != []
    ensures var s := Score(e, policy, fn);
            && 0.0 <= s.reward <= Times(100.0, Sum(policy.horizonWeights))
            && s.eligible == (s.reward > 0.0) && s.eligible == s.failureCode.None? && s.benchmarkValid
            && (s.reward > 0.0 <==>
                  exists i :: 0 <= i < |policy.horizons| && policy.horizonWeights[i] > 0.0
                              && Improves(e, policy.horizons[i], policy, fn))
  {
    var weights, horizons := policy.horizonWeights, policy.horizons;
    assert |weights| == |horizons| && forall i :: 0 <= i < |weights| ==> weights[i] >= 0.0;
    var scores := HorizonScores(e, horizons, policy, fn);
    HorizonScoresAt(e, horizons, policy, fn);
    hide *;
    ScoreIs(e, policy, fn);
    RateBelowOne(e, policy);
    forall i | 0 <= i < |horizons|
      ensures horizons[i] >= 1 && 0.0 <= scores[i].relativeSavings <= 1.0
      ensures scores[i].relativeSavings > 0.0 <==> Improves(e, horizons[i], policy, fn)
    {
      PositiveHorizon(policy, i);
      HorizonImproves(e, horizons[i], policy, fn);
    }
    WeightedSavingsSign(weights, scores);
    RewardSign(WeightedSavings(weights, scores), Sum(weights), Reliability(e));
    VerdictFlags(e, RewardOf(e, weights, scores), scores, weights);
  }

  lemma VerdictFlags(e: Evidence, reward: real, scores: seq<HorizonScore>, weights: seq<real>)
    requires e.Valid() && e.trials != [] && |weights| == |scores|
    ensures var s := Verdict(e, reward, scores);
            && s.reward == reward
            && s.eligible == (reward > 0.0) && s.eligible == s.failureCode.None? && s.benchmarkValid
    ensures RewardOf(e, weights, scores) == Times(Times(100.0, WeightedSavings(weights, scores)), Reliability(e))
  {
  }

  lemma {:induction false} WeightsNonNegative(weights: seq<real>)
    requires forall i :: 0 <= i < |weights| ==> weights[i] >= 0.0
    ensures Sum(weights) >= 0.0
    ensures Times(100.0, Sum(weights)) >= 0.0
  {
    if weights != [] { WeightsNonNegative(weights[1..]); }
  }

  // ----- a lucky minority ----------------------------------------------------

  /** How many completed trials beat the baseline at one horizon. */
  ghost function Lucky(trials: seq<Trial>, setup: real, horizon: nat, multiplier: real): nat
    requires horizon >= 1 && setup >= 0.0 && multiplier >= 1.0
    requires forall t :: t in trials ==> t.Valid()
  {
    if trials == [] then 0
    else
      assert trials[0] in trials;
      (if BaselineTotal(trials[0], horizon) > CandidateTotal(trials[0], setup, horizon, multiplier) then 1 else 0)
      + Lucky(trials[1..], setup, horizon, multiplier)
  }

  lemma RatioAtMostOne(x: real, y: real)
    requires 0.0 < x <= y
    ensures 0.0 < Over(x, y) <= 1.0
  {
  }

  lemma {:induction false} LuckyBounds(trials: seq<Trial>, setup: real, horizon: nat, multiplier: real, fn: Analysis)
    requires horizon >= 1 && setup >= 0.0 && multiplier >= 1.0 && fn.BinaryLaws()
    requires forall t :: t in trials ==> t.Valid()
    ensures CountAbove(LogSpeedups(trials, setup, horizon, multiplier, fn), 0.0)
         <= Lucky(trials, setup, horizon, multiplier)
  {
    if trials != [] {
      var t := trials[0];
      assert t in trials;
      LuckyBounds(trials[1..], setup, horizon, multiplier, fn);
      var b, k := BaselineTotal(t, horizon), CandidateTotal(t, setup, horizon, multiplier);
      if b <= k { RatioAtMostOne(b, k); }
    }
  }

  lemma LuckyHorizon(e: Evidence, horizon: nat, policy: BenchmarkPolicy, fn: Analysis)
    requires Scorable(e, policy, fn) && Completed(e.trials) != [] && horizon >= 1
    requires Lucky(Completed(e.trials), e.setup, horizon, StorageMultiplier(e, policy))
          <= Width(|Completed(e.trials)|, policy.winsorFraction, 1)
    ensures !Improves(e, horizon, policy, fn)
  {
    var m := StorageMultiplier(e, policy);
    LuckyBounds(Completed(e.trials), e.setup, horizon, m, fn);
    var v := LogSpeedups(Completed(e.trials), e.setup, horizon, m, fn);
    hide WinsorizedMean, Width, Lucky, LogSpeedups, CountAbove, RobustStandardError, StorageMultiplier;
    WinsorizedMeanBounds(v, policy.winsorFraction, 1, 0.0, 0.0);
    RobustStandardErrorNonNegative(v, fn);
    ProductNonNegative(policy.confidenceZ, RobustStandardError(v, fn));
  }

  /** When at every horizon no more completed trials beat the baseline than the
      winsorisation replaces at the top, the candidate earns exactly nothing. */
  lemma LuckyMinorityEarnsNothing(e: Evidence, policy: BenchmarkPolicy, fn: Analysis)
    requires Scorable(e, policy, fn)
    requires Refusal(e, policy).None? ==>
               Completed(e.trials) != []
               && forall i :: 0 <= i < |policy.horizons| ==>
                    Lucky(Completed(e.trials), e.setup, policy.horizons[i], StorageMultiplier(e, policy))
                    <= Width(|Completed(e.trials)|, policy.winsorFraction, 1)
    ensures Score(e, policy, fn).reward == 0.0 && !Score(e, policy, fn).eligible
  {
    RewardPositiveIff(e, policy, fn);
    if Refusal(e, policy).None? {
      hide Score, Refusal, Improves, Lucky, StorageMultiplier, Width;
      forall i | 0 <= i < |policy.horizons| ensures !Improves(e, policy.horizons[i], policy, fn) {
        LuckyHorizon(e, policy.horizons[i], policy, fn);
      }
    }
  }

  // ----- what the gates mean -------------------------------------------------

  /** The validator's side of a benchmark is sound: enough trials, one worker, both
      execution orders in balance, no baseline timeout. */
  ghost predicate SoundBenchmark(e: Evidence, policy: BenchmarkPolicy) {
    && |e.trials| >= policy.minimumTrials
    && (forall s, t :: s in e.trials && t in e.trials ==> s.workerId == t.workerId)
    && Balanced(e.trials)
    && (forall t :: t in e.trials ==> !t.baselineTimedOut)
  }

  /** The candidate did what a paid candidate must do. */
  ghost predicate SoundCandidate(e: Evidence, policy: BenchmarkPolicy) {
    && e.correct && e.compliant
    && e.trials != [] && TimeoutRateOf(e.trials) <= policy.maximumTimeoutRate
    && |Completed(e.trials)| >= 2 && Balanced(Completed(e.trials))
  }

  lemma OneWorker(trials: seq<Trial>)
    requires trials != []
    ensures (exists t :: t in trials && t.workerId != trials[0].workerId)
       <==> !(forall s, t :: s in trials && t in trials ==> s.workerId == t.workerId)
  {
    assert trials[0] in trials;
  }

  /** Failures on the validator's side, and only those, invalidate the benchmark; failures
      of the candidate are a valid zero; whatever the order of the checks, payment needs
      both sides sound. */
  lemma GatesMean(e: Evidence, policy: BenchmarkPolicy, fn: Analysis)
    requires Scorable(e, policy, fn)
    ensures Score(e, policy, fn).benchmarkValid <==> SoundBenchmark(e, policy)
    ensures Refusal(e, policy).None? <==> SoundBenchmark(e, policy) && SoundCandidate(e, policy)
    ensures Refusal(e, policy).Some? ==> Score(e, policy, fn).reward == 0.0 && !Score(e, policy, fn).eligible
  {
    RefusalMeans(e, policy);
    hide Refusal, Score, SoundBenchmark, SoundCandidate;
    if Refusal(e, policy).None? {
      PositiveScored(e, policy, fn) by { PassedGates(e, policy); }
    } else {
      RefusedIs(e, policy, fn);
      RefusedPaysNothing(e, policy);
    }
  }

  lemma RefusalMeans(e: Evidence, policy: BenchmarkPolicy)
    requires e.Valid() && policy.Valid()
    ensures Refusal(e, policy).None? <==> SoundBenchmark(e, policy) && SoundCandidate(e, policy)
    ensures Refusal(e, policy).Some? ==>
              (Refusal(e, policy).value.benchmarkValid <==> SoundBenchmark(e, policy))
  {
    hide Balanced, TimeoutRateOf, StorageRatio, Completed;
    if e.trials != [] { OneWorker(e.trials); }
  }
}
