/** What a larger setup does to a benchmark (planrace/scoring_v2.py:296-334). It never
    raises the reported speedup of a horizon. But it can raise the reward, because it can
    bring the samples together and so shrink the margin that is subtracted for confidence:
    a larger setup never raises the reward of any candidate exactly when the policy's
    confidence factor is zero. */
module SetupCosts {
  import opened Statistics
  import opened StatisticsMeaning
  import opened Benchmark
  import opened BenchmarkLaws
  import opened BenchmarkMeaning

  // ----- logarithms ----------------------------------------------------------

  lemma Growth(p: real, q: real)
    requires p > 0.0 && q > 1.0
    ensures p < Times(p, q)
  {
    assert p * (q - 1.0) > 0.0;
  }

  lemma PowerIncreases(a: real, b: real, fn: Analysis)
    requires fn.PowerLaws() && a < b
    ensures 0.0 < fn.pow2(a) < fn.pow2(b)
  {
    assert Times(fn.pow2(a), fn.pow2(b - a)) == fn.pow2(a + (b - a));
    assert fn.pow2(b - a) > 1.0;
    Growth(fn.pow2(a), fn.pow2(b - a));
  }

  lemma LogIncreases(x: real, y: real, fn: Analysis)
    requires fn.PowerLaws() && 0.0 < x && 0.0 < y
    ensures x <= y <==> fn.log2(x) <= fn.log2(y)
    ensures x == y <==> fn.log2(x) == fn.log2(y)
  {
    if fn.log2(x) < fn.log2(y) {
      PowerIncreases(fn.log2(x), fn.log2(y), fn);
    } else if fn.log2(y) < fn.log2(x) {
      PowerIncreases(fn.log2(y), fn.log2(x), fn);
    }
  }

  lemma LogProduct(x: real, y: real, fn: Analysis)
    requires fn.PowerLaws() && x > 0.0 && y > 0.0
    ensures Times(x, y) > 0.0 && fn.log2(Times(x, y)) == fn.log2(x) + fn.log2(y)
  {
    var a, b, c := fn.log2(x), fn.log2(y), fn.log2(Times(x, y));
    ProductNonNegative(x, y);
    assert Times(fn.pow2(a), fn.pow2(b)) == fn.pow2(a + b) == fn.pow2(c);
    if a + b < c { PowerIncreases(a + b, c, fn); } else if c < a + b { PowerIncreases(c, a + b, fn); }
  }

  lemma LogOfOne(fn: Analysis)
    requires fn.PowerLaws()
    ensures fn.log2(1.0) == 0.0
  {
    LogProduct(1.0, 1.0, fn);
    assert Times(1.0, 1.0) == 1.0;
  }

  // ----- a larger setup slows every sample -----------------------------------

  lemma DearerQuotient(b: real, c: real, d: real)
    requires b > 0.0 && 0.0 < c <= d
    ensures 0.0 < Over(b, d) <= Over(b, c)
  {
    Quotients(Over(b, d), b, d);
    Quotients(Over(b, c), b, c);
    var x, y := Over(b, d), Over(b, c);
    assert x > 0.0 by { PositiveRatio(b, d); }
    ProductNonNegative(x, d - c);
    assert Times(x, d - c) == (y - x) * c;
    NonNegativeFactor(y - x, c);
  }

  lemma NonNegativeFactor(x: real, c: real)
    requires c > 0.0 && x * c >= 0.0
    ensures x >= 0.0
  {
  }

  lemma CostIncreases(t: Trial, setup: real, larger: real, horizon: nat, multiplier: real)
    requires t.Valid() && horizon >= 1 && 0.0 <= setup <= larger && multiplier >= 1.0
    ensures CandidateTotal(t, setup, horizon, multiplier) <= CandidateTotal(t, larger, horizon, multiplier)
  {
    var k := Repeated(t.candidateCold, t.candidateWarm, horizon);
    ProductNonNegative(larger - setup, multiplier);
    assert Times(larger + k, multiplier) - Times(setup + k, multiplier) == Times(larger - setup, multiplier);
  }

  lemma SampleDecreases(t: Trial, setup: real, larger: real, horizon: nat, multiplier: real, fn: Analysis)
    requires t.Valid() && horizon >= 1 && 0.0 <= setup <= larger && multiplier >= 1.0 && fn.PowerLaws()
    ensures LogSpeedup(t, larger, horizon, multiplier, fn) <= LogSpeedup(t, setup, horizon, multiplier, fn)
  {
    hide BaselineTotal, CandidateTotal, Over;
    var b := BaselineTotal(t, horizon);
    var c, d := CandidateTotal(t, setup, horizon, multiplier), CandidateTotal(t, larger, horizon, multiplier);
    CostIncreases(t, setup, larger, horizon, multiplier);
    DearerQuotient(b, c, d);
    DearerQuotient(b, d, d);
    LogIncreases(Over(b, d), Over(b, c), fn);
  }

  lemma SamplesDecrease(
      trials: seq<Trial>, setup: real, larger: real, horizon: nat, multiplier: real, fn: Analysis)
    requires horizon >= 1 && 0.0 <= setup <= larger && multiplier >= 1.0 && fn.PowerLaws()
    requires forall t :: t in trials ==> t.Valid()
    ensures Below(LogSpeedups(trials, larger, horizon, multiplier, fn),
                  LogSpeedups(trials, setup, horizon, multiplier, fn))
  {
    hide LogSpeedup, LogSpeedups;
    forall j | 0 <= j < |trials|
      ensures LogSpeedups(trials, larger, horizon, multiplier, fn)[j]
           <= LogSpeedups(trials, setup, horizon, multiplier, fn)[j]
    {
      LogSpeedupsAt(trials, larger, horizon, multiplier, fn, j);
      LogSpeedupsAt(trials, setup, horizon, multiplier, fn, j);
      SampleDecreases(trials[j], setup, larger, horizon, multiplier, fn);
    }
  }

  function WithSetup(e: Evidence, setup: real): Evidence { e.(setup := setup) }

  /** The samples of one horizon. */
  ghost function Samples(e: Evidence, horizon: nat, policy: BenchmarkPolicy, fn: Analysis): (v: seq<real>)
    requires e.Valid() && policy.Valid() && horizon >= 1
    ensures |v| == |Completed(e.trials)|
  {
    LogSpeedups(Completed(e.trials), e.setup, horizon, StorageMultiplier(e, policy), fn)
  }

  ghost predicate Analytic(policy: BenchmarkPolicy, fn: Analysis) {
    policy.Valid() && fn.PowerLaws() && fn.SquareRootLaws()
  }

  lemma RefusalIgnoresSetup(e: Evidence, setup: real, policy: BenchmarkPolicy)
    requires e.Valid() && policy.Valid() && setup >= 0.0
    ensures WithSetup(e, setup).Valid()
    ensures Refusal(WithSetup(e, setup), policy) == Refusal(e, policy)
    ensures StorageMultiplier(WithSetup(e, setup), policy) == StorageMultiplier(e, policy)
  {
    hide Completed, Balanced, TimeoutRateOf;
  }

  lemma CentersDecrease(e: Evidence, larger: real, horizon: nat, policy: BenchmarkPolicy, fn: Analysis)
    requires e.Valid() && Analytic(policy, fn) && horizon >= 1 && Completed(e.trials) != []
    requires e.setup <= larger && WithSetup(e, larger).Valid()
    ensures WinsorizedMean(Samples(WithSetup(e, larger), horizon, policy, fn), policy.winsorFraction, 1)
         <= WinsorizedMean(Samples(e, horizon, policy, fn), policy.winsorFraction, 1)
  {
    RefusalIgnoresSetup(e, larger, policy);
    SamplesDecrease(Completed(e.trials), e.setup, larger, horizon, StorageMultiplier(e, policy), fn);
    WinsorizedMeanMonotone(
      Samples(WithSetup(e, larger), horizon, policy, fn), Samples(e, horizon, policy, fn), policy.winsorFraction, 1);
  }

  lemma PowerMonotone(a: real, b: real, fn: Analysis)
    requires fn.PowerLaws() && a <= b
    ensures fn.pow2(a) <= fn.pow2(b)
  {
    if a < b { PowerIncreases(a, b, fn); }
  }

  lemma HorizonIsOf(e: Evidence, policy: BenchmarkPolicy, fn: Analysis, i: nat)
    requires e.Valid() && Analytic(policy, fn) && Refusal(e, policy).None? && i < |policy.horizons|
    ensures policy.horizons[i] >= 1 && Completed(e.trials) != []
    ensures |Score(e, policy, fn).horizons| == |policy.horizons|
    ensures Score(e, policy, fn).horizons[i]
         == ScoreHorizon(Samples(e, policy.horizons[i], policy, fn), policy.horizons[i], policy, fn)
  {
    PassedGates(e, policy);
    ScoreIs(e, policy, fn);
    HorizonScoresAt(e, policy.horizons, policy, fn);
    hide Refusal, Completed, ScoreHorizon, StorageMultiplier;
  }

  /** A larger setup never raises the reported speedup of a horizon. */
  lemma LargerSetupSlows(e: Evidence, larger: real, policy: BenchmarkPolicy, fn: Analysis, i: nat)
    requires e.Valid() && Analytic(policy, fn) && Refusal(e, policy).None? && i < |policy.horizons|
    requires e.setup <= larger
    ensures WithSetup(e, larger).Valid()
    ensures i < |Score(e, policy, fn).horizons| == |Score(WithSetup(e, larger), policy, fn).horizons|
    ensures Score(WithSetup(e, larger), policy, fn).horizons[i].relativeSpeedup
         <= Score(e, policy, fn).horizons[i].relativeSpeedup
  {
    RefusalIgnoresSetup(e, larger, policy);
    HorizonIsOf(e, policy, fn, i);
    HorizonIsOf(WithSetup(e, larger), policy, fn, i);
    hide Refusal, Score, Completed, Samples, WinsorizedMean;
    var h := policy.horizons[i];
    CentersDecrease(e, larger, h, policy, fn);
    PowerMonotone(WinsorizedMean(Samples(WithSetup(e, larger), h, policy, fn), policy.winsorFraction, 1),
                  WinsorizedMean(Samples(e, h, policy, fn), policy.winsorFraction, 1), fn);
  }

  // ----- what that does to the reward ----------------------------------------

  ghost predicate SavesAtMost(s: seq<HorizonScore>, t: seq<HorizonScore>) {
    |s| == |t| && forall i :: 0 <= i < |s| ==> s[i].relativeSavings <= t[i].relativeSavings
  }

  /** Some horizon with a weight saves more. */
  ghost predicate SomewhereLess(weights: seq<real>, s: seq<HorizonScore>, t: seq<HorizonScore>)
    requires |weights| == |s| == |t|
  {
    exists i :: 0 <= i < |s| && weights[i] > 0.0 && s[i].relativeSavings < t[i].relativeSavings
  }

  lemma {:induction false} WeightedSavingsMonotone(weights: seq<real>, s: seq<HorizonScore>, t: seq<HorizonScore>)
    requires |weights| == |s| && forall i :: 0 <= i < |weights| ==> weights[i] >= 0.0
    requires SavesAtMost(s, t)
    ensures WeightedSavings(weights, s) <= WeightedSavings(weights, t)
    ensures SomewhereLess(weights, s, t) ==> WeightedSavings(weights, s) < WeightedSavings(weights, t)
  {
    hide Times;
    if weights != [] {
      WeightedSavingsMonotone(weights[1..], s[1..], t[1..]);
      WeighedMonotone(weights[0], s[0].relativeSavings, t[0].relativeSavings);
      if i :| 0 < i < |s| && weights[i] > 0.0 && s[i].relativeSavings < t[i].relativeSavings {
        assert weights[1..][i - 1] > 0.0 && s[1..][i - 1].relativeSavings < t[1..][i - 1].relativeSavings;
      }
    }
  }

  lemma WeighedMonotone(w: real, x: real, y: real)
    requires w >= 0.0 && x <= y
    ensures Times(w, x) <= Times(w, y)
    ensures w > 0.0 && x < y ==> Times(w, x) < Times(w, y)
  {
    ProductNonNegative(w, y - x);
    assert Times(w, y) == Times(w, x) + Times(w, y - x);
  }

  lemma SavingsMonotone(x: real, y: real)
    requires 0.0 < x <= y
    ensures Savings(x) <= Savings(y)
    ensures 1.0 < x < y ==> Savings(x) < Savings(y)
  {
    DearerQuotient(1.0, x, y);
    Quotients(Over(1.0, x), 1.0, x);
    Quotients(Over(1.0, y), 1.0, y);
    if Over(1.0, x) == Over(1.0, y) { OverTimes(1.0, y); }
  }

  /** The lower confidence bound of one horizon, in base-two logarithms. */
  ghost function LowerOf(e: Evidence, horizon: nat, policy: BenchmarkPolicy, fn: Analysis): real
    requires e.Valid() && Analytic(policy, fn) && horizon >= 1 && Completed(e.trials) != []
  {
    LowerLog(Samples(e, horizon, policy, fn), policy, fn)
  }

  lemma SavingsReported(e: Evidence, policy: BenchmarkPolicy, fn: Analysis, i: nat)
    requires e.Valid() && Analytic(policy, fn) && Refusal(e, policy).None? && i < |policy.horizons|
    ensures policy.horizons[i] >= 1 && Completed(e.trials) != []
    ensures |Score(e, policy, fn).horizons| == |policy.horizons|
    ensures fn.pow2(LowerOf(e, policy.horizons[i], policy, fn)) > 0.0
    ensures Score(e, policy, fn).horizons[i].relativeSavings
         == Savings(fn.pow2(LowerOf(e, policy.horizons[i], policy, fn)))
  {
    hide Score, Refusal, Completed, Samples, WinsorizedMean, Savings, LowerLog;
    HorizonIsOf(e, policy, fn, i);
  }

  lemma SavingsFollow(a: real, b: real, fn: Analysis)
    requires fn.PowerLaws() && a <= b
    ensures fn.pow2(a) > 0.0 && fn.pow2(b) > 0.0
    ensures Savings(fn.pow2(a)) <= Savings(fn.pow2(b))
    ensures 0.0 < a < b ==> Savings(fn.pow2(a)) < Savings(fn.pow2(b))
  {
    PowerMonotone(a, b, fn);
    if 0.0 < a < b { PowerIncreases(a, b, fn); }
    assert fn.pow2(a) > 0.0 && fn.pow2(b) > 0.0;
    assert a > 0.0 ==> fn.pow2(a) > 1.0;
    hide Savings;
    SavingsMonotone(fn.pow2(a), fn.pow2(b));
  }

  /** The order of the lower confidence bounds at every horizon. */
  ghost predicate LowersAtMost(e: Evidence, f: Evidence, policy: BenchmarkPolicy, fn: Analysis)
    requires e.Valid() && f.Valid() && Analytic(policy, fn)
    requires Completed(e.trials) != [] && Completed(f.trials) != []
  {
    forall i :: 0 <= i < |policy.horizons| ==>
      LowerOf(e, policy.horizons[i], policy, fn) <= LowerOf(f, policy.horizons[i], policy, fn)
  }

  /** At some horizon with a weight the first bound is positive and the second larger. */
  ghost predicate LowerSomewhere(e: Evidence, f: Evidence, policy: BenchmarkPolicy, fn: Analysis)
    requires e.Valid() && f.Valid() && Analytic(policy, fn)
    requires Completed(e.trials) != [] && Completed(f.trials) != []
  {
    exists i :: 0 <= i < |policy.horizons| && policy.horizonWeights[i] > 0.0
                && 0.0 < LowerOf(e, policy.horizons[i], policy, fn) < LowerOf(f, policy.horizons[i], policy, fn)
  }

  lemma RewardsFollow(e: Evidence, f: Evidence, policy: BenchmarkPolicy, fn: Analysis)
    requires e.Valid() && f.Valid() && Analytic(policy, fn) && e.trials == f.trials
    requires Refusal(e, policy).None? && Refusal(f, policy).None?
    requires Completed(e.trials) != [] && LowersAtMost(e, f, policy, fn)
    ensures Score(e, policy, fn).reward <= Score(f, policy, fn).reward
    ensures LowerSomewhere(e, f, policy, fn) ==> Score(e, policy, fn).reward < Score(f, policy, fn).reward
  {
    var s, t, w := Score(e, policy, fn).horizons, Score(f, policy, fn).horizons, policy.horizonWeights;
    assert policy.Valid() && forall i :: 0 <= i < |w| ==> w[i] >= 0.0;
    hide *;
    RewardIsWeighted(e, policy, fn);
    RewardIsWeighted(f, policy, fn);
    SameReliability(e, f);
    RateBelowOne(e, policy);
    SavingsFollowLowers(e, f, policy, fn);
    WeightedSavingsMonotone(w, s, t);
    RewardFollows(WeightedSavings(w, s), WeightedSavings(w, t), Reliability(e));
  }

  lemma SameReliability(e: Evidence, f: Evidence)
    requires e.trials == f.trials && e.trials != []
    ensures Reliability(e) == Reliability(f)
  {
  }

  lemma SavingsFollowLowers(e: Evidence, f: Evidence, policy: BenchmarkPolicy, fn: Analysis)
    requires e.Valid() && f.Valid() && Analytic(policy, fn) && e.trials == f.trials
    requires Refusal(e, policy).None? && Refusal(f, policy).None?
    requires Completed(e.trials) != [] && LowersAtMost(e, f, policy, fn)
    ensures |policy.horizonWeights| == |Score(e, policy, fn).horizons| == |Score(f, policy, fn).horizons|
    ensures SavesAtMost(Score(e, policy, fn).horizons, Score(f, policy, fn).horizons)
    ensures LowerSomewhere(e, f, policy, fn)
        ==> SomewhereLess(policy.horizonWeights, Score(e, policy, fn).horizons, Score(f, policy, fn).horizons)
  {
    var s, t := Score(e, policy, fn).horizons, Score(f, policy, fn).horizons;
    hide *;
    RewardIsWeighted(e, policy, fn);
    RewardIsWeighted(f, policy, fn);
    forall i | 0 <= i < |s|
      ensures FollowsAt(e, f, policy, fn, s, t, i)
    {
      OneFollows(e, f, policy, fn, i);
      FollowsOne(e, f, policy, fn, s, t, i);
    }
    AllFollow(e, f, policy, fn, s, t);
  }

  /** At one horizon the savings are ordered as the bounds are. */
  ghost predicate FollowsAt(
      e: Evidence, f: Evidence, policy: BenchmarkPolicy, fn: Analysis, s: seq<HorizonScore>,
      t: seq<HorizonScore>, i: nat)
    requires e.Valid() && f.Valid() && Analytic(policy, fn)
    requires Completed(e.trials) != [] && Completed(f.trials) != []
    requires |s| == |t| == |policy.horizons| && i < |s|
  {
    && s[i].relativeSavings <= t[i].relativeSavings
    && (0.0 < LowerOf(e, policy.horizons[i], policy, fn) < LowerOf(f, policy.horizons[i], policy, fn)
        ==> s[i].relativeSavings < t[i].relativeSavings)
  }

  lemma FollowsOne(
      e: Evidence, f: Evidence, policy: BenchmarkPolicy, fn: Analysis, s: seq<HorizonScore>,
      t: seq<HorizonScore>, i: nat)
    requires e.Valid() && f.Valid() && Analytic(policy, fn)
    requires Completed(e.trials) != [] && Completed(f.trials) != []
    requires |s| == |t| == |policy.horizons| && i < |s|
    requires s[i].relativeSavings <= t[i].relativeSavings
    requires 0.0 < LowerOf(e, policy.horizons[i], policy, fn) < LowerOf(f, policy.horizons[i], policy, fn)
         ==> s[i].relativeSavings < t[i].relativeSavings
    ensures FollowsAt(e, f, policy, fn, s, t, i)
  {
    hide LowerOf, Completed;
  }

  lemma AllFollow(
      e: Evidence, f: Evidence, policy: BenchmarkPolicy, fn: Analysis, s: seq<HorizonScore>, t: seq<HorizonScore>)
    requires e.Valid() && f.Valid() && Analytic(policy, fn)
    requires Completed(e.trials) != [] && Completed(f.trials) != []
    requires |s| == |t| == |policy.horizons| == |policy.horizonWeights|
    requires forall i :: 0 <= i < |s| ==> FollowsAt(e, f, policy, fn, s, t, i)
    ensures SavesAtMost(s, t)
    ensures LowerSomewhere(e, f, policy, fn) ==> SomewhereLess(policy.horizonWeights, s, t)
  {
    hide LowerOf, Completed;
    forall i | 0 <= i < |s| ensures s[i].relativeSavings <= t[i].relativeSavings {
      assert FollowsAt(e, f, policy, fn, s, t, i);
    }
    if LowerSomewhere(e, f, policy, fn) {
      var i :| 0 <= i < |policy.horizons| && policy.horizonWeights[i] > 0.0
               && 0.0 < LowerOf(e, policy.horizons[i], policy, fn) < LowerOf(f, policy.horizons[i], policy, fn);
      assert FollowsAt(e, f, policy, fn, s, t, i);
    }
  }

  lemma OneFollows(e: Evidence, f: Evidence, policy: BenchmarkPolicy, fn: Analysis, i: nat)
    requires e.Valid() && f.Valid() && Analytic(policy, fn) && e.trials == f.trials
    requires Refusal(e, policy).None? && Refusal(f, policy).None?
    requires Completed(e.trials) != [] && LowersAtMost(e, f, policy, fn) && i < |policy.horizons|
    ensures i < |Score(e, policy, fn).horizons| && i < |Score(f, policy, fn).horizons|
    ensures var s, t := Score(e, policy, fn).horizons[i], Score(f, policy, fn).horizons[i];
            && s.relativeSavings <= t.relativeSavings
            && (0.0 < LowerOf(e, policy.horizons[i], policy, fn) < LowerOf(f, policy.horizons[i], policy, fn)
                ==> s.relativeSavings < t.relativeSavings)
  {
    var h := policy.horizons[i];
    assert h >= 1 && LowerOf(e, h, policy, fn) <= LowerOf(f, h, policy, fn) && fn.PowerLaws();
    hide *;
    SavingsReported(e, policy, fn, i);
    SavingsReported(f, policy, fn, i);
    SavingsFollow(LowerOf(e, h, policy, fn), LowerOf(f, h, policy, fn), fn);
  }

  lemma RewardIsWeighted(e: Evidence, policy: BenchmarkPolicy, fn: Analysis)
    requires e.Valid() && Analytic(policy, fn) && Refusal(e, policy).None?
    ensures e.trials != [] && |Score(e, policy, fn).horizons| == |policy.horizonWeights| == |policy.horizons|
    ensures Score(e, policy, fn).reward
         == Times(Times(100.0, WeightedSavings(policy.horizonWeights, Score(e, policy, fn).horizons)),
                  Reliability(e))
  {
    hide Refusal, WeightedSavings, Reliability, Times, HorizonScores;
    ScoreIs(e, policy, fn);
  }

  lemma RewardFollows(x: real, y: real, r: real)
    requires x <= y && r > 0.0
    ensures Times(Times(100.0, x), r) <= Times(Times(100.0, y), r)
    ensures x < y ==> Times(Times(100.0, x), r) < Times(Times(100.0, y), r)
  {
    WeighedMonotone(100.0, x, y);
    WeighedMonotone(r, Times(100.0, x), Times(100.0, y));
    TimesFlip(r, Times(100.0, x));
    TimesFlip(r, Times(100.0, y));
  }

  /** A larger setup pays no candidate more, whatever was measured. */
  ghost predicate SetupNeverHelps(policy: BenchmarkPolicy, fn: Analysis)
    requires Analytic(policy, fn)
  {
    forall e: Evidence, larger: real :: e.Valid() && e.setup <= larger ==>
      WithSetup(e, larger).Valid()
      && Score(WithSetup(e, larger), policy, fn).reward <= Score(e, policy, fn).reward
  }

  lemma UnmarginedLowers(e: Evidence, larger: real, policy: BenchmarkPolicy, fn: Analysis)
    requires e.Valid() && Analytic(policy, fn) && policy.confidenceZ == 0.0 && e.setup <= larger
    requires Completed(e.trials) != [] && WithSetup(e, larger).Valid()
    ensures LowersAtMost(WithSetup(e, larger), e, policy, fn)
  {
    var f := WithSetup(e, larger);
    hide Samples, WinsorizedMean, RobustStandardError, Completed;
    forall i | 0 <= i < |policy.horizons|
      ensures LowerOf(f, policy.horizons[i], policy, fn) <= LowerOf(e, policy.horizons[i], policy, fn)
    {
      var h := policy.horizons[i];
      CentersDecrease(e, larger, h, policy, fn);
      ZeroTimes(RobustStandardError(Samples(e, h, policy, fn), fn));
      ZeroTimes(RobustStandardError(Samples(f, h, policy, fn), fn));
    }
  }

  lemma SetupHelpsNobody(policy: BenchmarkPolicy, fn: Analysis)
    requires Analytic(policy, fn) && policy.confidenceZ == 0.0
    ensures SetupNeverHelps(policy, fn)
  {
    forall e: Evidence, larger: real | e.Valid() && e.setup <= larger
      ensures WithSetup(e, larger).Valid()
      ensures Score(WithSetup(e, larger), policy, fn).reward <= Score(e, policy, fn).reward
    {
      RefusalIgnoresSetup(e, larger, policy);
      var f := WithSetup(e, larger);
      hide *;
      if Refusal(e, policy).None? {
        PassedGates(e, policy);
        UnmarginedLowers(e, larger, policy, fn);
        SameTrials(e, larger);
        RewardsFollow(f, e, policy, fn);
      } else {
        AnalyticIsScorable(e, policy, fn);
        AnalyticIsScorable(f, policy, fn);
        RefusedIs(e, policy, fn);
        RefusedIs(f, policy, fn);
      }
    }
  }

  lemma SameTrials(e: Evidence, setup: real)
    ensures WithSetup(e, setup).trials == e.trials
  {
  }

  lemma AnalyticIsScorable(e: Evidence, policy: BenchmarkPolicy, fn: Analysis)
    requires e.Valid() && Analytic(policy, fn)
    ensures Scorable(e, policy, fn)
  {
  }
}
