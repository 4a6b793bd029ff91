/** The range of the benchmark reward: it is at most 100 for every candidate exactly when
    the horizon weights sum to at most one. A policy may exceed that by a relative 1e-9. */
module BenchmarkRange {
  import opened Statistics
  import opened Wrappers
  import opened Benchmark
  import opened BenchmarkLaws

  // ----- constant samples ----------------------------------------------------

  ghost predicate Constant(v: seq<real>, c: real) {
    forall i :: 0 <= i < |v| ==> v[i] == c
  }

  lemma {:induction false} ConstantCounts(v: seq<real>, c: real)
    requires Constant(v, c)
    ensures CountAbove(v, c) == 0 && CountBelow(v, c) == 0
  {
    if v != [] {
      assert forall i :: 0 <= i < |v| - 1 ==> v[1..][i] == v[i + 1];
      ConstantCounts(v[1..], c);
    }
  }

  lemma ConstantMedian(v: seq<real>, c: real)
    requires v != [] && Constant(v, c)
    ensures Median(v) == c
  {
    var s := Sort(v);
    SortMultiset(v);
    forall i | 0 <= i < |s| ensures s[i] == c {
      InPermutation(s, v, i);
    }
    assert Over(c + c, 2.0) == c;
    hide Sort;
  }

  lemma {:induction false} ConstantDeviations(v: seq<real>, c: real)
    requires Constant(v, c)
    ensures Constant(Deviations(v, c), 0.0)
  {
    if v != [] {
      assert forall i :: 0 <= i < |v| - 1 ==> v[1..][i] == v[i + 1];
      ConstantDeviations(v[1..], c);
    }
  }

  /** Equal samples have that value as their winsorised mean and no spread. */
  lemma ConstantSpread(v: seq<real>, c: real, fraction: real, minimumWidth: nat, fn: Analysis)
    requires v != [] && Constant(v, c) && 0.0 <= fraction < 0.5 && fn.RootLaws()
    ensures WinsorizedMean(v, fraction, minimumWidth) == c
    ensures RobustStandardError(v, fn) == 0.0
  {
    ConstantCounts(v, c);
    ConstantMedian(v, c);
    ConstantDeviations(v, c);
    ConstantMedian(Deviations(v, c), 0.0);
    assert MedianDeviation(v) == 0.0;
    assert Times(MAD_SCALE, 0.0) == 0.0;
    assert |v| >= 2 ==> Over(0.0, fn.root(|v|)) == 0.0;
    assert RobustStandardError(v, fn) == 0.0;
    hide Median, Deviations, MedianDeviation, RobustStandardError, WinsorizedMean, Width, CountAbove, CountBelow;
    WinsorizedMeanBounds(v, fraction, minimumWidth, c, c);
  }

  lemma ConstantLowerLog(v: seq<real>, c: real, policy: BenchmarkPolicy, fn: Analysis)
    requires v != [] && Constant(v, c) && policy.Valid() && fn.RootLaws()
    ensures LowerLog(v, policy, fn) == c
  {
    assert Times(policy.confidenceZ, 0.0) == 0.0;
    hide RobustStandardError, WinsorizedMean;
    ConstantSpread(v, c, policy.winsorFraction, 1, fn);
  }

  // ----- a uniformly faster candidate ----------------------------------------

  function FasterTrial(b: real, i: nat): Trial {
    Trial("w", if i % 2 == 0 then BaselineFirst else CandidateFirst, b, 1.0, b, 1.0, false, false)
  }

  /** `n` trials in alternating order; the baseline always takes `b`, the candidate one. */
  function FasterTrials(b: real, n: nat): (r: seq<Trial>)
    ensures |r| == n
    ensures forall i :: 0 <= i < n ==> r[i] == FasterTrial(b, n - 1 - i)
  {
    if n == 0 then [] else [FasterTrial(b, n - 1)] + FasterTrials(b, n - 1)
  }

  function Faster(b: real, n: nat): Evidence {
    Evidence(true, true, 0.0, 0, 1, FasterTrials(b, n))
  }

  lemma {:induction false} FasterBalance(b: real, n: nat)
    ensures CountOrder(FasterTrials(b, n), BaselineFirst) == (n + 1) / 2
    ensures CountOrder(FasterTrials(b, n), CandidateFirst) == n / 2
  {
    if n > 0 {
      FasterBalance(b, n - 1);
      assert FasterTrials(b, n)[1..] == FasterTrials(b, n - 1);
    }
  }

  lemma {:induction false} FasterCompleted(b: real, n: nat)
    ensures Completed(FasterTrials(b, n)) == FasterTrials(b, n)
  {
    if n > 0 {
      FasterCompleted(b, n - 1);
      assert FasterTrials(b, n)[1..] == FasterTrials(b, n - 1);
    }
  }

  lemma FasterSound(b: real, n: nat, policy: BenchmarkPolicy)
    requires policy.Valid() && b > 0.0 && n >= policy.minimumTrials && n % 2 == 0
    ensures Faster(b, n).Valid()
    ensures Faster(b, n).trials != [] && TimeoutRateOf(Faster(b, n).trials) == 0.0
    ensures Refusal(Faster(b, n), policy) == None
  {
    var e := Faster(b, n);
    FasterBalance(b, n);
    FasterCompleted(b, n);
    FasterValid(b, n);
    assert Over(0.0, n as real) == 0.0;
    RefusalMeans(e, policy);
    hide Refusal, Completed, CountOrder;
    assert SoundBenchmark(e, policy);
  }

  lemma FasterValid(b: real, n: nat)
    requires b > 0.0
    ensures forall t :: t in FasterTrials(b, n) ==> t.Valid() && t.workerId == "w" && !t.baselineTimedOut
  {
    var trials := FasterTrials(b, n);
    forall t | t in trials ensures t.Valid() && t.workerId == "w" && !t.baselineTimedOut {
      var i :| 0 <= i < |trials| && trials[i] == t;
      assert t == FasterTrial(b, n - 1 - i);
    }
  }

  lemma FasterRatio(b: real, i: nat, horizon: nat, fn: Analysis)
    requires b > 0.0 && horizon >= 1
    ensures FasterTrial(b, i).Valid() && LogSpeedup(FasterTrial(b, i), 0.0, horizon, 1.0, fn) == fn.log2(b)
  {
    var t, h := FasterTrial(b, i), horizon as real;
    assert (horizon - 1) as real == h - 1.0;
    assert BaselineTotal(t, horizon) == h * b by { assert b + (h - 1.0) * b == h * b; }
    assert CandidateTotal(t, 0.0, horizon, 1.0) == h;
    Quotient(h, b);
  }

  lemma Quotient(h: real, b: real)
    requires h > 0.0
    ensures Over(h * b, h) == b
  {
    assert h * b == Times(b, h);
    TimesOver(b, h);
  }

  lemma {:induction false} FasterLogs(b: real, n: nat, horizon: nat, fn: Analysis)
    requires b > 0.0 && horizon >= 1
    ensures forall t :: t in FasterTrials(b, n) ==> t.Valid()
    ensures Constant(LogSpeedups(FasterTrials(b, n), 0.0, horizon, 1.0, fn), fn.log2(b))
  {
    hide LogSpeedup, FasterTrial;
    FasterValid(b, n);
    if n > 0 {
      FasterValid(b, n - 1);
      FasterLogs(b, n - 1, horizon, fn);
      FasterRatio(b, n - 1, horizon, fn);
      assert FasterTrials(b, n)[1..] == FasterTrials(b, n - 1);
      assert FasterTrials(b, n)[0] == FasterTrial(b, n - 1);
    }
  }

  lemma FasterHorizon(b: real, n: nat, horizon: nat, policy: BenchmarkPolicy, fn: Analysis)
    requires policy.Valid() && fn.RootLaws() && fn.BinaryLaws()
    requires b > 1.0 && n >= policy.minimumTrials && n % 2 == 0 && horizon >= 1
    ensures Faster(b, n).Valid() && Completed(Faster(b, n).trials) != []
    ensures HorizonOf(Faster(b, n), horizon, policy, fn).relativeSavings == 1.0 - Over(1.0, b)
  {
    var e := Faster(b, n);
    FasterSound(b, n, policy);
    FasterCompleted(b, n);
    FasterLogs(b, n, horizon, fn);
    assert Over(0.0, 1.0) == 0.0 && Times(0.0, policy.storagePenalty) == 0.0;
    assert StorageMultiplier(e, policy) == 1.0;
    var v := LogSpeedups(Completed(e.trials), e.setup, horizon, 1.0, fn);
    assert v != [];
    ConstantLowerLog(v, fn.log2(b), policy, fn);
    hide Refusal, LogSpeedups, LowerLog, Completed, StorageMultiplier, FasterTrials;
    SavingsOf(b);
  }

  lemma SavingsOf(b: real)
    requires b > 1.0
    ensures Savings(b) == 1.0 - Over(1.0, b)
    ensures 0.0 < Over(1.0, b) < 1.0
  {
    OverMonotone(1.0, b, b);
    WholeOver(b);
    TimesFlip(Over(1.0, b), b);
    OverTimes(1.0, b);
    OrderScale(b, Over(1.0, b), 0.0);
    OrderScale(b, 1.0, Over(1.0, b));
  }

  lemma {:induction false} EqualSavings(weights: seq<real>, scores: seq<HorizonScore>, x: real)
    requires |weights| == |scores| && forall i :: 0 <= i < |scores| ==> scores[i].relativeSavings == x
    ensures WeightedSavings(weights, scores) == Times(x, Sum(weights))
  {
    hide Times;
    if weights == [] {
      TimesFlip(x, 0.0);
      ZeroTimes(x);
    } else {
      assert forall i :: 0 <= i < |scores| - 1 ==> scores[1..][i] == scores[i + 1];
      EqualSavings(weights[1..], scores[1..], x);
      TimesFlip(weights[0], x);
      TimesSum(x, weights[0], Sum(weights[1..]));
    }
  }

  /** The reward of a candidate that is `b` times as fast everywhere. */
  lemma FasterReward(b: real, n: nat, policy: BenchmarkPolicy, fn: Analysis)
    requires policy.Valid() && fn.RootLaws() && fn.BinaryLaws()
    requires b > 1.0 && n >= policy.minimumTrials && n % 2 == 0
    ensures Scorable(Faster(b, n), policy, fn)
    ensures Score(Faster(b, n), policy, fn).reward
         == Times(100.0, Times(1.0 - Over(1.0, b), Sum(policy.horizonWeights)))
  {
    var e, horizons, weights := Faster(b, n), policy.horizons, policy.horizonWeights;
    FasterSound(b, n, policy);
    assert Scorable(e, policy, fn);
    FullReliability(e);
    assert |weights| == |horizons|;
    hide *;
    ScoreIs(e, policy, fn);
    FasterHorizons(b, n, policy, fn);
    var scores := HorizonScores(e, horizons, policy, fn);
    EqualSavings(weights, scores, 1.0 - Over(1.0, b));
    VerdictFlags(e, RewardOf(e, weights, scores), scores, weights);
    TimesFlip(Times(100.0, WeightedSavings(weights, scores)), 1.0);
    TimesUnit(Times(100.0, WeightedSavings(weights, scores)));
  }

  lemma FullReliability(e: Evidence)
    requires e.trials != [] && TimeoutRateOf(e.trials) == 0.0
    ensures Reliability(e) == 1.0
  {
  }

  lemma TimesUnit(x: real)
    ensures Times(1.0, x) == x
  {
  }

  lemma FasterHorizons(b: real, n: nat, policy: BenchmarkPolicy, fn: Analysis)
    requires Scorable(Faster(b, n), policy, fn) && Completed(Faster(b, n).trials) != []
    requires b > 1.0 && n >= policy.minimumTrials && n % 2 == 0
    ensures forall i :: 0 <= i < |policy.horizons| ==> policy.horizons[i] >= 1
    ensures forall i :: 0 <= i < |policy.horizons| ==>
              HorizonScores(Faster(b, n), policy.horizons, policy, fn)[i].relativeSavings == 1.0 - Over(1.0, b)
  {
    var e, horizons := Faster(b, n), policy.horizons;
    assert policy.Valid() && fn.RootLaws() && fn.BinaryLaws();
    assert forall i :: 0 <= i < |horizons| ==> horizons[i] >= 1;
    hide *;
    HorizonScoresAt(e, horizons, policy, fn);
    forall i | 0 <= i < |horizons|
      ensures HorizonScores(e, horizons, policy, fn)[i].relativeSavings == 1.0 - Over(1.0, b)
    {
      FasterHorizon(b, n, horizons[i], policy, fn);
    }
  }

  /** A speed at which the savings make up for any excess of the weights over one. */
  lemma FastEnough(sum: real)
    requires sum > 1.0
    ensures var b := Over(sum, sum - 1.0) + 1.0;
            b > 1.0 && Times(100.0, Times(1.0 - Over(1.0, b), sum)) > 100.0
  {
    var d := sum - 1.0;
    var q := Over(sum, d);
    OverTimes(sum, d);
    PositiveQuotient(q, d);
    var r := Over(1.0, q + 1.0);
    OverTimes(1.0, q + 1.0);
    SavingsOf(q + 1.0);
    Excess(d, q, r);
    assert Times(100.0, Times(1.0 - r, sum)) == 100.0 * Times(1.0 - r, sum);
  }

  lemma Excess(d: real, q: real, r: real)
    requires d > 0.0 && r > 0.0 && Times(q, d) == d + 1.0 && Times(r, q + 1.0) == 1.0
    ensures Times(1.0 - r, d + 1.0) == 1.0 + r * d
    ensures Times(1.0 - r, d + 1.0) > 1.0
  {
    var p := r * q;
    assert p == 1.0 - r;
    assert p * (d + 1.0) == p * d + p;
    assert p * d == r * (q * d);
    assert r * (q * d) == r * (d + 1.0) == r * d + r;
    assert r * d > 0.0;
  }

  lemma PositiveQuotient(q: real, d: real)
    requires d > 0.0 && Times(q, d) > 0.0
    ensures q > 0.0
  {
  }

  /** The reward of every candidate is at most 100 exactly when the policy's horizon
      weights sum to at most one. */
  lemma RewardRangeIff(policy: BenchmarkPolicy, fn: Analysis)
    requires policy.Valid() && fn.RootLaws() && fn.BinaryLaws()
    ensures (forall e: Evidence :: Scorable(e, policy, fn) ==> Score(e, policy, fn).reward <= 100.0)
       <==> Sum(policy.horizonWeights) <= 1.0
  {
    var sum := Sum(policy.horizonWeights);
    hide *;
    if sum <= 1.0 {
      forall e: Evidence | Scorable(e, policy, fn) ensures Score(e, policy, fn).reward <= 100.0 {
        RewardPositiveIff(e, policy, fn);
        HundredTimes(sum);
      }
    } else {
      RewardExceeds(policy, fn);
    }
  }

  lemma HundredTimes(sum: real)
    requires sum <= 1.0
    ensures Times(100.0, sum) <= 100.0
  {
  }

  /** Any excess of the weights is reached: by a candidate so much faster in an even number
      of balanced trials. */
  lemma RewardExceeds(policy: BenchmarkPolicy, fn: Analysis)
    requires policy.Valid() && fn.RootLaws() && fn.BinaryLaws() && Sum(policy.horizonWeights) > 1.0
    ensures var sum := Sum(policy.horizonWeights);
            var e := Faster(Over(sum, sum - 1.0) + 1.0, 2 * policy.minimumTrials);
            Scorable(e, policy, fn) && Score(e, policy, fn).reward > 100.0
  {
    var sum := Sum(policy.horizonWeights);
    hide *;
    FastEnough(sum);
    FasterReward(Over(sum, sum - 1.0) + 1.0, 2 * policy.minimumTrials, policy, fn);
  }

  /** A policy the constructor accepts whose single weight is half the tolerance too much. */
  const HEAVY := BenchmarkPolicy([1], [1.0000000005], 2, 0.1, 1.28, 0.2, 0.1)

  lemma HeavyPolicyExceeds(fn: Analysis)
    requires fn.RootLaws() && fn.BinaryLaws()
    ensures HEAVY.Valid() && Sum(HEAVY.horizonWeights) == 1.0000000005
    ensures exists e: Evidence :: Scorable(e, HEAVY, fn) && Score(e, HEAVY, fn).reward > 100.0
  {
    assert HEAVY.horizonWeights == [1.0000000005];
    assert Sum([1.0000000005]) == 1.0000000005 + Sum([]);
    assert Times(0.000000001, 1.0000000005) > 0.0000000005;
    assert CloseToOne(1.0000000005);
    assert HEAVY.Valid();
    var sum := Sum(HEAVY.horizonWeights);
    hide *;
    RewardExceeds(HEAVY, fn);
    var e := Faster(Over(sum, sum - 1.0) + 1.0, 2 * HEAVY.minimumTrials);
    assert Score(e, HEAVY, fn).reward > 100.0;
  }
}
