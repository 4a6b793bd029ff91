/** A candidate that is paid more for a larger setup: under any policy with a positive
    confidence factor there is one. Most of its trials are slow and hardly notice the
    setup; one fast trial in the middle loses its lead, the samples move together, and the
    margin for confidence shrinks by more than the mean does. */
module SetupRewards {
  import opened Statistics
  import opened StatisticsMeaning
  import opened Benchmark
  import opened BenchmarkLaws
  import opened BenchmarkMeaning
  import opened SetupCosts

  // ----- how the logarithms move ---------------------------------------------

  function Power(y: real, n: nat): (r: real)
    requires y > 0.0
    ensures r > 0.0
  {
    if n == 0 then 1.0
    else
      ProductNonNegative(y, Power(y, n - 1));
      Times(y, Power(y, n - 1))
  }

  lemma {:induction false} LogPower(y: real, n: nat, fn: Analysis)
    requires fn.PowerLaws() && y > 0.0
    ensures fn.log2(Power(y, n)) == Times(n as real, fn.log2(y))
  {
    if n == 0 {
      LogOfOne(fn);
      ZeroTimes(fn.log2(y));
    } else {
      LogPower(y, n - 1, fn);
      LogProduct(y, Power(y, n - 1), fn);
      ScaleByCount(n, fn.log2(y));
    }
  }

  lemma GrowthStep(x: real, y: real, p: real)
    requires x >= 0.0 && 0.0 <= y <= 1.0 && p <= 1.0 + y
    ensures Times(1.0 + x, p) <= 1.0 + y + 2.0 * x
  {
    WeighedMonotone(1.0 + x, p, 1.0 + y);
    WeighedMonotone(x, y, 1.0);
    assert Times(1.0 + x, 1.0 + y) == 1.0 + x + y + Times(x, y);
  }

  /** Compound growth stays within twice the simple one while that is at most one. */
  lemma {:induction false} CompoundGrowth(x: real, n: nat)
    requires x >= 0.0 && 2.0 * Times(n as real, x) <= 1.0
    ensures Power(1.0 + x, n) <= 1.0 + 2.0 * Times(n as real, x)
  {
    if n == 0 {
      ZeroTimes(x);
    } else {
      ScaleByCount(n, x);
      ProductNonNegative((n - 1) as real, x);
      CompoundGrowth(x, n - 1);
      GrowthStep(x, 2.0 * Times((n - 1) as real, x), Power(1.0 + x, n - 1));
    }
  }

  /** How far a sample falls when the setup rises by a fraction `u` of its cost. */
  ghost function Fall(u: real, fn: Analysis): real { fn.log2(1.0 + u) }

  lemma FallPositive(u: real, fn: Analysis)
    requires fn.PowerLaws() && u > 0.0
    ensures Fall(u, fn) > 0.0
  {
    LogOfOne(fn);
    LogIncreases(1.0 + u, 1.0, fn);
  }

  /** A slow trial, whose cost is `8 * m` times that of the fast one, hardly falls. */
  lemma FallsCompare(m: nat, u: real, x: real, fn: Analysis)
    requires fn.PowerLaws() && m >= 1 && 0.0 < u <= 1.0 && u == 2.0 * Times((4 * m) as real, x) && x > 0.0
    ensures 0.0 < Times((4 * m) as real, Fall(x, fn)) <= Fall(u, fn) <= fn.log2(2.0)
    ensures Fall(x, fn) > 0.0
  {
    FallPositive(x, fn);
    ProductNonNegative((4 * m) as real, Fall(x, fn));
    CompoundGrowth(x, 4 * m);
    LogPower(1.0 + x, 4 * m, fn);
    LogIncreases(Power(1.0 + x, 4 * m), 1.0 + u, fn);
    LogIncreases(1.0 + u, 2.0, fn);
  }

  // ----- samples on three levels ---------------------------------------------

  /** `m` samples at `a`, one at `b` and `m` at `d`. */
  ghost predicate Levels(v: seq<real>, m: nat, a: real, b: real, d: real) {
    && |v| == 2 * m + 1
    && (forall i :: 0 <= i < m ==> v[i] == a)
    && v[m] == b
    && (forall i :: m < i <= 2 * m ==> v[i] == d)
  }

  lemma {:induction false} SumAppend(a: seq<real>, b: seq<real>)
    ensures Sum(a + b) == Sum(a) + Sum(b)
  {
    if a == [] {
      assert a + b == b;
    } else {
      SumAppend(a[1..], b);
      assert (a + b)[1..] == a[1..] + b;
    }
  }

  lemma {:induction false} SumLevel(v: seq<real>, x: real)
    requires forall i :: 0 <= i < |v| ==> v[i] == x
    ensures Sum(v) == Times(|v| as real, x)
  {
    if v == [] {
      ZeroTimes(x);
    } else {
      SumLevel(v[1..], x);
      ScaleByCount(|v|, x);
    }
  }

  lemma SumLevels(v: seq<real>, m: nat, a: real, b: real, d: real)
    requires Levels(v, m, a, b, d)
    ensures Sum(v) == Times(m as real, a) + b + Times(m as real, d)
  {
    var low, high := v[..m], v[m + 1..];
    SumLevel(low, a);
    SumLevel(high, d);
    SumAppend([b], high);
    SumAppend(low, [b] + high);
    assert v == low + ([b] + high);
    assert Sum([b]) == b;
  }

  lemma MiddleOfOdd(s: seq<real>, m: nat)
    requires |s| == 2 * m + 1
    ensures Middle(s) == s[m]
  {
    assert (2 * m + 1) % 2 == 1 && (2 * m + 1) / 2 == m;
  }

  lemma MedianOfLevels(v: seq<real>, m: nat, a: real, b: real, d: real)
    requires Levels(v, m, a, b, d) && a <= b <= d
    ensures Median(v) == b && Sort(v) == v
  {
    assert Sorted(v);
    hide Sort, Sorted;
    SortIs(v, v);
    MiddleOfOdd(v, m);
  }

  lemma DeviationOfLevels(v: seq<real>, m: nat, a: real, b: real, d: real)
    requires Levels(v, m, a, b, d) && a <= b <= d && b - a <= d - b && m >= 1
    ensures MedianDeviation(v) == b - a
  {
    MedianOfLevels(v, m, a, b, d);
    var e := Deviations(v, b);
    assert Levels(e, m, b - a, 0.0, d - b) by { DeviationsAt(v, b); }
    assert MedianDeviation(v) == Median(e);
    hide Deviations, Sort, Median, MedianDeviation;
    MedianBesideZero(e, m, b - a, d - b);
  }

  lemma MedianBesideZero(e: seq<real>, m: nat, x: real, y: real)
    requires Levels(e, m, x, 0.0, y) && 0.0 <= x <= y && m >= 1
    ensures Median(e) == x
  {
    var s := [e[m]] + (e[..m] + e[m + 1..]);
    MovedFront(e, m);
    assert Sorted(s) && s[m] == x && |s| == 2 * m + 1;
    assert Ascending(e, s);
    hide Sort, Sorted, Ascending, Levels;
    SortIs(e, s);
    MiddleOfOdd(s, m);
  }

  lemma {:induction false} DeviationsAt(v: seq<real>, center: real)
    ensures forall i :: 0 <= i < |v| ==> Deviations(v, center)[i] == Abs(v[i] - center)
  {
    if v != [] { DeviationsAt(v[1..], center); }
  }

  lemma MovedFront(e: seq<real>, m: nat)
    requires m < |e|
    ensures multiset([e[m]] + (e[..m] + e[m + 1..])) == multiset(e)
  {
    assert e == e[..m] + ([e[m]] + e[m + 1..]);
  }

  lemma NarrowWidth(m: nat, fraction: real)
    requires 0.0 <= fraction < 0.5 && m >= 2 && Times((2 * m + 1) as real, fraction) < m as real
    ensures Width(2 * m + 1, fraction, 1) < m
  {
    hide Times;
  }

  lemma CenterOfLevels(v: seq<real>, m: nat, a: real, b: real, d: real, fraction: real)
    requires Levels(v, m, a, b, d) && a <= b <= d && m >= 2
    requires 0.0 <= fraction < 0.5 && Times((2 * m + 1) as real, fraction) < m as real
    ensures WinsorizedMean(v, fraction, 1)
         == Over(Times(m as real, a) + b + Times(m as real, d), (2 * m + 1) as real)
  {
    var w := Width(2 * m + 1, fraction, 1);
    assert |v| == 2 * m + 1 && v != [];
    LevelsPulledIn(v, m, a, b, d, w) by { NarrowWidth(m, fraction); }
    hide *;
    CenterIs(v, fraction, 1, v, v);
    SumLevels(v, m, a, b, d);
    MeanIs(v, 2 * m + 1);
  }

  lemma MeanIs(v: seq<real>, n: nat)
    requires |v| == n > 0
    ensures Mean(v) == Over(Sum(v), n as real)
  {
  }

  lemma LevelsPulledIn(v: seq<real>, m: nat, a: real, b: real, d: real, w: nat)
    requires Levels(v, m, a, b, d) && a <= b <= d && w < m
    ensures PulledIn(v, w, v) && Ascending(v, v)
  {
  }

  /** The lower confidence bound of samples on three levels. */
  ghost function LowerOfLevels(m: nat, a: real, b: real, d: real, z: real, r: real): real
    requires r > 0.0
  {
    Over(Times(m as real, a) + b + Times(m as real, d), (2 * m + 1) as real)
    - Times(z, Over(Times(MAD_SCALE, b - a), r))
  }

  lemma LevelsLower(v: seq<real>, m: nat, a: real, b: real, d: real, policy: BenchmarkPolicy, fn: Analysis)
    requires Levels(v, m, a, b, d) && a <= b <= d && b - a <= d - b && m >= 2
    requires policy.Valid() && fn.RootLaws()
    requires Times((2 * m + 1) as real, policy.winsorFraction) < m as real
    ensures fn.root(2 * m + 1) > 0.0
    ensures LowerLog(v, policy, fn) == LowerOfLevels(m, a, b, d, policy.confidenceZ, fn.root(2 * m + 1))
  {
    CenterOfLevels(v, m, a, b, d, policy.winsorFraction);
    DeviationOfLevels(v, m, a, b, d);
    hide WinsorizedMean, MedianDeviation, Times, Over;
  }

  // ----- the margin shrinks by more than the mean ----------------------------

  /** The trials suffice for the confidence factor. */
  lemma RootLarge(z: real, r: real, m: nat)
    requires z > 0.0 && r > 0.0 && m >= 1 && Times(r, r) == (2 * m + 1) as real
    requires Times(Times(z, z), m as real) >= 1.0
    ensures Times(z, r) > 1.4
  {
    ProductNonNegative(z, r);
    var q, zz := Times(z, r), Times(z, z);
    ProductNonNegative(z, z);
    assert Times(q, q) == Times(zz, (2 * m + 1) as real);
    assert Times(zz, (2 * m + 1) as real) == 2.0 * Times(zz, m as real) + zz;
    hide Times;
    SquareAbove(q, 1.4);
  }

  lemma SquareAbove(q: real, bound: real)
    requires q > 0.0 && bound > 0.0 && Times(q, q) > Times(bound, bound)
    ensures q > bound
  {
    if q <= bound {
      WeighedMonotone(q, q, bound);
      WeighedMonotone(bound, q, bound);
    }
  }

  lemma OverDifference(x: real, y: real, n: real)
    requires n != 0.0
    ensures Over(x - y, n) == Over(x, n) - Over(y, n)
  {
    OverSum(x - y, y, n);
  }

  /** By how much the mean and the margin fall. */
  lemma LowerMoves(m: nat, a: real, b: real, d: real, slow: real, fast: real, z: real, r: real)
    requires r > 0.0
    ensures LowerOfLevels(m, a - slow, b - fast, d - slow, z, r) - LowerOfLevels(m, a, b, d, z, r)
         == Times(z, Over(Times(MAD_SCALE, fast - slow), r))
            - Over(Times((2 * m) as real, slow) + fast, (2 * m + 1) as real)
  {
    var n, k := (2 * m + 1) as real, m as real;
    var sum, fall := Times(k, a) + b + Times(k, d), Times((2 * m) as real, slow) + fast;
    assert Times(k, a - slow) + (b - fast) + Times(k, d - slow) == sum - fall;
    assert Times(MAD_SCALE, (b - fast) - (a - slow)) == Times(MAD_SCALE, b - a) - Times(MAD_SCALE, fast - slow);
    assert LowerOfLevels(m, a, b, d, z, r) == Over(sum, n) - Times(z, Over(Times(MAD_SCALE, b - a), r));
    assert LowerOfLevels(m, a - slow, b - fast, d - slow, z, r)
        == Over(sum - fall, n) - Times(z, Over(Times(MAD_SCALE, b - a) - Times(MAD_SCALE, fast - slow), r));
    var before, shrink := Times(MAD_SCALE, b - a), Times(MAD_SCALE, fast - slow);
    hide *;
    OverDifference(sum, fall, n);
    OverDifference(before, shrink, r);
    TimesDifference(z, Over(before, r), Over(shrink, r));
  }

  lemma FallsAdd(m: nat, slow: real, fast: real)
    requires m >= 1 && slow > 0.0 && Times((4 * m) as real, slow) <= fast
    ensures 0.0 < Times((2 * m) as real, slow) + fast <= 1.5 * fast
    ensures fast - slow >= 0.75 * fast > 0.0
  {
    assert Times((4 * m) as real, slow) == 2.0 * Times((2 * m) as real, slow);
    ProductNonNegative((2 * m) as real, slow);
    ProductNonNegative((m - 1) as real, slow);
    assert Times((4 * m) as real, slow) == 4.0 * Times((m - 1) as real, slow) + 4.0 * slow;
  }

  /** The margin falls by more than the mean. */
  lemma MarginFallsMore(m: nat, slow: real, fast: real, z: real, r: real)
    requires m >= 1 && slow > 0.0 && Times((4 * m) as real, slow) <= fast
    requires z > 0.0 && r > 0.0 && Times(r, r) == (2 * m + 1) as real && Times(Times(z, z), m as real) >= 1.0
    ensures Times(z, Over(Times(MAD_SCALE, fast - slow), r))
          > Over(Times((2 * m) as real, slow) + fast, (2 * m + 1) as real)
  {
    var n, fall := (2 * m + 1) as real, Times((2 * m) as real, slow) + fast;
    FallsAdd(m, slow, fast);
    RootLarge(z, r, m);
    var shrink := Times(MAD_SCALE, fast - slow);
    assert shrink == 1.4826 * (fast - slow);
    assert shrink >= 1.1 * fast && fall <= 1.5 * fast;
    hide *;
    WeighedMonotone(shrink, 1.4, Times(z, r));
    assert Times(shrink, 1.4) > fall by { TimesFlip(shrink, 1.4); assert Times(1.4, shrink) == 1.4 * shrink; }
    Rescaled(z, shrink, r, n);
    Quotients(Over(fall, n), fall, n);
    LargerQuotient(Times(z, Over(shrink, r)), fall, n);
  }

  lemma Rescaled(z: real, x: real, r: real, n: real)
    requires r > 0.0 && Times(r, r) == n
    ensures Times(Times(z, Over(x, r)), n) == Times(x, Times(z, r))
  {
    var q := Over(x, r);
    OverTimes(x, r);
    assert (z * q) * (r * r) == (q * r) * (z * r);
  }

  lemma LargerQuotient(x: real, y: real, n: real)
    requires n > 0.0 && Times(x, n) > y
    ensures x > Over(y, n)
  {
    OverTimes(y, n);
    if x <= Over(y, n) {
      WeighedMonotone(n, x, Over(y, n));
      TimesFlip(n, x);
      TimesFlip(n, Over(y, n));
    }
  }

  // ----- the trials ----------------------------------------------------------

  /** A trial whose cold and warm runs take the same time, the baseline `x` times that of
      the candidate. */
  function FlatTrial(order: ExecutionOrder, cost: real, x: real): Trial {
    Trial("w", order, Times(cost, x), cost, Times(cost, x), cost, false, false)
  }

  lemma FlatValid(order: ExecutionOrder, cost: real, x: real)
    requires cost > 0.0 && x > 0.0
    ensures FlatTrial(order, cost, x).Valid()
  {
    ProductNonNegative(cost, x);
  }

  lemma FlatTotals(order: ExecutionOrder, cost: real, x: real, setup: real, horizon: nat)
    requires cost > 0.0 && x > 0.0 && setup >= 0.0 && horizon >= 1
    ensures FlatTrial(order, cost, x).Valid()
    ensures BaselineTotal(FlatTrial(order, cost, x), horizon) == Times(Times(horizon as real, cost), x)
    ensures CandidateTotal(FlatTrial(order, cost, x), setup, horizon, 1.0) == setup + Times(horizon as real, cost)
  {
    FlatValid(order, cost, x);
    var t := FlatTrial(order, cost, x);
    hide Times;
    ScaleByCount(horizon, Times(cost, x));
    ScaleByCount(horizon, cost);
    MarkedUp(horizon as real, cost, x);
    WithoutMarkup(setup + Repeated(t.candidateCold, t.candidateWarm, horizon));
  }

  lemma WithoutMarkup(x: real)
    ensures Times(x, 1.0) == x
  {
  }

  /** Without a setup the sample is the logarithm of the ratio. */
  lemma FlatSample(order: ExecutionOrder, cost: real, x: real, horizon: nat, fn: Analysis)
    requires cost > 0.0 && x > 0.0 && horizon >= 1
    ensures FlatTrial(order, cost, x).Valid()
    ensures LogSpeedup(FlatTrial(order, cost, x), 0.0, horizon, 1.0, fn) == fn.log2(x)
  {
    var q := Times(horizon as real, cost);
    ProductNonNegative(horizon as real, cost);
    FlatTotals(order, cost, x, 0.0, horizon);
    TimesFlip(q, x);
    TimesOver(x, q);
    hide Times, Over;
  }

  lemma ShiftedQuotient(q: real, x: real)
    requires q > 0.0 && x > 0.0
    ensures Times(Over(Times(q, x), 1.0 + q), 1.0 + Over(1.0, q)) == x
    ensures Over(Times(q, x), 1.0 + q) > 0.0 && Over(1.0, q) > 0.0
  {
    var y, u := Over(Times(q, x), 1.0 + q), Over(1.0, q);
    ProductNonNegative(q, x);
    PositiveRatio(Times(q, x), 1.0 + q);
    PositiveRatio(1.0, q);
    OverTimes(Times(q, x), 1.0 + q);
    OverTimes(1.0, q);
    assert y * (1.0 + q) == q * x && u * q == 1.0;
    assert y * (1.0 + u) * q == q * x;
    Cancelled(y * (1.0 + u), x, q);
  }

  lemma Cancelled(x: real, y: real, q: real)
    requires q != 0.0 && x * q == q * y
    ensures x == y
  {
  }

  /** With a setup of one the sample falls. */
  lemma FlatSampleFalls(order: ExecutionOrder, cost: real, x: real, horizon: nat, u: real, fn: Analysis)
    requires cost > 0.0 && x > 0.0 && horizon >= 1 && fn.PowerLaws()
    requires Times(u, Times(horizon as real, cost)) == 1.0
    ensures FlatTrial(order, cost, x).Valid()
    ensures LogSpeedup(FlatTrial(order, cost, x), 1.0, horizon, 1.0, fn) == fn.log2(x) - Fall(u, fn)
  {
    var q := Times(horizon as real, cost);
    ProductNonNegative(horizon as real, cost);
    FlatTotals(order, cost, x, 1.0, horizon);
    TimesOver(u, q);
    ShiftedQuotient(q, x);
    LogProduct(Over(Times(q, x), 1.0 + q), 1.0 + u, fn);
    hide Times, Over;
  }

  function ErraticTrial(m: nat, level: nat, i: nat): Trial
    requires m >= 1
  {
    var cost := (8 * m) as real;
    if i < m then FlatTrial(BaselineFirst, cost, Power(2.0, level))
    else if i == m then FlatTrial(CandidateFirst, 1.0, Power(2.0, level + 1))
    else FlatTrial(CandidateFirst, cost, Power(2.0, level + 3))
  }

  /** `m` slow trials with the smallest gain, one fast trial and `m` slow ones with the
      largest gain. */
  function Erratic(m: nat, level: nat): Evidence
    requires m >= 1
  {
    Evidence(true, true, 0.0, 0, 1, seq(2 * m + 1, i requires 0 <= i => ErraticTrial(m, level, i)))
  }

  lemma ErraticValid(m: nat, level: nat)
    requires m >= 1
    ensures Erratic(m, level).Valid()
    ensures forall t :: t in Erratic(m, level).trials ==>
              t.Valid() && t.workerId == "w" && !t.baselineTimedOut && !t.candidateTimedOut
  {
    var trials := Erratic(m, level).trials;
    forall t | t in trials
      ensures t.Valid() && t.workerId == "w" && !t.baselineTimedOut && !t.candidateTimedOut
    {
      var i :| 0 <= i < |trials| && trials[i] == t;
      var cost := (8 * m) as real;
      FlatValid(BaselineFirst, cost, Power(2.0, level));
      FlatValid(CandidateFirst, 1.0, Power(2.0, level + 1));
      FlatValid(CandidateFirst, cost, Power(2.0, level + 3));
    }
  }

  lemma {:induction false} CompletedAll(trials: seq<Trial>)
    requires forall t :: t in trials ==> !t.candidateTimedOut
    ensures Completed(trials) == trials
  {
    if trials != [] { CompletedAll(trials[1..]); }
  }

  function FirstNats(n: nat): (r: set<nat>)
    ensures |r| == n && forall i: nat :: i in r <==> i < n
  {
    if n == 0 then {} else FirstNats(n - 1) + {n - 1}
  }

  lemma Halves(trials: seq<Trial>, m: nat)
    requires |trials| == 2 * m + 1 && m >= 1
    requires forall i :: 0 <= i < |trials| ==> (trials[i].order == BaselineFirst <==> i < m)
    ensures Interleaved(trials)
  {
    var all, low := FirstNats(2 * m + 1), FirstNats(m);
    assert InOrder(trials, BaselineFirst) == low;
    assert InOrder(trials, CandidateFirst) == all - low;
    assert low <= all;
  }

  lemma ErraticPasses(m: nat, level: nat, policy: BenchmarkPolicy)
    requires m >= 1 && policy.Valid() && 2 * m + 1 >= policy.minimumTrials
    ensures Erratic(m, level).Valid() && Refusal(Erratic(m, level), policy).None?
    ensures Completed(Erratic(m, level).trials) == Erratic(m, level).trials != []
  {
    var e := Erratic(m, level);
    ErraticValid(m, level);
    CompletedAll(e.trials);
    Halves(e.trials, m);
    BalancedIs(e.trials);
    assert TimeoutRateOf(e.trials) == 0.0 by { ZeroRate(e.trials); }
    RefusalMeans(e, policy);
    hide Refusal, Completed, Balanced, TimeoutRateOf, Erratic;
    assert SoundBenchmark(e, policy);
  }

  lemma ZeroRate(trials: seq<Trial>)
    requires Completed(trials) == trials != []
    ensures TimeoutRateOf(trials) == 0.0
  {
  }

  // ----- the reward rises ----------------------------------------------------

  /** Trials and gains enough for the policy. */
  ghost predicate Enough(m: nat, level: nat, policy: BenchmarkPolicy) {
    && m >= 2 && 2 * m + 1 >= policy.minimumTrials
    && Times((2 * m + 1) as real, policy.winsorFraction) < m as real
    && Times(Times(policy.confidenceZ, policy.confidenceZ), m as real) >= 1.0
    && level as real >= 2.0 * policy.confidenceZ > 0.0
  }

  lemma PlainMultiplier(m: nat, level: nat, policy: BenchmarkPolicy)
    requires m >= 1 && Erratic(m, level).Valid() && policy.Valid()
    ensures StorageMultiplier(Erratic(m, level), policy) == 1.0
  {
    assert Over(0.0, 1.0) == 0.0;
    ZeroTimes(policy.storagePenalty);
  }

  lemma SamplesAt(e: Evidence, horizon: nat, policy: BenchmarkPolicy, fn: Analysis, i: nat)
    requires e.Valid() && policy.Valid() && horizon >= 1 && i < |e.trials|
    requires StorageMultiplier(e, policy) == 1.0 && Completed(e.trials) == e.trials
    ensures |Samples(e, horizon, policy, fn)| == |e.trials| && e.trials[i].Valid()
    ensures Samples(e, horizon, policy, fn)[i] == LogSpeedup(e.trials[i], e.setup, horizon, 1.0, fn)
  {
    hide LogSpeedup, LogSpeedups, StorageMultiplier;
    LogSpeedupsAt(e.trials, e.setup, horizon, 1.0, fn, i);
  }

  /** The level of the gain `2^level`. */
  ghost function Level(level: nat, fn: Analysis): real { fn.log2(Power(2.0, level)) }

  lemma ErraticSamples(m: nat, level: nat, horizon: nat, policy: BenchmarkPolicy, fn: Analysis)
    requires m >= 1 && Analytic(policy, fn) && horizon >= 1
    ensures Erratic(m, level).Valid()
    ensures Levels(Samples(Erratic(m, level), horizon, policy, fn), m,
                   Level(level, fn), Level(level + 1, fn), Level(level + 3, fn))
  {
    var e := Erratic(m, level);
    ErraticValid(m, level);
    CompletedAll(e.trials);
    PlainMultiplier(m, level, policy);
    hide Samples, LogSpeedup, Completed, StorageMultiplier;
    forall i | 0 <= i < 2 * m + 1
      ensures Samples(e, horizon, policy, fn)[i]
           == if i < m then Level(level, fn) else if i == m then Level(level + 1, fn) else Level(level + 3, fn)
    {
      SamplesAt(e, horizon, policy, fn, i);
      ErraticSample(m, level, i, horizon, fn);
    }
  }

  lemma ErraticSample(m: nat, level: nat, i: nat, horizon: nat, fn: Analysis)
    requires m >= 1 && horizon >= 1
    ensures ErraticTrial(m, level, i).Valid()
    ensures LogSpeedup(ErraticTrial(m, level, i), 0.0, horizon, 1.0, fn)
         == if i < m then Level(level, fn) else if i == m then Level(level + 1, fn) else Level(level + 3, fn)
  {
    hide LogSpeedup, FlatTrial, Power;
    var cost := (8 * m) as real;
    FlatSample(BaselineFirst, cost, Power(2.0, level), horizon, fn);
    FlatSample(CandidateFirst, 1.0, Power(2.0, level + 1), horizon, fn);
    FlatSample(CandidateFirst, cost, Power(2.0, level + 3), horizon, fn);
  }

  lemma ErraticSampleFalls(m: nat, level: nat, i: nat, horizon: nat, x: real, u: real, fn: Analysis)
    requires m >= 1 && horizon >= 1 && fn.PowerLaws()
    requires Times(x, Times(horizon as real, (8 * m) as real)) == 1.0 && Times(u, Times(horizon as real, 1.0)) == 1.0
    ensures ErraticTrial(m, level, i).Valid()
    ensures LogSpeedup(ErraticTrial(m, level, i), 1.0, horizon, 1.0, fn)
         == if i < m then Level(level, fn) - Fall(x, fn)
            else if i == m then Level(level + 1, fn) - Fall(u, fn)
            else Level(level + 3, fn) - Fall(x, fn)
  {
    hide LogSpeedup, FlatTrial, Power, Times, Fall;
    var cost := (8 * m) as real;
    FlatSampleFalls(BaselineFirst, cost, Power(2.0, level), horizon, x, fn);
    FlatSampleFalls(CandidateFirst, 1.0, Power(2.0, level + 1), horizon, u, fn);
    FlatSampleFalls(CandidateFirst, cost, Power(2.0, level + 3), horizon, x, fn);
  }

  lemma ErraticSamplesFall(
      m: nat, level: nat, horizon: nat, x: real, u: real, policy: BenchmarkPolicy, fn: Analysis)
    requires m >= 1 && Analytic(policy, fn) && horizon >= 1
    requires Times(x, Times(horizon as real, (8 * m) as real)) == 1.0 && Times(u, Times(horizon as real, 1.0)) == 1.0
    ensures WithSetup(Erratic(m, level), 1.0).Valid()
    ensures Levels(Samples(WithSetup(Erratic(m, level), 1.0), horizon, policy, fn), m,
                   Level(level, fn) - Fall(x, fn), Level(level + 1, fn) - Fall(u, fn),
                   Level(level + 3, fn) - Fall(x, fn))
  {
    var e := Erratic(m, level);
    ErraticValid(m, level);
    CompletedAll(e.trials);
    PlainMultiplier(m, level, policy);
    RefusalIgnoresSetup(e, 1.0, policy);
    var f := WithSetup(e, 1.0);
    hide Samples, LogSpeedup, Completed, StorageMultiplier, Refusal, Times, Fall;
    forall i | 0 <= i < 2 * m + 1
      ensures Samples(f, horizon, policy, fn)[i]
           == if i < m then Level(level, fn) - Fall(x, fn)
              else if i == m then Level(level + 1, fn) - Fall(u, fn)
              else Level(level + 3, fn) - Fall(x, fn)
    {
      SamplesAt(f, horizon, policy, fn, i);
      ErraticSampleFalls(m, level, i, horizon, x, u, fn);
    }
  }

  lemma LevelSteps(level: nat, fn: Analysis)
    requires fn.PowerLaws()
    ensures var c := fn.log2(2.0);
            && c > 0.0
            && Level(level, fn) == Times(level as real, c)
            && Level(level + 1, fn) == Level(level, fn) + c
            && Level(level + 3, fn) == Level(level, fn) + 3.0 * c
  {
    var c := fn.log2(2.0);
    LogOfOne(fn);
    LogIncreases(2.0, 1.0, fn);
    LogPower(2.0, level, fn);
    LogPower(2.0, level + 1, fn);
    LogPower(2.0, level + 3, fn);
    ScaleByCount(level + 1, c);
    ScaleByCount(level + 2, c);
    ScaleByCount(level + 3, c);
    hide Times, Power;
  }

  /** The fractions of the two kinds of cost that a setup of one adds. */
  lemma Fractions(m: nat, horizon: nat) returns (x: real, u: real)
    requires m >= 1 && horizon >= 1
    ensures Times(x, Times(horizon as real, (8 * m) as real)) == 1.0
    ensures Times(u, Times(horizon as real, 1.0)) == 1.0
    ensures x > 0.0 && 0.0 < u <= 1.0 && u == 2.0 * Times((4 * m) as real, x)
  {
    var h, k := horizon as real, (8 * m) as real;
    u := Over(1.0, h);
    x := Over(u, k);
    PositiveRatio(1.0, h);
    PositiveRatio(u, k);
    OverTimes(1.0, h);
    OverTimes(u, k);
    assert Times(x, Times(h, k)) == Times(Times(x, k), h) by { Regrouped(x, h, k); }
    assert Times(h, 1.0) == h;
    assert 2.0 * Times((4 * m) as real, x) == Times(x, k);
    assert u <= 1.0 by { OverMonotone(1.0, h, h); WholeOver(h); }
  }

  lemma Regrouped(x: real, h: real, k: real)
    ensures Times(x, Times(h, k)) == Times(Times(x, k), h)
  {
    assert x * (h * k) == (x * k) * h;
  }

  /** Before the setup rises, the bound is positive. */
  lemma LevelsPositive(m: nat, level: nat, c: real, z: real, r: real, a: real)
    requires m >= 1 && c > 0.0 && level as real >= 2.0 * z > 0.0
    requires r > 0.0 && Times(r, r) == (2 * m + 1) as real && a == Times(level as real, c)
    ensures LowerOfLevels(m, a, a + c, a + 3.0 * c, z, r) > 0.0
  {
    var n, k, spread := (2 * m + 1) as real, m as real, Times(MAD_SCALE, (a + c) - a);
    var sum := Times(k, a) + (a + c) + Times(k, a + 3.0 * c);
    ProductNonNegative(k, c);
    assert sum == Times(a, n) + c + 3.0 * Times(k, c);
    assert 0.0 < spread == 1.4826 * c;
    assert LowerOfLevels(m, a, a + c, a + 3.0 * c, z, r) == Over(sum, n) - Times(z, Over(spread, r));
    hide LowerOfLevels;
    OverMonotone(Times(a, n), sum, n);
    TimesOver(a, n);
    RootAtLeastOne(r, n);
    DearerQuotient(spread, 1.0, r);
    assert Over(spread, 1.0) == spread;
    WeighedMonotone(z, Over(spread, r), spread);
    MarginBelow(z, c, level as real);
  }

  lemma MarginBelow(z: real, c: real, level: real)
    requires z > 0.0 && c > 0.0 && level >= 2.0 * z
    ensures Times(z, 1.4826 * c) < Times(level, c)
  {
    ProductNonNegative(z, c);
    ProductNonNegative(level - 2.0 * z, c);
    assert Times(level, c) == Times(level - 2.0 * z, c) + 2.0 * Times(z, c);
    assert Times(z, 1.4826 * c) == 1.4826 * Times(z, c);
  }

  lemma RootAtLeastOne(r: real, n: real)
    requires r > 0.0 && Times(r, r) == n >= 1.0
    ensures r >= 1.0
  {
    if r < 1.0 { WeighedMonotone(r, r, 1.0); }
  }

  /** The bounds of the levels before and after: positive and rising. */
  lemma LevelsRise(m: nat, level: nat, c: real, z: real, r: real, a: real, slow: real, fast: real)
    requires m >= 1 && c > 0.0 && level as real >= 2.0 * z > 0.0 && a == Times(level as real, c)
    requires r > 0.0 && Times(r, r) == (2 * m + 1) as real && Times(Times(z, z), m as real) >= 1.0
    requires slow > 0.0 && Times((4 * m) as real, slow) <= fast
    ensures 0.0 < LowerOfLevels(m, a, a + c, a + 3.0 * c, z, r)
                < LowerOfLevels(m, a - slow, (a + c) - fast, (a + 3.0 * c) - slow, z, r)
  {
    hide *;
    LevelsPositive(m, level, c, z, r, a);
    LowerMoves(m, a, a + c, a + 3.0 * c, slow, fast, z, r);
    MarginFallsMore(m, slow, fast, z, r);
  }

  lemma ErraticLower(m: nat, level: nat, horizon: nat, policy: BenchmarkPolicy, fn: Analysis)
    requires Analytic(policy, fn) && Enough(m, level, policy) && horizon >= 1 && fn.root(2 * m + 1) > 0.0
    requires Erratic(m, level).Valid() && Completed(Erratic(m, level).trials) != []
    ensures LowerOf(Erratic(m, level), horizon, policy, fn)
         == LowerOfLevels(m, Level(level, fn), Level(level + 1, fn), Level(level + 3, fn),
                          policy.confidenceZ, fn.root(2 * m + 1))
  {
    var v := Samples(Erratic(m, level), horizon, policy, fn);
    assert LowerOf(Erratic(m, level), horizon, policy, fn) == LowerLog(v, policy, fn);
    assert policy.Valid() && fn.PowerLaws() && fn.RootLaws();
    assert m >= 2 && Times((2 * m + 1) as real, policy.winsorFraction) < m as real;
    hide *;
    LevelSteps(level, fn);
    ErraticSamples(m, level, horizon, policy, fn);
    LevelsLower(v, m, Level(level, fn), Level(level + 1, fn), Level(level + 3, fn), policy, fn);
  }

  lemma ErraticLowerAfter(
      m: nat, level: nat, horizon: nat, x: real, u: real, a: real, b: real, d: real, policy: BenchmarkPolicy,
      fn: Analysis)
    requires Analytic(policy, fn) && Enough(m, level, policy) && horizon >= 1 && fn.root(2 * m + 1) > 0.0
    requires WithSetup(Erratic(m, level), 1.0).Valid()
    requires Completed(WithSetup(Erratic(m, level), 1.0).trials) != []
    requires Times(x, Times(horizon as real, (8 * m) as real)) == 1.0 && Times(u, Times(horizon as real, 1.0)) == 1.0
    requires a == Level(level, fn) - Fall(x, fn) && b == Level(level + 1, fn) - Fall(u, fn)
    requires d == Level(level + 3, fn) - Fall(x, fn) && a <= b <= d && b - a <= d - b
    ensures LowerOf(WithSetup(Erratic(m, level), 1.0), horizon, policy, fn)
         == LowerOfLevels(m, a, b, d, policy.confidenceZ, fn.root(2 * m + 1))
  {
    var f := WithSetup(Erratic(m, level), 1.0);
    var w := Samples(f, horizon, policy, fn);
    assert LowerOf(f, horizon, policy, fn) == LowerLog(w, policy, fn);
    assert policy.Valid() && fn.RootLaws();
    assert m >= 2 && Times((2 * m + 1) as real, policy.winsorFraction) < m as real;
    hide *;
    ErraticSamplesFall(m, level, horizon, x, u, policy, fn);
    LevelsLower(w, m, a, b, d, policy, fn);
  }

  lemma EnoughMeans(m: nat, level: nat, policy: BenchmarkPolicy, fn: Analysis)
    requires Analytic(policy, fn) && Enough(m, level, policy)
    ensures fn.PowerLaws() && m >= 2
    ensures var z, r := policy.confidenceZ, fn.root(2 * m + 1);
            && r > 0.0 && Times(r, r) == (2 * m + 1) as real
            && level as real >= 2.0 * z > 0.0 && Times(Times(z, z), m as real) >= 1.0
  {
  }

  /** The lower confidence bound is positive and rises with the setup. */
  lemma ErraticRises(m: nat, level: nat, horizon: nat, policy: BenchmarkPolicy, fn: Analysis)
    requires Analytic(policy, fn) && Enough(m, level, policy) && horizon >= 1
    requires Erratic(m, level).Valid() && WithSetup(Erratic(m, level), 1.0).Valid()
    requires Completed(Erratic(m, level).trials) != []
    ensures 0.0 < LowerOf(Erratic(m, level), horizon, policy, fn)
                < LowerOf(WithSetup(Erratic(m, level), 1.0), horizon, policy, fn)
  {
    hide *;
    EnoughMeans(m, level, policy, fn);
    var z, r, c := policy.confidenceZ, fn.root(2 * m + 1), fn.log2(2.0);
    var x, u := Fractions(m, horizon);
    FallsCompare(m, u, x, fn);
    LevelSteps(level, fn);
    FallsAdd(m, Fall(x, fn), Fall(u, fn));
    var a, slow, fast := Level(level, fn), Fall(x, fn), Fall(u, fn);
    SameTrials(Erratic(m, level), 1.0);
    ErraticLower(m, level, horizon, policy, fn);
    ErraticLowerAfter(m, level, horizon, x, u, a - slow, (a + c) - fast, (a + 3.0 * c) - slow, policy, fn);
    LevelsRise(m, level, c, z, r, a, slow, fast);
  }

  lemma SomeWeight(weights: seq<real>) returns (i: nat)
    requires Sum(weights) > 0.0
    ensures i < |weights| && weights[i] > 0.0
  {
    if weights[0] > 0.0 {
      i := 0;
    } else {
      var j := SomeWeight(weights[1..]);
      i := j + 1;
    }
  }

  lemma WeightsSum(policy: BenchmarkPolicy)
    requires policy.Valid()
    ensures Sum(policy.horizonWeights) > 0.0
  {
    if Sum(policy.horizonWeights) <= 0.0 { FarFromOne(Sum(policy.horizonWeights)); }
  }

  lemma FarFromOne(x: real)
    requires x <= 0.0
    ensures !CloseToOne(x)
  {
    var top := MaxReal(Abs(x), 1.0);
    assert Abs(x - 1.0) == 1.0 - x && top <= 1.0 - x;
    assert Times(0.000000001, top) == 0.000000001 * top;
  }

  /** The reward of the erratic candidate rises when its setup rises from zero to one. */
  lemma ErraticEarnsMore(m: nat, level: nat, policy: BenchmarkPolicy, fn: Analysis)
    requires Analytic(policy, fn) && Enough(m, level, policy)
    ensures Erratic(m, level).Valid() && WithSetup(Erratic(m, level), 1.0).Valid()
    ensures Score(Erratic(m, level), policy, fn).reward
          < Score(WithSetup(Erratic(m, level), 1.0), policy, fn).reward
  {
    var e, f := Erratic(m, level), WithSetup(Erratic(m, level), 1.0);
    assert policy.Valid() && m >= 2 && 2 * m + 1 >= policy.minimumTrials;
    hide *;
    ErraticPasses(m, level, policy);
    RefusalIgnoresSetup(e, 1.0, policy) by { ErraticSetup(m, level); }
    SameTrials(e, 1.0);
    ErraticLowersRise(m, level, policy, fn);
    RewardsFollow(e, f, policy, fn);
  }

  lemma ErraticSetup(m: nat, level: nat)
    requires m >= 1
    ensures Erratic(m, level).setup == 0.0
  {
  }

  lemma ErraticLowersRise(m: nat, level: nat, policy: BenchmarkPolicy, fn: Analysis)
    requires Analytic(policy, fn) && Enough(m, level, policy)
    requires Erratic(m, level).Valid() && WithSetup(Erratic(m, level), 1.0).Valid()
    requires Completed(Erratic(m, level).trials) != []
    requires Completed(WithSetup(Erratic(m, level), 1.0).trials) != []
    ensures LowersAtMost(Erratic(m, level), WithSetup(Erratic(m, level), 1.0), policy, fn)
    ensures LowerSomewhere(Erratic(m, level), WithSetup(Erratic(m, level), 1.0), policy, fn)
  {
    var e, f := Erratic(m, level), WithSetup(Erratic(m, level), 1.0);
    assert forall i :: 0 <= i < |policy.horizons| ==> policy.horizons[i] >= 1;
    WeightsSum(policy);
    var k := SomeWeight(policy.horizonWeights);
    assert k < |policy.horizons|;
    hide Erratic, WithSetup, Completed, Enough, Analytic, LowerOf;
    forall i | 0 <= i < |policy.horizons|
      ensures 0.0 < LowerOf(e, policy.horizons[i], policy, fn) < LowerOf(f, policy.horizons[i], policy, fn)
    {
      ErraticRises(m, level, policy.horizons[i], policy, fn);
    }
  }

  function AtLeast(x: real): (n: nat)
    requires x >= 0.0
    ensures n as real >= x
  {
    x.Floor + 1
  }

  lemma EnoughExists(policy: BenchmarkPolicy) returns (m: nat, level: nat)
    requires policy.Valid() && policy.confidenceZ > 0.0
    ensures Enough(m, level, policy)
  {
    var z, f := policy.confidenceZ, policy.winsorFraction;
    ProductNonNegative(z, z);
    PositiveRatio(1.0, Times(z, z));
    var gap := 1.0 - 2.0 * f;
    var p, q := Over(f, gap), Over(1.0, Times(z, z));
    assert p >= 0.0;
    m := AtLeast(p) + AtLeast(q) + policy.minimumTrials + 2;
    level := AtLeast(2.0 * z);
    OverTimes(f, gap);
    OverTimes(1.0, Times(z, z));
    WeighedMonotone(gap, p + 1.0, m as real);
    assert Times(gap, p + 1.0) == f + gap > f;
    assert Times(gap, m as real) == m as real - 2.0 * Times(m as real, f);
    assert Times((2 * m + 1) as real, f) == 2.0 * Times(m as real, f) + f;
    WeighedMonotone(Times(z, z), q, m as real);
    TimesFlip(Times(z, z), q);
  }

  /** A larger setup never raises the reward of any candidate exactly when the policy
      subtracts no margin for confidence. */
  lemma SetupNeverHelpsIff(policy: BenchmarkPolicy, fn: Analysis)
    requires Analytic(policy, fn)
    ensures SetupNeverHelps(policy, fn) <==> policy.confidenceZ == 0.0
  {
    if policy.confidenceZ == 0.0 {
      SetupHelpsNobody(policy, fn);
    } else {
      var m, level := EnoughExists(policy);
      ErraticEarnsMore(m, level, policy, fn);
      var e := Erratic(m, level);
      assert e.setup <= 1.0;
      hide Score, Erratic, Enough;
    }
  }
}
