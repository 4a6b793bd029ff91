/** Homogeneity of the aggregate: if every gated reward of a miner is multiplied by one
    factor, so are its family scores, centre, uncertainty and reward, while every gate,
    ratio and portfolio digest stays as it was. */
module AggregationScaling {
  import opened Statistics
  import opened Wrappers
  import opened Deduplication
  import opened Aggregation

  /** `b` is `a` under another identity with its passing rewards multiplied by `c`. */
  ghost predicate Thinned(a: seq<Observation>, b: seq<Observation>, id: string, c: real) {
    && |a| == |b|
    && forall i :: 0 <= i < |a| ==> ThinnedOne(a[i], b[i], id, c)
  }

  ghost predicate ThinnedOne(x: Observation, y: Observation, id: string, c: real) {
    y == x.(minerId := id,
            reward := if Passing(x) then Times(c, x.reward) else x.reward,
            duplicateGroupSize := y.duplicateGroupSize)
  }

  function ScaledAggregate(g: MinerAggregate, id: string, c: real): MinerAggregate {
    g.(minerId := id,
       reward := Times(c, g.reward),
       center := Times(c, g.center),
       uncertainty := Times(c, g.uncertainty),
       familyScores := Scale(c, g.familyScores))
  }

  // ----- what thinning keeps -------------------------------------------------

  lemma {:induction false} ThinnedObserved(a: seq<Observation>, b: seq<Observation>, id: string, c: real, task: string)
    requires Thinned(a, b, id, c)
    ensures Observed(a, task).Some? <==> Observed(b, task).Some?
    ensures Observed(a, task).Some? ==> ThinnedOne(Observed(a, task).value, Observed(b, task).value, id, c)
  {
    if a != [] {
      assert ThinnedOne(a[0], b[0], id, c);
      ThinnedObserved(a[1..], b[1..], id, c, task);
    }
  }

  lemma ThinnedFaultAt(
      a: seq<Observation>, b: seq<Observation>, id: string, c: real, i: nat, schedule: seq<ScheduledTask>)
    requires Thinned(a, b, id, c) && i < |a|
    ensures FaultAt(b, i, schedule) == FaultAt(a, i, schedule)
  {
    assert ThinnedOne(a[i], b[i], id, c);
    ThinnedObserved(a[..i], b[..i], id, c, a[i].taskId);
  }

  lemma {:induction false} ThinnedFault(
      a: seq<Observation>, b: seq<Observation>, id: string, c: real, i: nat, schedule: seq<ScheduledTask>)
    requires Thinned(a, b, id, c) && i <= |a|
    ensures FirstFault(b, i, schedule) == FirstFault(a, i, schedule)
    decreases |a| - i
  {
    if i < |a| {
      ThinnedFaultAt(a, b, id, c, i, schedule);
      ThinnedFault(a, b, id, c, i + 1, schedule);
    }
  }

  lemma {:induction false} ThinnedCount(
      a: seq<Observation>, b: seq<Observation>, id: string, c: real, p: Observation -> bool)
    requires Thinned(a, b, id, c)
    requires forall x, y :: ThinnedOne(x, y, id, c) ==> p(x) == p(y)
    ensures Count(b, p) == Count(a, p)
  {
    if a != [] {
      assert ThinnedOne(a[0], b[0], id, c);
      ThinnedCount(a[1..], b[1..], id, c, p);
    }
  }

  lemma ThinnedCounts(a: seq<Observation>, b: seq<Observation>, id: string, c: real)
    requires Thinned(a, b, id, c)
    ensures Count(b, IsAvailable()) == Count(a, IsAvailable())
    ensures Count(b, IsAvailableAndCompliant()) == Count(a, IsAvailableAndCompliant())
    ensures Count(b, IsAvailableAndCorrect()) == Count(a, IsAvailableAndCorrect())
    ensures forall f :: Count(b, IsAvailableIn(f)) == Count(a, IsAvailableIn(f))
  {
    ThinnedCount(a, b, id, c, IsAvailable());
    ThinnedCount(a, b, id, c, IsAvailableAndCompliant());
    ThinnedCount(a, b, id, c, IsAvailableAndCorrect());
    forall f ensures Count(b, IsAvailableIn(f)) == Count(a, IsAvailableIn(f)) {
      ThinnedCount(a, b, id, c, IsAvailableIn(f));
    }
  }

  lemma ThinnedPortfolios(a: seq<Observation>, b: seq<Observation>, id: string, c: real)
    requires Thinned(a, b, id, c)
    ensures StrategyPortfolio(b) == StrategyPortfolio(a)
    ensures BehaviorPortfolio(b) == BehaviorPortfolio(a)
  {
    forall o | o in a ensures exists p :: p in b && ThinnedOne(o, p, id, c) {
      var i :| 0 <= i < |a| && a[i] == o;
      assert b[i] in b;
    }
    forall p | p in b ensures exists o :: o in a && ThinnedOne(o, p, id, c) {
      var i :| 0 <= i < |b| && b[i] == p;
      assert a[i] in a;
    }
  }

  lemma ThinnedGated(a: seq<Observation>, b: seq<Observation>, id: string, c: real, task: string)
    requires Thinned(a, b, id, c)
    ensures GatedReward(b, task) == Times(c, GatedReward(a, task))
  {
    ThinnedObserved(a, b, id, c, task);
  }

  lemma {:induction false} ThinnedBucket(
      schedule: seq<ScheduledTask>, a: seq<Observation>, b: seq<Observation>, id: string, c: real, family: string)
    requires Thinned(a, b, id, c)
    ensures Bucket(schedule, b, family) == Scale(c, Bucket(schedule, a, family))
  {
    if schedule != [] {
      ThinnedBucket(schedule[1..], a, b, id, c, family);
      ThinnedGated(a, b, id, c, schedule[0].taskId);
      hide GatedReward, Times;
      var rest := Bucket(schedule[1..], a, family);
      assert ([GatedReward(a, schedule[0].taskId)] + rest)[1..] == rest;
    }
  }

  // ----- what it scales ------------------------------------------------------

  lemma MaxScale(c: real, x: real)
    requires c > 0.0
    ensures MaxReal(0.0, Times(c, x)) == Times(c, MaxReal(0.0, x))
  {
    OrderScale(c, x, 0.0);
  }

  lemma LowerBoundScale(c: real, v: seq<real>, policy: Policy, fn: Analysis)
    requires c > 0.0 && v != [] && 0.0 <= policy.winsorFraction < 0.5 && fn.RootLaws()
    ensures LowerBound(Scale(c, v), policy, fn) == Times(c, LowerBound(v, policy, fn))
  {
    hide Times, WinsorizedMean, RobustStandardError, Scale, MaxReal;
    WinsorizedMeanScale(c, v, policy.winsorFraction, 0);
    RobustStandardErrorScale(c, v, fn);
    var m, s := WinsorizedMean(v, policy.winsorFraction, 0), RobustStandardError(v, fn);
    TimesCommute(policy.confidenceZ, c, s);
    TimesDifference(c, m, Times(policy.confidenceZ, s));
    MaxScale(c, m - Times(policy.confidenceZ, s));
  }

  lemma {:induction false} ThinnedScores(
      families: seq<string>, a: seq<Observation>, b: seq<Observation>, id: string, c: real,
      policy: Policy, fn: Analysis)
    requires Thinned(a, b, id, c) && c > 0.0
    requires 0.0 <= policy.winsorFraction < 0.5 && fn.RootLaws()
    requires forall f :: f in families ==> ScheduledCount(policy.taskSchedule, f) >= 1
    ensures Scores(families, b, policy, fn) == Scale(c, Scores(families, a, policy, fn))
  {
    if families != [] {
      var f := families[0];
      assert f in families;
      ThinnedScores(families[1..], a, b, id, c, policy, fn);
      ThinnedBucket(policy.taskSchedule, a, b, id, c, f);
      BucketSize(policy.taskSchedule, a, f);
      LowerBoundScale(c, Bucket(policy.taskSchedule, a, f), policy, fn);
      hide LowerBound, Bucket, Times;
      var rest := Scores(families[1..], a, policy, fn);
      assert ([LowerBound(Bucket(policy.taskSchedule, a, f), policy, fn)] + rest)[1..] == rest;
    }
  }

  function Shift(t: real, v: seq<real>): (r: seq<real>)
    ensures |r| == |v|
  {
    if v == [] then [] else [t + v[0]] + Shift(t, v[1..])
  }

  lemma {:induction false} SumShift(t: real, v: seq<real>)
    ensures Sum(Shift(t, v)) == Times(|v| as real, t) + Sum(v)
  {
    if v != [] {
      SumShift(t, v[1..]);
      ScaleByCount(|v|, t);
      assert Shift(t, v)[1..] == Shift(t, v[1..]);
    }
  }

  lemma MeanShift(t: real, v: seq<real>)
    requires v != []
    ensures Mean(Shift(t, v)) == t + Mean(v)
  {
    hide Times, Over, Sum;
    SumShift(t, v);
    var n := |v| as real;
    TimesOver(t, n);
    OverSum(Times(t, n), Sum(v), n);
    TimesFlip(n, t);
  }

  lemma {:induction false} LogsScale(c: real, v: seq<real>, fn: Analysis)
    requires fn.LogLaws() && c > 0.0 && AllPositive(v)
    ensures Logs(Scale(c, v), fn) == Shift(fn.log(c), Logs(v, fn))
  {
    if v != [] {
      assert AllPositive(v[1..]);
      LogsScale(c, v[1..], fn);
      assert v[0] > 0.0;
      assert Scale(c, v)[1..] == Scale(c, v[1..]);
      assert fn.log(Times(c, v[0])) == fn.log(c) + fn.log(v[0]);
      assert Logs(v, fn)[1..] == Logs(v[1..], fn);
    }
  }

  lemma AllPositiveScale(c: real, v: seq<real>)
    requires c > 0.0
    ensures AllPositive(Scale(c, v)) <==> AllPositive(v)
  {
    forall i | 0 <= i < |v| ensures Scale(c, v)[i] > 0.0 <==> v[i] > 0.0 {
      ScaleAt(c, v, i);
      OrderScale(c, v[i], 0.0);
      assert Times(c, 0.0) == 0.0;
    }
  }

  lemma ExpOfShifted(c: real, m: real, fn: Analysis)
    requires fn.LogLaws() && c > 0.0
    ensures fn.exp(fn.log(c) + m) == Times(c, fn.exp(m))
  {
    assert Times(fn.exp(fn.log(c)), fn.exp(m)) == fn.exp(fn.log(c) + m);
  }

  /** The geometric mean is homogeneous; this follows from the laws of log and exp. */
  lemma GeometricMeanScale(c: real, v: seq<real>, fn: Analysis)
    requires fn.LogLaws() && c > 0.0 && v != []
    ensures GeometricMean(Scale(c, v), fn) == Times(c, GeometricMean(v, fn))
  {
    AllPositiveScale(c, v);
    if AllPositive(v) {
      LogsScale(c, v, fn);
      MeanShift(fn.log(c), Logs(v, fn));
      ExpOfShifted(c, Mean(Logs(v, fn)), fn);
    }
  }

  lemma PortfolioScale(c: real, scores: seq<real>, policy: Policy, fn: Analysis)
    requires fn.LogLaws() && fn.RootLaws() && c > 0.0 && scores != []
    ensures Portfolio(Scale(c, scores), policy, fn)
         == (Times(c, Portfolio(scores, policy, fn).0), Times(c, Portfolio(scores, policy, fn).1))
  {
    hide Times, GeometricMean, RobustStandardError, Scale;
    GeometricMeanScale(c, scores, fn);
    RobustStandardErrorScale(c, scores, fn);
    TimesCommute(policy.confidenceZ, c, RobustStandardError(scores, fn));
  }

  lemma RewardScale(c: real, center: real, uncertainty: real, availability: real, compliance: real)
    requires c > 0.0
    ensures Times(Times(MaxReal(0.0, Times(c, center) - Times(c, uncertainty)), availability), compliance)
         == Times(c, Times(Times(MaxReal(0.0, center - uncertainty), availability), compliance))
  {
    var x := center - uncertainty;
    TimesDifference(c, center, uncertainty);
    MaxScale(c, x);
    ProductScale(c, MaxReal(0.0, x), availability, compliance);
  }

  lemma ProductScale(c: real, x: real, a: real, b: real)
    ensures Times(Times(Times(c, x), a), b) == Times(c, Times(Times(x, a), b))
  {
  }

  lemma SignScale(c: real, x: real)
    requires c > 0.0
    ensures Times(c, x) <= 0.0 <==> x <= 0.0
    ensures Times(c, 0.0) == 0.0
  {
    OrderScale(c, x, 0.0);
    assert Times(c, 0.0) == 0.0;
  }

  lemma ThinnedGate(
      a: seq<Observation>, b: seq<Observation>, id: string, c: real, policy: Policy,
      availability: real, compliance: real, correctness: real, scores: seq<real>, reward: real)
    requires Thinned(a, b, id, c) && c > 0.0
    ensures Gate(b, policy, availability, compliance, correctness, Scale(c, scores), Times(c, reward))
         == Gate(a, policy, availability, compliance, correctness, scores, reward)
  {
    hide Times, Scale, Thinned, ThinnedOne, Count;
    ThinnedCounts(a, b, id, c);
    AllPositiveScale(c, scores);
    SignScale(c, reward);
    assert FamiliesCovered(a, policy) == FamiliesCovered(b, policy);
  }

  lemma ThinnedSummary(
      m: string, a: seq<Observation>, b: seq<Observation>, id: string, c: real, policy: Policy, env: Env)
    requires Usable(policy, env) && env.fn.LogLaws() && Thinned(a, b, id, c) && c > 0.0
    ensures Summarize(id, b, policy, env) == ScaledAggregate(Summarize(m, a, policy, env), id, c)
  {
    hide Times, Portfolio, Ratio, Scale, Thinned, ThinnedOne, Count, MaxReal, Gate,
         AllPositive, StrategyPortfolio, BehaviorPortfolio, Scores;
    ThinnedCounts(a, b, id, c);
    ThinnedPortfolios(a, b, id, c);
    ThinnedScores(policy.requiredFamilies, a, b, id, c, policy, env.fn);
    var scores := Scores(policy.requiredFamilies, a, policy, env.fn);
    PortfolioScale(c, scores, policy, env.fn);
    var (center, uncertainty) := Portfolio(scores, policy, env.fn);
    var availability := Ratio(Count(a, IsAvailable()), |policy.taskSchedule|);
    var compliance := Ratio(Count(a, IsAvailableAndCompliant()), Count(a, IsAvailable()));
    var correctness := Ratio(Count(a, IsAvailableAndCorrect()), Count(a, IsAvailable()));
    RewardScale(c, center, uncertainty, availability, compliance);
    var reward := Times(Times(MaxReal(0.0, center - uncertainty), availability), compliance);
    SignScale(c, reward);
    ThinnedGate(a, b, id, c, policy, availability, compliance, correctness, scores, reward);
  }

  /** The homogeneity of the whole aggregation of one miner. */
  lemma ThinnedAggregate(
      m: string, a: seq<Observation>, b: seq<Observation>, id: string, c: real, policy: Policy, env: Env)
    requires Usable(policy, env) && env.fn.LogLaws() && Thinned(a, b, id, c) && c > 0.0
    ensures AggregateMiner(id, b, policy, env)
         == match AggregateMiner(m, a, policy, env)
            case Err(f) => Err(f)
            case Ok(g) => Ok(ScaledAggregate(g, id, c))
  {
    ThinnedFault(a, b, id, c, 0, policy.taskSchedule);
    ThinnedSummary(m, a, b, id, c, policy, env);
  }
}
