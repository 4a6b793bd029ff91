/** What `_aggregate_scheduled_miner` reports, in the terms of planrace/scoring_v2.py:598-700
    and of no function of the model: the rates as shares of positions, the family scores
    from the rewards of the scheduled tasks, the center as the geometric mean of the family
    scores, and the reward. */
module AggregationMeaning {
  import opened Statistics
  import opened Wrappers
  import opened Deduplication
  import opened Aggregation
  import opened AggregationLaws

  // ----- the geometric mean --------------------------------------------------

  function Product(v: seq<real>): real {
    if v == [] then 1.0 else Times(v[0], Product(v[1..]))
  }

  lemma ExpOfZero(fn: Analysis)
    requires fn.LogLaws()
    ensures fn.exp(0.0) == 1.0
  {
    var e := fn.exp(0.0);
    assert Times(e, e) == fn.exp(0.0 + 0.0) == e;
    hide Times, Over;
    TimesOver(e, e);
    WholeOver(e);
  }

  lemma {:induction false} ExpOfSum(v: seq<real>, fn: Analysis)
    requires fn.LogLaws() && AllPositive(v)
    ensures fn.exp(Sum(Logs(v, fn))) == Product(v)
  {
    if v == [] {
      ExpOfZero(fn);
    } else {
      assert AllPositive(v[1..]);
      ExpOfSum(v[1..], fn);
      assert Logs(v, fn)[1..] == Logs(v[1..], fn);
      ExpOfTwo(fn.log(v[0]), Sum(Logs(v[1..], fn)), fn);
      hide Times;
    }
  }

  ghost predicate AllAre(c: seq<real>, x: real) {
    forall i :: 0 <= i < |c| ==> c[i] == x
  }

  lemma {:induction false} ExpOfCopies(c: seq<real>, x: real, fn: Analysis)
    requires fn.LogLaws() && AllAre(c, fn.exp(x))
    ensures Product(c) == fn.exp(Times(|c| as real, x))
  {
    if c == [] {
      ExpOfZero(fn);
      ZeroTimes(x);
    } else {
      var rest := c[1..];
      assert AllAre(rest, fn.exp(x)) && c[0] == fn.exp(x) && |rest| == |c| - 1;
      assert Product(c) == Times(fn.exp(x), Product(rest));
      ExpOfCopies(rest, x, fn);
      hide Product, AllAre, Times;
      ScaleByCount(|c|, x);
      ExpOfTwo(x, Times(|rest| as real, x), fn);
    }
  }

  lemma ExpOfTwo(x: real, y: real, fn: Analysis)
    requires fn.LogLaws()
    ensures Times(fn.exp(x), fn.exp(y)) == fn.exp(x + y)
  {
  }

  /** As many copies of the geometric mean have the same product as the scores. */
  lemma GeometricMeanIs(v: seq<real>, c: seq<real>, fn: Analysis)
    requires fn.LogLaws() && v != [] && AllPositive(v) && |c| == |v|
    requires AllAre(c, GeometricMean(v, fn))
    ensures Product(c) == Product(v) && GeometricMean(v, fn) > 0.0
  {
    var mean := Mean(Logs(v, fn));
    assert GeometricMean(v, fn) == fn.exp(mean) > 0.0;
    hide Times, Over;
    ExpOfCopies(c, mean, fn);
    ExpOfSum(v, fn);
    assert Times(|v| as real, mean) == Sum(Logs(v, fn)) by { Undivided(Sum(Logs(v, fn)), |v|); }
  }

  lemma Undivided(x: real, n: nat)
    requires n > 0
    ensures Times(n as real, Over(x, n as real)) == x
  {
    OverTimes(x, n as real);
  }

  // ----- counts --------------------------------------------------------------

  /** The positions of the available observations. */
  ghost function AvailableAt(obs: seq<Observation>): set<nat> {
    set i | 0 <= i < |obs| && obs[i].available
  }

  ghost function CompliantAt(obs: seq<Observation>): set<nat> {
    set i | 0 <= i < |obs| && obs[i].available && obs[i].compliant
  }

  ghost function CorrectAt(obs: seq<Observation>): set<nat> {
    set i | 0 <= i < |obs| && obs[i].available && obs[i].correct
  }

  ghost function AvailableInAt(obs: seq<Observation>, family: string): set<nat> {
    set i | 0 <= i < |obs| && obs[i].available && obs[i].family == family
  }

  ghost function Where(obs: seq<Observation>, p: Observation -> bool): set<nat> {
    set i | 0 <= i < |obs| && p(obs[i])
  }

  lemma WhereSnoc(rest: seq<Observation>, o: Observation, p: Observation -> bool)
    ensures |Where(rest + [o], p)| == |Where(rest, p)| + if p(o) then 1 else 0
  {
    var was, now := Where(rest, p), Where(rest + [o], p);
    assert forall i :: i in was ==> i in now;
    assert forall i :: i in now ==> i in was || (i == |rest| && p(o));
    assert |rest| !in was;
    if p(o) { assert now == was + {|rest|}; } else { assert now == was; }
  }

  lemma {:induction false} CountIs(obs: seq<Observation>, p: Observation -> bool)
    ensures Count(obs, p) == |Where(obs, p)|
  {
    if obs != [] {
      var rest, o := obs[..|obs| - 1], obs[|obs| - 1];
      assert obs == rest + [o];
      CountIs(rest, p);
      CountAppend(rest, [o], p);
      WhereSnoc(rest, o, p);
      hide Where;
    }
  }

  lemma CountsAre(obs: seq<Observation>)
    ensures Count(obs, IsAvailable()) == |AvailableAt(obs)|
    ensures Count(obs, IsAvailableAndCompliant()) == |CompliantAt(obs)|
    ensures Count(obs, IsAvailableAndCorrect()) == |CorrectAt(obs)|
  {
    CountIs(obs, IsAvailable());
    CountIs(obs, IsAvailableAndCompliant());
    CountIs(obs, IsAvailableAndCorrect());
    assert Where(obs, IsAvailable()) == AvailableAt(obs);
    assert Where(obs, IsAvailableAndCompliant()) == CompliantAt(obs);
    assert Where(obs, IsAvailableAndCorrect()) == CorrectAt(obs);
  }

  lemma CoverageIs(obs: seq<Observation>, policy: Policy)
    ensures FamiliesCovered(obs, policy) <==>
            forall f :: f in policy.requiredFamilies ==> |AvailableInAt(obs, f)| >= policy.minimumTasksPerFamily
  {
    forall f ensures Count(obs, IsAvailableIn(f)) == |AvailableInAt(obs, f)| {
      CountIs(obs, IsAvailableIn(f));
      assert Where(obs, IsAvailableIn(f)) == AvailableInAt(obs, f);
    }
  }

  // ----- the rewards of a family ---------------------------------------------

  /** `x` is what the task earned: the reward of an observation that passed, or nothing. */
  ghost predicate Earned(obs: seq<Observation>, taskId: string, x: real) {
    if exists o :: o in obs && o.taskId == taskId && o.available && o.compliant && o.correct
      then exists o :: o in obs && o.taskId == taskId && o.available && o.compliant && o.correct && x == o.reward
    else x == 0.0
  }

  lemma GatedIsEarned(obs: seq<Observation>, taskId: string)
    requires DistinctTasks(obs)
    ensures Earned(obs, taskId, GatedReward(obs, taskId))
  {
    ObservedNone(obs, taskId);
    forall o | o in obs && o.taskId == taskId ensures Observed(obs, taskId) == Some(o) {
      var i :| 0 <= i < |obs| && obs[i] == o;
      ObservedAt(obs, i);
    }
  }

  /** `at` lists the positions of a family in the schedule, in order. */
  ghost predicate FamilyPositions(schedule: seq<ScheduledTask>, family: string, at: seq<nat>) {
    && (forall j :: 0 <= j < |at| ==> at[j] < |schedule| && schedule[at[j]].family == family)
    && (forall j, k :: 0 <= j < k < |at| ==> at[j] < at[k])
    && (forall i :: 0 <= i < |schedule| && schedule[i].family == family ==> i in at)
  }

  /** `v` holds what the family's tasks earned, in schedule order. */
  ghost predicate FamilyRewards(schedule: seq<ScheduledTask>, obs: seq<Observation>, family: string, v: seq<real>) {
    exists at: seq<nat> ::
      && FamilyPositions(schedule, family, at) && |v| == |at|
      && forall j :: 0 <= j < |v| ==> Earned(obs, schedule[at[j]].taskId, v[j])
  }

  lemma BucketSnoc(schedule: seq<ScheduledTask>, t: ScheduledTask, obs: seq<Observation>, family: string)
    ensures Bucket(schedule + [t], obs, family)
         == Bucket(schedule, obs, family) + if t.family == family then [GatedReward(obs, t.taskId)] else []
  {
    if schedule == [] {
      assert schedule + [t] == [t];
    } else {
      BucketSnoc(schedule[1..], t, obs, family);
      assert (schedule + [t])[1..] == schedule[1..] + [t];
    }
  }

  lemma PositionsSnoc(schedule: seq<ScheduledTask>, t: ScheduledTask, family: string, at: seq<nat>)
    requires FamilyPositions(schedule, family, at)
    ensures FamilyPositions(schedule + [t], family, at + if t.family == family then [|schedule|] else [])
  {
    var more := at + if t.family == family then [|schedule|] else [];
    forall i | 0 <= i < |schedule + [t]| && (schedule + [t])[i].family == family ensures i in more {
      if i < |schedule| { assert i in at; } else { assert more[|at|] == i; }
    }
  }

  lemma {:induction false} BucketIs(schedule: seq<ScheduledTask>, obs: seq<Observation>, family: string)
    returns (at: seq<nat>)
    requires DistinctTasks(obs)
    ensures FamilyPositions(schedule, family, at) && |Bucket(schedule, obs, family)| == |at|
    ensures forall j :: 0 <= j < |at| ==> Earned(obs, schedule[at[j]].taskId, Bucket(schedule, obs, family)[j])
  {
    if schedule == [] {
      at := [];
    } else {
      var rest, t := schedule[..|schedule| - 1], schedule[|schedule| - 1];
      assert schedule == rest + [t];
      var before := BucketIs(rest, obs, family);
      BucketSnoc(rest, t, obs, family);
      PositionsSnoc(rest, t, family, before);
      GatedIsEarned(obs, t.taskId);
      at := before + if t.family == family then [|rest|] else [];
      hide Bucket, Earned, GatedReward, FamilyPositions;
    }
  }

  /** What the winsorised mean leaves after the margin for confidence, at least nothing. */
  ghost predicate NetScore(v: seq<real>, policy: Policy, fn: Analysis, score: real)
    requires v != [] && 0.0 <= policy.winsorFraction < 0.5 && fn.RootLaws()
  {
    var net := WinsorizedMean(v, policy.winsorFraction, 0) - policy.confidenceZ * RobustStandardError(v, fn);
    score == if net > 0.0 then net else 0.0
  }

  /** The score of a family, from what its tasks earned. */
  ghost predicate FamilyScore(obs: seq<Observation>, family: string, policy: Policy, fn: Analysis, score: real)
    requires 0.0 <= policy.winsorFraction < 0.5 && fn.RootLaws()
  {
    exists v: seq<real> ::
      v != [] && FamilyRewards(policy.taskSchedule, obs, family, v) && NetScore(v, policy, fn, score)
  }

  lemma LowerBoundIs(v: seq<real>, policy: Policy, fn: Analysis)
    requires v != [] && 0.0 <= policy.winsorFraction < 0.5 && fn.RootLaws()
    ensures NetScore(v, policy, fn, LowerBound(v, policy, fn))
  {
    hide WinsorizedMean, RobustStandardError;
  }

  lemma BucketHolds(schedule: seq<ScheduledTask>, obs: seq<Observation>, family: string)
    requires DistinctTasks(obs)
    ensures FamilyRewards(schedule, obs, family, Bucket(schedule, obs, family))
  {
    var at := BucketIs(schedule, obs, family);
    hide Bucket, FamilyPositions, Earned;
  }

  lemma FamilyScoreIs(obs: seq<Observation>, family: string, policy: Policy, fn: Analysis)
    requires DistinctTasks(obs) && 0.0 <= policy.winsorFraction < 0.5 && fn.RootLaws()
    requires ScheduledCount(policy.taskSchedule, family) >= 1
    ensures Bucket(policy.taskSchedule, obs, family) != []
    ensures FamilyScore(obs, family, policy, fn, LowerBound(Bucket(policy.taskSchedule, obs, family), policy, fn))
  {
    hide Bucket, LowerBound, FamilyRewards, NetScore, DistinctTasks, ScheduledCount;
    BucketSize(policy.taskSchedule, obs, family);
    BucketHolds(policy.taskSchedule, obs, family);
    LowerBoundIs(Bucket(policy.taskSchedule, obs, family), policy, fn);
  }

  lemma {:induction false} ScoresAre(families: seq<string>, obs: seq<Observation>, policy: Policy, fn: Analysis)
    requires DistinctTasks(obs) && 0.0 <= policy.winsorFraction < 0.5 && fn.RootLaws()
    requires forall f :: f in families ==> ScheduledCount(policy.taskSchedule, f) >= 1
    ensures forall i :: 0 <= i < |families| ==>
              FamilyScore(obs, families[i], policy, fn, Scores(families, obs, policy, fn)[i])
  {
    hide FamilyScore, LowerBound, Bucket, ScheduledCount;
    if families != [] {
      assert families[0] in families;
      FamilyScoreIs(obs, families[0], policy, fn);
      ScoresAre(families[1..], obs, policy, fn);
    }
  }

  // ----- the aggregate -------------------------------------------------------

  /** The rates of an aggregate are shares of positions: of the schedule, and of the
      available observations. */
  ghost predicate RatesOf(g: MinerAggregate, obs: seq<Observation>, policy: Policy)
    requires policy.taskSchedule != []
  {
    var n := |AvailableAt(obs)|;
    && g.taskCount == n
    && g.availability == n as real / |policy.taskSchedule| as real
    && (n > 0 ==> g.compliance == |CompliantAt(obs)| as real / n as real)
    && (n > 0 ==> g.correctness == |CorrectAt(obs)| as real / n as real)
    && (n == 0 ==> g.compliance == 0.0 && g.correctness == 0.0)
  }

  /** The center: as many copies of it as there are families have the product of the
      family scores, and it is nothing as soon as one family earned nothing. */
  ghost predicate CenterOf(g: MinerAggregate) {
    && (AllPositive(g.familyScores) ==>
          g.center > 0.0
          && forall c: seq<real> :: |c| == |g.familyScores| && AllAre(c, g.center) ==>
               Product(c) == Product(g.familyScores))
    && (!AllPositive(g.familyScores) ==> g.center == 0.0)
  }

  /** The digests of the sorted portfolios of the available observations. */
  ghost predicate PortfoliosOf(g: MinerAggregate, obs: seq<Observation>, env: Env) {
    && g.strategyDigest
       == env.portfolioDigest("planrace/2:strategy-portfolio",
                              set o | o in obs && o.available :: (o.family, o.strategyDigest))
    && g.behaviorDigest
       == env.portfolioDigest("planrace/2:behavior-portfolio",
                              set o | o in obs && o.available :: (o.family, o.behaviorDigest))
  }

  lemma RatioIs(part: nat, whole: nat)
    requires whole > 0
    ensures Ratio(part, whole) == part as real / whole as real
  {
  }

  lemma RatesAre(minerId: string, obs: seq<Observation>, policy: Policy, env: Env)
    requires Usable(policy, env)
    ensures RatesOf(Summarize(minerId, obs, policy, env), obs, policy)
  {
    var n := Count(obs, IsAvailable());
    CountsAre(obs);
    RatioIs(n, |policy.taskSchedule|);
    if n > 0 {
      RatioIs(Count(obs, IsAvailableAndCompliant()), n);
      RatioIs(Count(obs, IsAvailableAndCorrect()), n);
    } else {
      assert Ratio(Count(obs, IsAvailableAndCompliant()), 0) == 0.0;
      assert Ratio(Count(obs, IsAvailableAndCorrect()), 0) == 0.0;
    }
    hide Count, Ratio, AvailableAt, CompliantAt, CorrectAt, Scores, Portfolio, Gate, StrategyPortfolio,
         BehaviorPortfolio, Times;
  }

  lemma CenterIs(scores: seq<real>, g: MinerAggregate, fn: Analysis)
    requires fn.LogLaws() && scores != [] && g.familyScores == scores && g.center == GeometricMean(scores, fn)
    ensures CenterOf(g)
  {
    if AllPositive(scores) {
      GeometricMeanIs(scores, seq(|scores|, _ => g.center), fn);
      forall c: seq<real> | |c| == |scores| && AllAre(c, g.center) ensures Product(c) == Product(scores) {
        GeometricMeanIs(scores, c, fn);
      }
    }
  }

  /** The family scores in the order of the policy, and the margin for confidence. */
  ghost predicate ScoresReported(g: MinerAggregate, obs: seq<Observation>, policy: Policy, env: Env)
    requires Usable(policy, env)
  {
    && |g.familyScores| == |policy.requiredFamilies|
    && (forall i :: 0 <= i < |g.familyScores| ==>
          FamilyScore(obs, policy.requiredFamilies[i], policy, env.fn, g.familyScores[i]))
    && g.uncertainty == policy.confidenceZ * RobustStandardError(g.familyScores, env.fn)
  }

  /** A paid miner gets what the center leaves after the margin, times availability and
      compliance; nobody else gets anything. */
  ghost predicate PaysNet(g: MinerAggregate) {
    g.reward == if g.eligible then (g.center - g.uncertainty) * g.availability * g.compliance else 0.0
  }

  /** What an accepted aggregate reports. */
  lemma AggregateMeans(minerId: string, obs: seq<Observation>, policy: Policy, env: Env)
    requires Usable(policy, env) && env.fn.LogLaws() && AggregateMiner(minerId, obs, policy, env).Ok?
    ensures var g := AggregateMiner(minerId, obs, policy, env).value;
            && g.minerId == minerId
            && ScoresReported(g, obs, policy, env) && CenterOf(g)
            && RatesOf(g, obs, policy) && PortfoliosOf(g, obs, env)
            && PaysNet(g)
  {
    assert FirstFault(obs, 0, policy.taskSchedule) == None;
    assert AggregateMiner(minerId, obs, policy, env).value == Summarize(minerId, obs, policy, env);
    assert DistinctTasks(obs) by { ScheduledIffNoFault(obs, policy.taskSchedule); }
    hide *;
    PaidIff(minerId, obs, policy, env);
    ScoresOf(minerId, obs, policy, env);
    RatesAre(minerId, obs, policy, env);
    PortfoliosAre(minerId, obs, policy, env);
    RewardIs(minerId, obs, policy, env);
  }

  lemma PortfoliosAre(minerId: string, obs: seq<Observation>, policy: Policy, env: Env)
    requires Usable(policy, env)
    ensures PortfoliosOf(Summarize(minerId, obs, policy, env), obs, env)
    ensures Summarize(minerId, obs, policy, env).minerId == minerId
  {
    hide Count, Ratio, Scores, Portfolio, Gate, Times;
  }

  lemma SummaryScores(minerId: string, obs: seq<Observation>, policy: Policy, env: Env)
    requires Usable(policy, env)
    ensures var g := Summarize(minerId, obs, policy, env);
            && policy.requiredFamilies != []
            && (forall f :: f in policy.requiredFamilies ==> ScheduledCount(policy.taskSchedule, f) >= 1)
            && 0.0 <= policy.winsorFraction < 0.5
            && g.familyScores == Scores(policy.requiredFamilies, obs, policy, env.fn)
            && g.center == GeometricMean(g.familyScores, env.fn)
            && g.uncertainty == Times(policy.confidenceZ, RobustStandardError(g.familyScores, env.fn))
  {
    hide Count, Ratio, Scores, GeometricMean, RobustStandardError, Gate, Times;
  }

  lemma MarginIs(z: real, x: real)
    ensures Times(z, x) == z * x
  {
  }

  lemma ScoresOf(minerId: string, obs: seq<Observation>, policy: Policy, env: Env)
    requires Usable(policy, env) && env.fn.LogLaws() && DistinctTasks(obs)
    ensures var g := Summarize(minerId, obs, policy, env); ScoresReported(g, obs, policy, env) && CenterOf(g)
  {
    hide *;
    SummaryScores(minerId, obs, policy, env);
    var g := Summarize(minerId, obs, policy, env);
    CenterIs(g.familyScores, g, env.fn);
    ReportIs(g, obs, policy, env);
  }

  lemma ReportIs(g: MinerAggregate, obs: seq<Observation>, policy: Policy, env: Env)
    requires Usable(policy, env) && DistinctTasks(obs)
    requires forall f :: f in policy.requiredFamilies ==> ScheduledCount(policy.taskSchedule, f) >= 1
    requires 0.0 <= policy.winsorFraction < 0.5
    requires g.familyScores == Scores(policy.requiredFamilies, obs, policy, env.fn)
    requires g.uncertainty == Times(policy.confidenceZ, RobustStandardError(g.familyScores, env.fn))
    ensures ScoresReported(g, obs, policy, env)
  {
    hide Scores, RobustStandardError, FamilyScore, Times, DistinctTasks, ScheduledCount;
    ScoresAre(policy.requiredFamilies, obs, policy, env.fn);
    MarginIs(policy.confidenceZ, RobustStandardError(g.familyScores, env.fn));
  }

  lemma RewardIs(minerId: string, obs: seq<Observation>, policy: Policy, env: Env)
    requires Usable(policy, env)
    ensures var g := Summarize(minerId, obs, policy, env); g.eligible ==> g.center > g.uncertainty ==> PaysNet(g)
    ensures var g := Summarize(minerId, obs, policy, env); !g.eligible ==> PaysNet(g)
  {
    var g := Summarize(minerId, obs, policy, env);
    SummaryReward(minerId, obs, policy, env);
    hide *;
    NetReward(g);
  }

  lemma NetReward(g: MinerAggregate)
    requires g.reward == if g.eligible
                           then Times(Times(MaxReal(0.0, g.center - g.uncertainty), g.availability), g.compliance)
                           else 0.0
    ensures g.eligible && g.center > g.uncertainty ==> PaysNet(g)
    ensures !g.eligible ==> PaysNet(g)
  {
  }

  lemma SummaryReward(minerId: string, obs: seq<Observation>, policy: Policy, env: Env)
    requires Usable(policy, env)
    ensures var g := Summarize(minerId, obs, policy, env);
            g.reward == if g.eligible
                          then Times(Times(MaxReal(0.0, g.center - g.uncertainty), g.availability), g.compliance)
                          else 0.0
  {
    hide Count, Ratio, Scores, Portfolio, Gate, Times, MaxReal;
  }

  // ----- the gates -----------------------------------------------------------

  /** What is wrong with an aggregate that is not paid, by its failure code: the first gate
      it does not pass. */
  ghost predicate RefusedWith(g: MinerAggregate, obs: seq<Observation>, policy: Policy, code: FailureCode) {
    var tasks := g.taskCount >= policy.minimumTasks;
    var covered := tasks
        && forall f :: f in policy.requiredFamilies ==> |AvailableInAt(obs, f)| >= policy.minimumTasksPerFamily;
    var present := covered && g.availability >= policy.minimumAvailability;
    var obeys := present && g.compliance >= policy.minimumCompliance;
    var right := obeys && g.correctness >= policy.minimumCorrectness;
    var everywhere := forall i :: 0 <= i < |g.familyScores| ==> g.familyScores[i] > 0.0;
    match code
    case InsufficientTasks => !tasks
    case InsufficientFamilyTasks => tasks && !covered
    case AvailabilityGate => covered && !present
    case ComplianceGate => present && !obeys
    case CorrectnessGate => obeys && !right
    case WorstFamilyGate => right && !everywhere
    case NoRobustImprovement =>
      right && everywhere && (g.center <= g.uncertainty || g.availability <= 0.0 || g.compliance <= 0.0)
  }

  lemma FailureMeans(minerId: string, obs: seq<Observation>, policy: Policy, env: Env)
    requires Usable(policy, env) && AggregateMiner(minerId, obs, policy, env).Ok?
    ensures var g := AggregateMiner(minerId, obs, policy, env).value;
            g.eligible || (g.failureCode.Some? && RefusedWith(g, obs, policy, g.failureCode.value))
  {
    var g := AggregateMiner(minerId, obs, policy, env).value;
    PaidIff(minerId, obs, policy, env);
    GateIs(minerId, obs, policy, env);
    hide AggregateMiner;
  }

  lemma GateIs(minerId: string, obs: seq<Observation>, policy: Policy, env: Env)
    requires Usable(policy, env) && AggregateMiner(minerId, obs, policy, env).Ok?
    ensures var g := AggregateMiner(minerId, obs, policy, env).value;
            && (g.failureCode.Some? && g.failureCode != Some(NoRobustImprovement) ==>
                  RefusedWith(g, obs, policy, g.failureCode.value))
            && (g.failureCode == Some(NoRobustImprovement) ==>
                  && g.taskCount >= policy.minimumTasks && FamiliesCovered(obs, policy)
                  && g.availability >= policy.minimumAvailability && g.compliance >= policy.minimumCompliance
                  && g.correctness >= policy.minimumCorrectness && AllPositive(g.familyScores)
                  && (forall f :: f in policy.requiredFamilies ==>
                        |AvailableInAt(obs, f)| >= policy.minimumTasksPerFamily))
  {
    CoverageIs(obs, policy);
    hide Count, Ratio, Scores, Portfolio, Times, MaxReal, FamiliesCovered, AvailableInAt, FirstFault,
         StrategyPortfolio, BehaviorPortfolio;
  }

  // ----- the schedule --------------------------------------------------------

  lemma {:induction false} LookupIs(schedule: seq<ScheduledTask>, taskId: string)
    ensures Lookup(schedule, taskId).Some? ==>
              Lookup(schedule, taskId).value in schedule && Lookup(schedule, taskId).value.taskId == taskId
    ensures (exists t :: t in schedule && t.taskId == taskId) ==> Lookup(schedule, taskId).Some?
  {
    if schedule != [] {
      LookupIs(schedule[1..], taskId);
      assert schedule == [schedule[0]] + schedule[1..];
    }
  }

  /** An observation matches the schedule exactly when the schedule has a task with its
      identifier, epoch, family and commitment. */
  lemma MatchesIff(o: Observation, policy: Policy)
    requires policy.Valid()
    ensures MatchesSchedule(o, policy.taskSchedule) <==>
            ScheduledTask(o.epoch, o.family, o.taskId, o.taskCommitment) in policy.taskSchedule
  {
    var schedule := policy.taskSchedule;
    LookupIs(schedule, o.taskId);
    forall s, t | s in schedule && t in schedule && s.taskId == t.taskId ensures s == t {
      var i :| 0 <= i < |schedule| && schedule[i] == s;
      var j :| 0 <= j < |schedule| && schedule[j] == t;
      assert i == j;
    }
  }

  /** What is wrong with the first observation that does not belong. */
  ghost predicate Misplaced(obs: seq<Observation>, i: nat, schedule: seq<ScheduledTask>, fault: ScheduleFault)
    requires i < |obs|
  {
    var o := obs[i];
    match fault
    case OutsideSchedule => forall t :: t in schedule ==> t.taskId != o.taskId
    case MismatchedTask =>
      && (exists t :: t in schedule && t.taskId == o.taskId)
      && ScheduledTask(o.epoch, o.family, o.taskId, o.taskCommitment) !in schedule
    case RepeatedTask => exists j :: 0 <= j < i && obs[j].taskId == o.taskId
  }

  lemma FaultIs(obs: seq<Observation>, i: nat, policy: Policy)
    requires policy.Valid() && i < |obs| && FaultAt(obs, i, policy.taskSchedule).Some?
    ensures Misplaced(obs, i, policy.taskSchedule, FaultAt(obs, i, policy.taskSchedule).value)
  {
    var o, schedule := obs[i], policy.taskSchedule;
    MatchesIff(o, policy);
    LookupIs(schedule, o.taskId);
    ObservedNone(obs[..i], o.taskId);
    if forall j :: 0 <= j < i ==> obs[j].taskId != o.taskId {
      assert forall j :: 0 <= j < i ==> obs[..i][j] == obs[j];
    }
  }

  /** A refusal names what is wrong with the first observation that does not belong. */
  lemma {:induction false} FaultMeans(obs: seq<Observation>, k: nat, policy: Policy)
    requires policy.Valid() && k <= |obs| && FirstFault(obs, k, policy.taskSchedule).Some?
    ensures exists i :: k <= i < |obs| && (forall j :: k <= j < i ==> FaultAt(obs, j, policy.taskSchedule) == None)
                        && Misplaced(obs, i, policy.taskSchedule, FirstFault(obs, k, policy.taskSchedule).value)
    decreases |obs| - k
  {
    hide FaultAt, Misplaced;
    if FaultAt(obs, k, policy.taskSchedule).Some? {
      FaultIs(obs, k, policy);
    } else {
      FaultMeans(obs, k + 1, policy);
    }
  }
}
