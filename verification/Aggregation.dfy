/** One miner's aggregate over a closed task schedule: `_aggregate_scheduled_miner`
    (planrace/scoring_v2.py:580-700). */
module Aggregation {
  import opened Statistics
  import opened Wrappers
  import opened Deduplication

  datatype ScheduledTask = ScheduledTask(epoch: nat, family: string, taskId: string, taskCommitment: string)

  datatype Policy = Policy(
    requiredFamilies: seq<string>,
    taskSchedule: seq<ScheduledTask>,
    minimumTasks: nat,
    minimumTasksPerFamily: nat,
    minimumAvailability: real,
    minimumCompliance: real,
    minimumCorrectness: real,
    winsorFraction: real,
    confidenceZ: real,
    maximumWeight: real,
    minimumDistinctStrategies: nat)
  {
    /** What the policy's constructor enforces. */
    ghost predicate Valid() {
      && requiredFamilies != [] && Distinct(requiredFamilies)
      && taskSchedule != []
      && (forall i, j :: 0 <= i < j < |taskSchedule| ==>
            && taskSchedule[i].taskId != taskSchedule[j].taskId
            && taskSchedule[i].taskCommitment != taskSchedule[j].taskCommitment
            && taskSchedule[i].epoch != taskSchedule[j].epoch)
      && (forall t :: t in taskSchedule ==> t.family in requiredFamilies)
      && 1 <= minimumTasksPerFamily
      && |requiredFamilies| <= minimumTasks <= |taskSchedule|
      && minimumTasksPerFamily * |requiredFamilies| <= minimumTasks
      && (forall f :: f in requiredFamilies ==> ScheduledCount(taskSchedule, f) >= minimumTasksPerFamily)
      && 0.0 <= minimumAvailability <= 1.0
      && 0.0 <= minimumCompliance <= 1.0
      && 0.0 <= minimumCorrectness <= 1.0
      && 0.0 <= winsorFraction < 0.5
      && confidenceZ >= 0.0
      && 0.0 < maximumWeight <= 1.0
      && minimumDistinctStrategies >= 1
    }
  }

  function ScheduledCount(schedule: seq<ScheduledTask>, family: string): nat {
    if schedule == [] then 0
    else (if schedule[0].family == family then 1 else 0) + ScheduledCount(schedule[1..], family)
  }

  /** The functions the aggregate calls out to: analysis on floats, and the digest of
      a sorted portfolio of (family, digest) pairs in a named domain. */
  datatype Env = Env(fn: Analysis, portfolioDigest: (string, set<(string, string)>) -> string)

  const STRATEGY_DOMAIN := "planrace/2:strategy-portfolio"
  const BEHAVIOR_DOMAIN := "planrace/2:behavior-portfolio"

  datatype ScheduleFault = OutsideSchedule | MismatchedTask | RepeatedTask

  datatype FailureCode =
    | InsufficientTasks
    | InsufficientFamilyTasks
    | AvailabilityGate
    | ComplianceGate
    | CorrectnessGate
    | WorstFamilyGate
    | NoRobustImprovement

  datatype MinerAggregate = MinerAggregate(
    minerId: string,
    eligible: bool,
    reward: real,
    center: real,
    uncertainty: real,
    availability: real,
    compliance: real,
    correctness: real,
    taskCount: nat,
    familyScores: seq<real>,
    strategyDigest: string,
    behaviorDigest: string,
    failureCode: Option<FailureCode>)

  // ----- schedule checks -----------------------------------------------------

  function Lookup(schedule: seq<ScheduledTask>, taskId: string): Option<ScheduledTask> {
    if schedule == [] then None
    else if schedule[0].taskId == taskId then Some(schedule[0])
    else Lookup(schedule[1..], taskId)
  }

  /** The first observation of a task, the entry of `by_task`. */
  function Observed(obs: seq<Observation>, taskId: string): Option<Observation> {
    if obs == [] then None
    else if obs[0].taskId == taskId then Some(obs[0])
    else Observed(obs[1..], taskId)
  }

  function FaultAt(obs: seq<Observation>, i: nat, schedule: seq<ScheduledTask>): Option<ScheduleFault>
    requires i < |obs|
  {
    match Lookup(schedule, obs[i].taskId)
    case None => Some(OutsideSchedule)
    case Some(t) =>
      if MetadataOf(obs[i]) != Metadata(t.epoch, t.family, t.taskCommitment) then Some(MismatchedTask)
      else if Observed(obs[..i], obs[i].taskId).Some? then Some(RepeatedTask)
      else None
  }

  function FirstFault(obs: seq<Observation>, i: nat, schedule: seq<ScheduledTask>): Option<ScheduleFault>
    requires i <= |obs|
    decreases |obs| - i
  {
    if i == |obs| then None
    else if FaultAt(obs, i, schedule).Some? then FaultAt(obs, i, schedule)
    else FirstFault(obs, i + 1, schedule)
  }

  // ----- the aggregate -------------------------------------------------------

  function Count(obs: seq<Observation>, p: Observation -> bool): nat {
    if obs == [] then 0 else (if p(obs[0]) then 1 else 0) + Count(obs[1..], p)
  }

  function IsAvailable(): Observation -> bool { (o: Observation) => o.available }

  function IsAvailableAndCompliant(): Observation -> bool {
    (o: Observation) => o.available && o.compliant
  }

  function IsAvailableAndCorrect(): Observation -> bool {
    (o: Observation) => o.available && o.correct
  }

  function IsAvailableIn(family: string): Observation -> bool {
    (o: Observation) => o.available && o.family == family
  }

  function Ratio(part: nat, whole: nat): real {
    if whole == 0 then 0.0 else Over(part as real, whole as real)
  }

  function GatedReward(obs: seq<Observation>, taskId: string): real {
    match Observed(obs, taskId)
    case None => 0.0
    case Some(o) => if Passing(o) then o.reward else 0.0
  }

  /** The rewards of one family in schedule order, absences as zeros. */
  function Bucket(schedule: seq<ScheduledTask>, obs: seq<Observation>, family: string): seq<real> {
    if schedule == [] then []
    else if schedule[0].family == family
      then [GatedReward(obs, schedule[0].taskId)] + Bucket(schedule[1..], obs, family)
    else Bucket(schedule[1..], obs, family)
  }

  function LowerBound(v: seq<real>, policy: Policy, fn: Analysis): real
    requires v != [] && 0.0 <= policy.winsorFraction < 0.5 && fn.RootLaws()
  {
    MaxReal(0.0, WinsorizedMean(v, policy.winsorFraction, 0)
                 - Times(policy.confidenceZ, RobustStandardError(v, fn)))
  }

  lemma {:induction false} BucketSize(schedule: seq<ScheduledTask>, obs: seq<Observation>, family: string)
    ensures |Bucket(schedule, obs, family)| == ScheduledCount(schedule, family)
  {
    if schedule != [] { BucketSize(schedule[1..], obs, family); }
  }

  function Scores(families: seq<string>, obs: seq<Observation>, policy: Policy, fn: Analysis): (r: seq<real>)
    requires 0.0 <= policy.winsorFraction < 0.5 && fn.RootLaws()
    requires forall f :: f in families ==> ScheduledCount(policy.taskSchedule, f) >= 1
    ensures |r| == |families|
  {
    if families == [] then []
    else
      BucketSize(policy.taskSchedule, obs, families[0]);
      assert families[0] in families;
      [LowerBound(Bucket(policy.taskSchedule, obs, families[0]), policy, fn)]
      + Scores(families[1..], obs, policy, fn)
  }

  function Logs(v: seq<real>, fn: Analysis): (r: seq<real>)
    ensures |r| == |v|
  {
    if v == [] then [] else [fn.log(v[0])] + Logs(v[1..], fn)
  }

  predicate AllPositive(v: seq<real>) {
    forall i :: 0 <= i < |v| ==> v[i] > 0.0
  }

  function GeometricMean(v: seq<real>, fn: Analysis): real
    requires v != []
  {
    if AllPositive(v) then fn.exp(Mean(Logs(v, fn))) else 0.0
  }

  function StrategyPortfolio(obs: seq<Observation>): set<(string, string)> {
    set o | o in obs && o.available :: (o.family, o.strategyDigest)
  }

  function BehaviorPortfolio(obs: seq<Observation>): set<(string, string)> {
    set o | o in obs && o.available :: (o.family, o.behaviorDigest)
  }

  predicate FamiliesCovered(obs: seq<Observation>, policy: Policy) {
    forall f :: f in policy.requiredFamilies ==> Count(obs, IsAvailableIn(f)) >= policy.minimumTasksPerFamily
  }

  function Gate(
      obs: seq<Observation>, policy: Policy, availability: real, compliance: real, correctness: real,
      scores: seq<real>, reward: real): Option<FailureCode>
  {
    if Count(obs, IsAvailable()) < policy.minimumTasks then Some(InsufficientTasks)
    else if !FamiliesCovered(obs, policy) then Some(InsufficientFamilyTasks)
    else if availability < policy.minimumAvailability then Some(AvailabilityGate)
    else if compliance < policy.minimumCompliance then Some(ComplianceGate)
    else if correctness < policy.minimumCorrectness then Some(CorrectnessGate)
    else if !AllPositive(scores) then Some(WorstFamilyGate)
    else if reward <= 0.0 then Some(NoRobustImprovement)
    else None
  }

  ghost predicate Usable(policy: Policy, env: Env) {
    policy.Valid() && env.fn.RootLaws()
  }

  function Portfolio(scores: seq<real>, policy: Policy, fn: Analysis): (r: (real, real))
    requires scores != [] && fn.RootLaws()
  {
    (GeometricMean(scores, fn), Times(policy.confidenceZ, RobustStandardError(scores, fn)))
  }

  function Summarize(minerId: string, obs: seq<Observation>, policy: Policy, env: Env): MinerAggregate
    requires Usable(policy, env)
  {
    var taskCount := Count(obs, IsAvailable());
    var availability := Ratio(taskCount, |policy.taskSchedule|);
    var compliance := Ratio(Count(obs, IsAvailableAndCompliant()), taskCount);
    var correctness := Ratio(Count(obs, IsAvailableAndCorrect()), taskCount);
    var scores := Scores(policy.requiredFamilies, obs, policy, env.fn);
    var (center, uncertainty) := Portfolio(scores, policy, env.fn);
    var reward := Times(Times(MaxReal(0.0, center - uncertainty), availability), compliance);
    var failure := Gate(obs, policy, availability, compliance, correctness, scores, reward);
    MinerAggregate(
      minerId, failure == None, if failure == None then reward else 0.0, center, uncertainty,
      availability, compliance, correctness, taskCount, scores,
      env.portfolioDigest(STRATEGY_DOMAIN, StrategyPortfolio(obs)),
      env.portfolioDigest(BEHAVIOR_DOMAIN, BehaviorPortfolio(obs)),
      failure)
  }

  /** The specification of `_aggregate_scheduled_miner`. */
  function AggregateMiner(minerId: string, obs: seq<Observation>, policy: Policy, env: Env)
    : Result<MinerAggregate, ScheduleFault>
    requires Usable(policy, env)
  {
    match FirstFault(obs, 0, policy.taskSchedule)
    case Some(f) => Err(f)
    case None => Ok(Summarize(minerId, obs, policy, env))
  }
}
