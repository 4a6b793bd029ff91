/** `allocate_weights` (planrace/scoring_v2.py:778-850): recombine equivalent
    portfolios, cap concentration, divide each group's weight among its members. */
module Allocation {
  import opened Statistics
  import opened Wrappers
  import opened MapTotals
  import opened WaterFilling
  import opened CappedNormalization
  import opened Aggregation

  datatype Reason = AllFailed | InsufficientStrategyDiversity | InsufficientRecipientsForCap

  type DuplicateGroups = map<string, set<string>>

  datatype AllocationResult =
    | Planned(weights: Masses, duplicateGroups: DuplicateGroups, strategyWeights: Masses)
    | NotPlanned(reason: Reason, duplicateGroups: DuplicateGroups)

  type Aggregates = seq<MinerAggregate>

  predicate Earns(g: MinerAggregate) {
    g.eligible && g.reward > 0.0
  }

  function EligibleOnly(aggs: Aggregates): (r: Aggregates)
    ensures forall g :: g in r <==> g in aggs && Earns(g)
  {
    if aggs == [] then []
    else if Earns(aggs[0]) then [aggs[0]] + EligibleOnly(aggs[1..])
    else EligibleOnly(aggs[1..])
  }

  /** The members of one behaviour group. */
  function Members(e: Aggregates, digest: string): (r: Aggregates)
    ensures forall g :: g in r <==> g in e && g.behaviorDigest == digest
  {
    if e == [] then []
    else if e[0].behaviorDigest == digest then [e[0]] + Members(e[1..], digest)
    else Members(e[1..], digest)
  }

  function Digests(e: Aggregates): set<string> {
    set g | g in e :: g.behaviorDigest
  }

  function MinerIds(e: Aggregates): set<string> {
    set g | g in e :: g.minerId
  }

  /** The reward that one exact strategy portfolio earned within a group. */
  function StrategyMass(members: Aggregates, strategy: string): real {
    if members == [] then 0.0
    else (if members[0].strategyDigest == strategy then members[0].reward else 0.0)
         + StrategyMass(members[1..], strategy)
  }

  /** `min(exact_strategy_mass.values())`, over the strategies of `some`. */
  function MinMass(members: Aggregates, some: Aggregates): real
    requires some != []
  {
    var mass := StrategyMass(members, some[0].strategyDigest);
    if |some| == 1 then mass else MinReal(mass, MinMass(members, some[1..]))
  }

  function Strategies(e: Aggregates): set<string> {
    set g | g in e :: g.strategyDigest
  }

  lemma {:induction false} MinMassIsMinimum(members: Aggregates, some: Aggregates)
    requires some != []
    ensures forall g :: g in some ==> MinMass(members, some) <= StrategyMass(members, g.strategyDigest)
    ensures exists g :: g in some && MinMass(members, some) == StrategyMass(members, g.strategyDigest)
  {
    assert some[0] in some;
    if |some| > 1 {
      MinMassIsMinimum(members, some[1..]);
      var h :| h in some[1..] && MinMass(members, some[1..]) == StrategyMass(members, h.strategyDigest);
      assert h in some;
      assert some == [some[0]] + some[1..];
    }
  }

  lemma MembersNonEmpty(e: Aggregates, digest: string)
    requires digest in Digests(e)
    ensures Members(e, digest) != []
  {
    var g :| g in e && g.behaviorDigest == digest;
    assert g in Members(e, digest);
  }

  function GroupMass(e: Aggregates, digest: string): real
    requires digest in Digests(e)
  {
    MembersNonEmpty(e, digest);
    MinMass(Members(e, digest), Members(e, digest))
  }

  /** `raw_groups`. */
  function RawGroups(e: Aggregates): (raw: Masses)
    ensures raw.Keys == Digests(e)
  {
    map digest | digest in Digests(e) :: GroupMass(e, digest)
  }

  function RewardSum(members: Aggregates): real {
    if members == [] then 0.0 else members[0].reward + RewardSum(members[1..])
  }

  /** `normalized_groups[digest] * member.reward / member_reward`. */
  function MemberWeight(groups: Masses, members: Aggregates, g: MinerAggregate): real
    requires g.behaviorDigest in groups && RewardSum(members) != 0.0
  {
    Over(Times(groups[g.behaviorDigest], g.reward), RewardSum(members))
  }

  lemma {:induction false} RewardSumPositive(members: Aggregates)
    requires members != [] && forall g :: g in members ==> g.reward > 0.0
    ensures RewardSum(members) > 0.0
  {
    assert members[0] in members;
    if |members| > 1 { RewardSumPositive(members[1..]); }
  }

  /** The inner loop over the members of one group; a repeated identity overwrites. */
  function AssignMembers(acc: Masses, groups: Masses, members: Aggregates, some: Aggregates): Masses
    requires RewardSum(members) != 0.0 && forall g :: g in some ==> g.behaviorDigest in groups
  {
    if some == [] then acc
    else
      var last := some[|some| - 1];
      assert last in some;
      AssignMembers(acc, groups, members, some[..|some| - 1])[last.minerId := MemberWeight(groups, members, last)]
  }

  /** Behaviour digests in the order in which they first occur. */
  function OpenedDigests(e: Aggregates): (r: seq<string>)
    ensures forall d :: d in r <==> d in Digests(e)
  {
    if e == [] then []
    else
      var last, r := e[|e| - 1], OpenedDigests(e[..|e| - 1]);
      assert e == e[..|e| - 1] + [last];
      assert Digests(e) == Digests(e[..|e| - 1]) + {last.behaviorDigest};
      if last.behaviorDigest in r then r else r + [last.behaviorDigest]
  }

  ghost predicate AllEarn(e: Aggregates) {
    forall g :: g in e ==> g.reward > 0.0
  }

  function AssignGroups(groups: Masses, e: Aggregates, digests: seq<string>): Masses
    requires AllEarn(e) && groups.Keys == Digests(e) && forall d :: d in digests ==> d in Digests(e)
  {
    if digests == [] then map[]
    else
      var d := digests[|digests| - 1];
      assert d in digests;
      MembersNonEmpty(e, d);
      RewardSumPositive(Members(e, d));
      AssignMembers(AssignGroups(groups, e, digests[..|digests| - 1]), groups, Members(e, d), Members(e, d))
  }

  function DuplicatesOf(e: Aggregates): DuplicateGroups {
    map digest | digest in Digests(e) && |Members(e, digest)| > 1 :: MinerIds(Members(e, digest))
  }

  /** The specification, for any tolerance; the source is `tol == CAP_TOLERANCE`. */
  ghost function Allocate(aggs: Aggregates, policy: Policy, tol: real): AllocationResult {
    var e := EligibleOnly(aggs);
    if e == [] then NotPlanned(AllFailed, map[])
    else if |Digests(e)| < policy.minimumDistinctStrategies
      then NotPlanned(InsufficientStrategyDiversity, DuplicatesOf(e))
    else
      match Normalize(RawGroups(e), policy.maximumWeight, tol)
      case TooFewRecipients => NotPlanned(InsufficientRecipientsForCap, DuplicatesOf(e))
      case Weights(groups) =>
        Planned(AssignGroups(groups, e, OpenedDigests(e)), DuplicatesOf(e), groups)
  }
}
