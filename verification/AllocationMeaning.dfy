/** What an allocation reports, over the aggregates it was given and in no function of the
    model (planrace/scoring_v2.py:786-850): why it refuses, which duplicate groups it
    lists, what mass a behaviour group brings, and what each member receives. */
module AllocationMeaning {
  import opened Statistics
  import opened MapTotals
  import opened WaterFilling
  import opened CappedNormalization
  import opened Aggregation
  import opened Allocation
  import opened AllocationLaws

  ghost predicate Earner(aggs: Aggregates, g: MinerAggregate) {
    g in aggs && g.eligible && g.reward > 0.0
  }

  /** The earning miners that carry a behaviour digest. */
  ghost function Carriers(aggs: Aggregates, digest: string): set<string> {
    set g | g in aggs && g.eligible && g.reward > 0.0 && g.behaviorDigest == digest :: g.minerId
  }

  /** The earning miners that carry a behaviour digest with one exact strategy. */
  ghost function CarriersWith(aggs: Aggregates, digest: string, strategy: string): set<string> {
    set g | g in aggs && g.eligible && g.reward > 0.0 && g.behaviorDigest == digest && g.strategyDigest == strategy
      :: g.minerId
  }

  ghost function CarriedDigests(aggs: Aggregates): set<string> {
    set g | g in aggs && g.eligible && g.reward > 0.0 :: g.behaviorDigest
  }

  // ----- duplicate groups ----------------------------------------------------

  /** Two different earning miners carry the digest. */
  ghost predicate CarriedTwice(aggs: Aggregates, digest: string) {
    exists g, h :: Earner(aggs, g) && Earner(aggs, h) && g.minerId != h.minerId
                   && g.behaviorDigest == digest && h.behaviorDigest == digest
  }

  /** Exactly the digests carried twice are listed, each with all its carriers. */
  ghost predicate ListsDuplicates(aggs: Aggregates, groups: DuplicateGroups) {
    && (forall d :: d in groups <==> CarriedTwice(aggs, d))
    && (forall d :: d in groups ==> groups[d] == Carriers(aggs, d))
  }

  lemma SeveralMembers(aggs: Aggregates, digest: string)
    requires UniqueIds(aggs)
    ensures |Members(EligibleOnly(aggs), digest)| > 1 <==> CarriedTwice(aggs, digest)
  {
    var e := EligibleOnly(aggs);
    var members := Members(e, digest);
    EligibleUnique(aggs);
    MembersUnique(e, digest);
    if |members| > 1 {
      var g, h := members[0], members[1];
      assert g in members && h in members;
      assert Earner(aggs, g) && Earner(aggs, h);
    }
    if CarriedTwice(aggs, digest) {
      var g, h :| Earner(aggs, g) && Earner(aggs, h) && g.minerId != h.minerId
                  && g.behaviorDigest == digest && h.behaviorDigest == digest;
      assert g in members && h in members;
    }
  }

  lemma CarriersAre(aggs: Aggregates, digest: string)
    ensures MinerIds(Members(EligibleOnly(aggs), digest)) == Carriers(aggs, digest)
  {
  }

  lemma CarriedDigestsAre(aggs: Aggregates)
    ensures Digests(EligibleOnly(aggs)) == CarriedDigests(aggs)
  {
  }

  lemma DuplicatesAre(aggs: Aggregates)
    requires UniqueIds(aggs)
    ensures ListsDuplicates(aggs, DuplicatesOf(EligibleOnly(aggs)))
  {
    var e := EligibleOnly(aggs);
    forall d ensures d in DuplicatesOf(e) <==> CarriedTwice(aggs, d) {
      SeveralMembers(aggs, d);
      if |Members(e, d)| > 1 { assert Members(e, d)[0] in Members(e, d); }
    }
    forall d | d in DuplicatesOf(e) ensures DuplicatesOf(e)[d] == Carriers(aggs, d) {
      CarriersAre(aggs, d);
    }
  }

  /** Every outcome but the one without earners lists exactly the duplicate groups. */
  lemma DuplicatesReported(aggs: Aggregates, policy: Policy, tol: real)
    requires UniqueIds(aggs)
    ensures var r := Allocate(aggs, policy, tol);
            if r.NotPlanned? && r.reason == AllFailed then r.duplicateGroups == map[]
            else ListsDuplicates(aggs, r.duplicateGroups)
  {
    hide DuplicatesOf, Normalize, RawGroups, AssignGroups, OpenedDigests, ListsDuplicates, UniqueIds;
    DuplicatesAre(aggs);
  }

  // ----- refusals ------------------------------------------------------------

  lemma CardinalityOfRaw(e: Aggregates)
    ensures |RawGroups(e)| == |Digests(e)|
  {
    assert RawGroups(e).Keys == Digests(e);
    hide RawGroups;
  }

  /** Full caps hold the whole weight, to within 1e-12. */
  ghost predicate HasRoom(n: nat, cap: real) {
    n as real * cap >= 1.0 - 0.000000000001
  }

  lemma RoomIs(n: nat, cap: real)
    ensures Times(n as real, cap) < 1.0 - SHORTFALL <==> !HasRoom(n, cap)
  {
  }

  lemma ReasonIs(aggs: Aggregates, policy: Policy, tol: real)
    ensures var e, r := EligibleOnly(aggs), Allocate(aggs, policy, tol);
            var few := |Digests(e)| < policy.minimumDistinctStrategies;
            var full := Normalize(RawGroups(e), policy.maximumWeight, tol).TooFewRecipients?;
            && (r.NotPlanned? && r.reason == AllFailed <==> e == [])
            && (r.NotPlanned? && r.reason == InsufficientStrategyDiversity <==> e != [] && few)
            && (r.NotPlanned? && r.reason == InsufficientRecipientsForCap <==> e != [] && !few && full)
            && (r.Planned? <==> e != [] && !few && !full)
  {
    hide RawGroups, Normalize, AssignGroups, OpenedDigests, DuplicatesOf, Digests, EligibleOnly;
  }

  /** An allocation is refused when nobody earned; else when too few behaviours were
      carried; else when the caps leave no room. */
  lemma RefusalsMean(aggs: Aggregates, policy: Policy, tol: real)
    requires 0.0 < policy.maximumWeight <= 1.0 && 0.0 <= tol <= SHORTFALL
    ensures var r, n := Allocate(aggs, policy, tol), |CarriedDigests(aggs)|;
            var some := exists g :: Earner(aggs, g);
            var diverse, room := n >= policy.minimumDistinctStrategies, HasRoom(n, policy.maximumWeight);
            && (r.NotPlanned? && r.reason == AllFailed <==> !some)
            && (r.NotPlanned? && r.reason == InsufficientStrategyDiversity <==> some && !diverse)
            && (r.NotPlanned? && r.reason == InsufficientRecipientsForCap <==> some && diverse && !room)
            && (r.Planned? <==> some && diverse && room)
  {
    hide *;
    var e := EligibleOnly(aggs);
    EarnersAre(aggs);
    CarriedDigestsAre(aggs);
    CardinalityOfRaw(e);
    EligibleEarn(aggs);
    RawGroupsPositive(e);
    RoomIs(|RawGroups(e)|, policy.maximumWeight);
    NormalizeDistributes(RawGroups(e), policy.maximumWeight, tol);
    ReasonIs(aggs, policy, tol);
  }

  lemma EarnersAre(aggs: Aggregates)
    ensures EligibleOnly(aggs) != [] <==> exists g :: Earner(aggs, g)
  {
    if EligibleOnly(aggs) != [] {
      assert EligibleOnly(aggs)[0] in EligibleOnly(aggs);
      assert Earner(aggs, EligibleOnly(aggs)[0]);
    }
    if g :| Earner(aggs, g) { assert g in EligibleOnly(aggs); }
  }

  // ----- masses and parts ----------------------------------------------------

  /** The rewards by miner. */
  ghost predicate RewardsOf(e: Aggregates, w: Masses) {
    forall g :: g in e ==> g.minerId in w && w[g.minerId] == g.reward
  }

  lemma {:induction false} RewardsExist(aggs: Aggregates) returns (w: Masses)
    requires UniqueIds(aggs)
    ensures RewardsOf(aggs, w)
  {
    if aggs == [] {
      w := map[];
    } else {
      var rest := RewardsExist(aggs[1..]);
      assert aggs == [aggs[0]] + aggs[1..];
      forall g | g in aggs[1..] ensures g.minerId != aggs[0].minerId {
        var i :| 0 <= i < |aggs[1..]| && aggs[1..][i] == g;
        assert aggs[i + 1] == g;
      }
      w := rest[aggs[0].minerId := aggs[0].reward];
    }
  }

  ghost function IdsWith(members: Aggregates, strategy: string): set<string> {
    set g | g in members && g.strategyDigest == strategy :: g.minerId
  }

  lemma FirstIdWith(members: Aggregates, strategy: string)
    requires UniqueIds(members) && members != []
    ensures members[0].strategyDigest == strategy ==>
              members[0].minerId in IdsWith(members, strategy)
              && IdsWith(members, strategy) - {members[0].minerId} == IdsWith(members[1..], strategy)
    ensures members[0].strategyDigest != strategy ==>
              IdsWith(members, strategy) == IdsWith(members[1..], strategy)
  {
    assert members == [members[0]] + members[1..];
    forall h | h in members[1..] ensures h.minerId != members[0].minerId {
      var i :| 0 <= i < |members[1..]| && members[1..][i] == h;
      assert members[i + 1] == h;
    }
  }

  lemma IdsKnown(members: Aggregates, strategy: string, w: Masses)
    requires RewardsOf(members, w)
    ensures IdsWith(members, strategy) <= w.Keys && MinerIds(members) <= w.Keys
  {
  }

  lemma {:induction false} StrategyMassIs(members: Aggregates, strategy: string, w: Masses)
    requires UniqueIds(members) && RewardsOf(members, w)
    ensures IdsWith(members, strategy) <= w.Keys
    ensures StrategyMass(members, strategy) == SumOver(w, IdsWith(members, strategy))
  {
    IdsKnown(members, strategy, w);
    if members == [] {
      assert IdsWith(members, strategy) == {};
    } else {
      var g := members[0];
      assert g in members;
      StrategyMassIs(members[1..], strategy, w);
      FirstIdWith(members, strategy);
      hide IdsWith, SumOver;
      if g.strategyDigest == strategy { SumRemove(w, IdsWith(members, strategy), g.minerId); }
    }
  }

  lemma {:induction false} RewardSumIs(members: Aggregates, w: Masses)
    requires UniqueIds(members) && RewardsOf(members, w)
    ensures MinerIds(members) <= w.Keys && RewardSum(members) == SumOver(w, MinerIds(members))
  {
    if members == [] {
      assert MinerIds(members) == {};
    } else {
      var g := members[0];
      assert g in members;
      RewardSumIs(members[1..], w);
      FirstId(members);
      IdsKnown(members, "", w);
      hide MinerIds, SumOver;
      SumRemove(w, MinerIds(members), g.minerId);
    }
  }

  /** The mass of a behaviour group: the least that one exact strategy of its earning
      members earned in all. */
  ghost predicate LeastStrategyMass(aggs: Aggregates, w: Masses, digest: string, mass: real) {
    && (forall g :: Earner(aggs, g) && g.behaviorDigest == digest ==>
          CarriersWith(aggs, digest, g.strategyDigest) <= w.Keys
          && mass <= SumOver(w, CarriersWith(aggs, digest, g.strategyDigest)))
    && (exists g :: Earner(aggs, g) && g.behaviorDigest == digest
          && CarriersWith(aggs, digest, g.strategyDigest) <= w.Keys
          && mass == SumOver(w, CarriersWith(aggs, digest, g.strategyDigest)))
  }

  lemma CarriersWithAre(aggs: Aggregates, digest: string, strategy: string)
    ensures IdsWith(Members(EligibleOnly(aggs), digest), strategy) == CarriersWith(aggs, digest, strategy)
  {
  }

  lemma EarnersKnown(aggs: Aggregates, digest: string, w: Masses)
    requires RewardsOf(aggs, w)
    ensures RewardsOf(Members(EligibleOnly(aggs), digest), w)
    ensures forall g :: g in Members(EligibleOnly(aggs), digest) <==> Earner(aggs, g) && g.behaviorDigest == digest
  {
  }

  /** Within a group the mass of a strategy is what its carriers earned. */
  ghost predicate MassesOf(aggs: Aggregates, w: Masses, digest: string, members: Aggregates) {
    forall s :: CarriersWith(aggs, digest, s) <= w.Keys
                && StrategyMass(members, s) == SumOver(w, CarriersWith(aggs, digest, s))
  }

  lemma MassesAre(aggs: Aggregates, w: Masses, digest: string)
    requires UniqueIds(aggs) && RewardsOf(aggs, w)
    ensures MassesOf(aggs, w, digest, Members(EligibleOnly(aggs), digest))
  {
    var e := EligibleOnly(aggs);
    var members := Members(e, digest);
    hide Members, EligibleOnly, CarriersWith, SumOver, StrategyMass, UniqueIds, RewardsOf;
    EligibleUnique(aggs);
    MembersUnique(e, digest);
    EarnersKnown(aggs, digest, w);
    forall s ensures CarriersWith(aggs, digest, s) <= w.Keys
                     && StrategyMass(members, s) == SumOver(w, CarriersWith(aggs, digest, s))
    {
      StrategyMassIs(members, s, w);
      CarriersWithAre(aggs, digest, s);
    }
  }

  lemma LeastIs(aggs: Aggregates, w: Masses, digest: string, members: Aggregates, mass: real)
    requires MassesOf(aggs, w, digest, members)
    requires forall g :: g in members <==> Earner(aggs, g) && g.behaviorDigest == digest
    requires forall g :: g in members ==> mass <= StrategyMass(members, g.strategyDigest)
    requires exists g :: g in members && mass == StrategyMass(members, g.strategyDigest)
    ensures LeastStrategyMass(aggs, w, digest, mass)
  {
    hide Earner, CarriersWith, SumOver, StrategyMass;
  }

  lemma GroupMassIs(aggs: Aggregates, w: Masses, digest: string)
    requires UniqueIds(aggs) && RewardsOf(aggs, w) && digest in Digests(EligibleOnly(aggs))
    ensures LeastStrategyMass(aggs, w, digest, GroupMass(EligibleOnly(aggs), digest))
  {
    var members := Members(EligibleOnly(aggs), digest);
    MembersNonEmpty(EligibleOnly(aggs), digest);
    assert GroupMass(EligibleOnly(aggs), digest) == MinMass(members, members);
    hide *;
    MinMassIsMinimum(members, members);
    MassesAre(aggs, w, digest);
    EarnersKnown(aggs, digest, w);
    LeastIs(aggs, w, digest, members, MinMass(members, members));
  }

  /** A member's part is to the group's weight as its reward is to all rewards of the
      group. */
  ghost predicate InProportion(part: real, rewards: real, groupWeight: real, reward: real) {
    rewards > 0.0 && part * rewards == groupWeight * reward
  }

  /** The parts of all earning miners, and of nobody else. */
  ghost predicate PartsOf(aggs: Aggregates, w: Masses, weights: Masses, groups: Masses) {
    && weights.Keys == (set g | g in aggs && g.eligible && g.reward > 0.0 :: g.minerId)
    && (forall g :: Earner(aggs, g) ==>
          && g.minerId in weights && g.behaviorDigest in groups && Carriers(aggs, g.behaviorDigest) <= w.Keys
          && InProportion(weights[g.minerId], SumOver(w, Carriers(aggs, g.behaviorDigest)),
                          groups[g.behaviorDigest], g.reward))
  }

  lemma ProportionIs(group: real, reward: real, rewards: real)
    requires rewards > 0.0
    ensures InProportion(Over(Times(group, reward), rewards), rewards, group, reward)
  {
    OverTimes(Times(group, reward), rewards);
  }

  lemma PartsAre(aggs: Aggregates, w: Masses, weights: Masses, groups: Masses)
    requires UniqueIds(aggs) && RewardsOf(aggs, w) && Entries(weights, groups, EligibleOnly(aggs))
    ensures PartsOf(aggs, w, weights, groups)
  {
    EarnerIdsAre(aggs);
    assert weights.Keys == MinerIds(EligibleOnly(aggs));
    hide InProportion, Carriers, SumOver, RewardsOf, UniqueIds, Entries, EligibleOnly, MinerIds;
    forall g | Earner(aggs, g)
      ensures g.minerId in weights && g.behaviorDigest in groups && Carriers(aggs, g.behaviorDigest) <= w.Keys
      ensures InProportion(weights[g.minerId], SumOver(w, Carriers(aggs, g.behaviorDigest)),
                           groups[g.behaviorDigest], g.reward)
    {
      EarnerHasPart(aggs, weights, groups, g);
      OnePart(aggs, w, weights, groups, g);
    }
  }

  lemma EarnerIdsAre(aggs: Aggregates)
    ensures MinerIds(EligibleOnly(aggs)) == set g | g in aggs && g.eligible && g.reward > 0.0 :: g.minerId
  {
  }

  lemma EarnerHasPart(aggs: Aggregates, weights: Masses, groups: Masses, g: MinerAggregate)
    requires Earner(aggs, g) && Entries(weights, groups, EligibleOnly(aggs))
    ensures g in EligibleOnly(aggs) && g.minerId in weights && g.behaviorDigest in groups
  {
    var e := EligibleOnly(aggs);
    assert g in e;
    assert g.behaviorDigest in Digests(e) && g.minerId in MinerIds(e);
    hide MemberWeight, RewardSum, Members;
  }

  lemma OnePart(aggs: Aggregates, w: Masses, weights: Masses, groups: Masses, g: MinerAggregate)
    requires UniqueIds(aggs) && RewardsOf(aggs, w) && Entries(weights, groups, EligibleOnly(aggs))
    requires g in EligibleOnly(aggs) && g.behaviorDigest in groups && g.minerId in weights
    ensures Carriers(aggs, g.behaviorDigest) <= w.Keys
    ensures InProportion(weights[g.minerId], SumOver(w, Carriers(aggs, g.behaviorDigest)),
                         groups[g.behaviorDigest], g.reward)
  {
    var e, d := EligibleOnly(aggs), g.behaviorDigest;
    var members := Members(e, d);
    assert RewardSum(members) > 0.0
        && weights[g.minerId] == Over(Times(groups[d], g.reward), RewardSum(members));
    hide *;
    EligibleUnique(aggs);
    MembersUnique(e, d);
    EarnersKnown(aggs, d, w);
    RewardSumIs(members, w);
    CarriersAre(aggs, d);
    ProportionIs(groups[d], g.reward, RewardSum(members));
  }

  /** A planned allocation water-fills the groups' conservative masses and divides each
      group's weight in proportion to the rewards of its members. */
  lemma AllocationMeans(aggs: Aggregates, policy: Policy, tol: real, w: Masses) returns (raw: Masses)
    requires UniqueIds(aggs) && RewardsOf(aggs, w) && Allocate(aggs, policy, tol).Planned?
    ensures var r := Allocate(aggs, policy, tol);
            && raw.Keys == CarriedDigests(aggs)
            && (forall d :: d in raw ==> LeastStrategyMass(aggs, w, d, raw[d]))
            && Normalize(raw, policy.maximumWeight, tol) == Weights(r.strategyWeights)
            && PartsOf(aggs, w, r.weights, r.strategyWeights)
  {
    var e := EligibleOnly(aggs);
    raw := RawGroups(e);
    assert raw.Keys == Digests(e) && forall d :: d in Digests(e) ==> raw[d] == GroupMass(e, d);
    hide *;
    AllocationShape(aggs, policy, tol);
    AllocationEntries(aggs, policy, tol);
    CarriedDigestsAre(aggs);
    PartsAre(aggs, w, Allocate(aggs, policy, tol).weights, Allocate(aggs, policy, tol).strategyWeights);
    forall d | d in raw ensures LeastStrategyMass(aggs, w, d, raw[d]) {
      GroupMassIs(aggs, w, d);
    }
  }
}
