/** `allocate_weights` as the source runs it, proved equal to `Allocation.Allocate`. */
module AllocationLoop {
  import opened Statistics
  import opened MapTotals
  import opened WaterFilling
  import opened CappedNormalization
  import opened Aggregation
  import opened Allocation

  // ----- grouping by behaviour -----------------------------------------------

  ghost predicate GroupedByDigest(prefix: Aggregates, byDigest: map<string, Aggregates>, order: seq<string>) {
    && order == OpenedDigests(prefix)
    && byDigest.Keys == Digests(prefix)
    && forall d :: d in byDigest ==> byDigest[d] == Members(prefix, d)
  }

  lemma {:induction false} MembersSnoc(e: Aggregates, g: MinerAggregate, d: string)
    ensures Members(e + [g], d) == Members(e, d) + if g.behaviorDigest == d then [g] else []
  {
    if e == [] {
      assert e + [g] == [g];
    } else {
      MembersSnoc(e[1..], g, d);
      assert (e + [g])[1..] == e[1..] + [g];
    }
  }

  lemma MembersEmpty(e: Aggregates, d: string)
    requires d !in Digests(e)
    ensures Members(e, d) == []
  {
    if Members(e, d) != [] {
      assert Members(e, d)[0] in Members(e, d);
    }
  }

  lemma OpenedSnoc(prefix: Aggregates, g: MinerAggregate)
    ensures Digests(prefix + [g]) == Digests(prefix) + {g.behaviorDigest}
    ensures OpenedDigests(prefix + [g])
         == if g.behaviorDigest in Digests(prefix) then OpenedDigests(prefix)
            else OpenedDigests(prefix) + [g.behaviorDigest]
  {
    assert (prefix + [g])[..|prefix|] == prefix && (prefix + [g])[|prefix|] == g;
  }

  /** `by_digest[aggregate.behavior_digest].append(aggregate)` on a default dictionary. */
  function Joined(byDigest: map<string, Aggregates>, g: MinerAggregate): map<string, Aggregates> {
    var d := g.behaviorDigest;
    byDigest[d := (if d in byDigest then byDigest[d] else []) + [g]]
  }

  /** A new key goes to the end of the dictionary. */
  function Opened(byDigest: map<string, Aggregates>, order: seq<string>, g: MinerAggregate): seq<string> {
    if g.behaviorDigest in byDigest then order else order + [g.behaviorDigest]
  }

  lemma GroupedStep(prefix: Aggregates, byDigest: map<string, Aggregates>, order: seq<string>, g: MinerAggregate)
    requires GroupedByDigest(prefix, byDigest, order)
    ensures GroupedByDigest(prefix + [g], Joined(byDigest, g), Opened(byDigest, order, g))
  {
    var d, next := g.behaviorDigest, prefix + [g];
    OpenedSnoc(prefix, g);
    if d !in byDigest { MembersEmpty(prefix, d); }
    var byDigest' := Joined(byDigest, g);
    assert byDigest'.Keys == Digests(next);
    hide Members, OpenedDigests, Digests;
    forall k | k in byDigest' ensures byDigest'[k] == Members(next, k) {
      MembersSnoc(prefix, g, k);
    }
  }

  method GroupByBehavior(e: Aggregates) returns (byDigest: map<string, Aggregates>, order: seq<string>)
    ensures GroupedByDigest(e, byDigest, order)
  {
    byDigest, order := map[], [];
    NothingGrouped();
    assert e[..0] == [];
    hide *;
    for i := 0 to |e|
      invariant GroupedByDigest(e[..i], byDigest, order)
    {
      GroupedNext(e, i, byDigest, order);
      order := Opened(byDigest, order, e[i]);
      byDigest := Joined(byDigest, e[i]);
    }
    GroupedEnd(e, byDigest, order);
  }

  lemma GroupedNext(e: Aggregates, i: nat, byDigest: map<string, Aggregates>, order: seq<string>)
    requires i < |e| && GroupedByDigest(e[..i], byDigest, order)
    ensures GroupedByDigest(e[..i + 1], Joined(byDigest, e[i]), Opened(byDigest, order, e[i]))
  {
    assert e[..i + 1] == e[..i] + [e[i]];
    GroupedStep(e[..i], byDigest, order, e[i]);
  }

  lemma GroupedEnd(e: Aggregates, byDigest: map<string, Aggregates>, order: seq<string>)
    requires GroupedByDigest(e[..|e|], byDigest, order)
    ensures GroupedByDigest(e, byDigest, order)
  {
    assert e[..|e|] == e;
  }

  lemma NothingGrouped()
    ensures GroupedByDigest([], map[], [])
  {
  }

  // ----- conservative mass of a group ----------------------------------------

  lemma {:induction false} StrategyMassSnoc(members: Aggregates, g: MinerAggregate, s: string)
    ensures StrategyMass(members + [g], s)
         == StrategyMass(members, s) + if g.strategyDigest == s then g.reward else 0.0
  {
    if members == [] {
      assert members + [g] == [g];
    } else {
      StrategyMassSnoc(members[1..], g, s);
      assert (members + [g])[1..] == members[1..] + [g];
    }
  }

  ghost predicate Accumulated(prefix: Aggregates, mass: Masses) {
    && mass.Keys == Strategies(prefix)
    && (forall s :: StrategyMass(prefix, s) == if s in mass then mass[s] else 0.0)
  }

  lemma AccumulatedStep(prefix: Aggregates, mass: Masses, g: MinerAggregate)
    requires Accumulated(prefix, mass)
    ensures Accumulated(prefix + [g],
              mass[g.strategyDigest := (if g.strategyDigest in mass then mass[g.strategyDigest] else 0.0) + g.reward])
  {
    var next, s0 := prefix + [g], g.strategyDigest;
    assert Strategies(next) == Strategies(prefix) + {s0};
    forall s ensures StrategyMass(next, s) == StrategyMass(prefix, s) + if s0 == s then g.reward else 0.0 {
      StrategyMassSnoc(prefix, g, s);
    }
  }

  method AccumulateStrategies(members: Aggregates) returns (mass: Masses)
    ensures Accumulated(members, mass)
  {
    mass := map[];
    assert members[..0] == [];
    for i := 0 to |members|
      invariant Accumulated(members[..i], mass)
    {
      var g := members[i];
      AccumulatedStep(members[..i], mass, g);
      assert members[..i + 1] == members[..i] + [g];
      mass := mass[g.strategyDigest := (if g.strategyDigest in mass then mass[g.strategyDigest] else 0.0) + g.reward];
    }
    assert members[..|members|] == members;
  }

  /** `min(mapping.values())`. */
  method Least(mass: Masses) returns (x: real)
    requires mass.Keys != {}
    ensures forall s :: s in mass ==> x <= mass[s]
    ensures exists s :: s in mass && mass[s] == x
  {
    var s0 :| s0 in mass.Keys;
    x := mass[s0];
    var rest := mass.Keys - {s0};
    while rest != {}
      invariant rest <= mass.Keys
      invariant forall s :: s in mass.Keys - rest ==> x <= mass[s]
      invariant exists s :: s in mass && mass[s] == x
      decreases |rest|
    {
      var s :| s in rest;
      if mass[s] < x { x := mass[s]; }
      rest := rest - {s};
    }
  }

  method ConservativeMass(members: Aggregates) returns (x: real)
    requires members != []
    ensures x == MinMass(members, members)
  {
    var mass := AccumulateStrategies(members);
    assert members[0] in members && members[0].strategyDigest in Strategies(members);
    x := Least(mass);
    MinMassIsMinimum(members, members);
    var s :| s in mass && mass[s] == x;
    var g :| g in members && g.strategyDigest == s;
    var h :| h in members && MinMass(members, members) == StrategyMass(members, h.strategyDigest);
    assert h.strategyDigest in Strategies(members);
    assert StrategyMass(members, s) == mass[s];
    assert StrategyMass(members, h.strategyDigest) == mass[h.strategyDigest];
  }

  /** The loop over `by_digest` that fills `raw_groups`. */
  method FillRawGroups(e: Aggregates, byDigest: map<string, Aggregates>, order: seq<string>) returns (raw: Masses)
    requires GroupedByDigest(e, byDigest, order)
    ensures raw == RawGroups(e)
  {
    raw := map[];
    RawStart(e, order);
    hide *;
    for i := 0 to |order|
      invariant RawFilled(e, order, i, raw)
    {
      GroupToWeigh(e, byDigest, order, i);
      var x := ConservativeMass(byDigest[order[i]]);
      RawStep(e, order, i, raw, x);
      raw := raw[order[i] := x];
    }
    RawEnd(e, byDigest, order, raw);
  }

  ghost predicate RawFilled(e: Aggregates, order: seq<string>, i: nat, raw: Masses)
    requires i <= |order|
  {
    && (forall j :: 0 <= j < i ==> order[j] in raw)
    && (forall d :: d in raw ==> d in Digests(e) && raw[d] == GroupMass(e, d))
  }

  lemma RawStart(e: Aggregates, order: seq<string>)
    ensures RawFilled(e, order, 0, map[])
  {
  }

  lemma RawStep(e: Aggregates, order: seq<string>, i: nat, raw: Masses, x: real)
    requires i < |order| && RawFilled(e, order, i, raw) && order[i] in Digests(e)
    requires Members(e, order[i]) != [] && x == MinMass(Members(e, order[i]), Members(e, order[i]))
    ensures RawFilled(e, order, i + 1, raw[order[i] := x])
  {
    GroupMassIs(e, order[i], x);
    hide GroupMass, Digests, Members, MinMass;
    RawStepValues(e, raw, order[i], x);
    RawStepKeys(order, i, raw, x);
  }

  lemma RawStepKeys(order: seq<string>, i: nat, raw: Masses, x: real)
    requires i < |order| && forall j :: 0 <= j < i ==> order[j] in raw
    ensures forall j :: 0 <= j < i + 1 ==> order[j] in raw[order[i] := x]
  {
  }

  lemma RawStepValues(e: Aggregates, raw: Masses, d0: string, x: real)
    requires forall d :: d in raw ==> d in Digests(e) && raw[d] == GroupMass(e, d)
    requires d0 in Digests(e) && x == GroupMass(e, d0)
    ensures forall d :: d in raw[d0 := x] ==> d in Digests(e) && raw[d0 := x][d] == GroupMass(e, d)
  {
    hide GroupMass, Digests;
  }

  lemma RawEnd(e: Aggregates, byDigest: map<string, Aggregates>, order: seq<string>, raw: Masses)
    requires GroupedByDigest(e, byDigest, order) && RawFilled(e, order, |order|, raw)
    ensures raw == RawGroups(e)
  {
    forall d | d in Digests(e) ensures d in raw {
      assert d in order;
    }
    hide GroupMass;
    RawGroupsAre(e, raw);
  }

  lemma GroupToWeigh(e: Aggregates, byDigest: map<string, Aggregates>, order: seq<string>, i: nat)
    requires GroupedByDigest(e, byDigest, order) && i < |order|
    ensures order[i] in Digests(e) && order[i] in byDigest
    ensures byDigest[order[i]] == Members(e, order[i]) != []
  {
    assert order[i] in order;
    MembersNonEmpty(e, order[i]);
  }

  lemma GroupMassIs(e: Aggregates, d: string, x: real)
    requires d in Digests(e) && Members(e, d) != [] && x == MinMass(Members(e, d), Members(e, d))
    ensures x == GroupMass(e, d)
  {
  }

  lemma RawGroupsAre(e: Aggregates, raw: Masses)
    requires forall d :: d in raw ==> d in Digests(e) && raw[d] == GroupMass(e, d)
    requires forall d :: d in Digests(e) ==> d in raw
    ensures raw == RawGroups(e)
  {
  }

  // ----- dividing the weights ------------------------------------------------

  method SumRewards(members: Aggregates) returns (sum: real)
    ensures sum == RewardSum(members)
  {
    sum := 0.0;
    for i := 0 to |members|
      invariant sum + RewardSum(members[i..]) == RewardSum(members)
    {
      assert members[i..][1..] == members[i + 1..];
      sum := sum + members[i].reward;
    }
  }

  /** The loop over the members of one group. */
  method DivideGroup(acc: Masses, groups: Masses, members: Aggregates) returns (w: Masses)
    requires RewardSum(members) != 0.0 && forall g :: g in members ==> g.behaviorDigest in groups
    ensures w == AssignMembers(acc, groups, members, members)
  {
    w := acc;
    var sum := SumRewards(members);
    hide RewardSum;
    assert members[..0] == [];
    for i := 0 to |members|
      invariant w == AssignMembers(acc, groups, members, members[..i])
    {
      var g := members[i];
      assert g in members;
      assert members[..i + 1][..i] == members[..i] && members[..i + 1][i] == g;
      w := w[g.minerId := Over(Times(groups[g.behaviorDigest], g.reward), sum)];
    }
    assert members[..|members|] == members;
  }

  method DivideGroups(e: Aggregates, byDigest: map<string, Aggregates>, order: seq<string>, groups: Masses)
    returns (w: Masses)
    requires GroupedByDigest(e, byDigest, order) && AllEarn(e) && groups.Keys == Digests(e)
    ensures w == AssignGroups(groups, e, order)
  {
    w := map[];
    DividedStart(e, byDigest, order, groups);
    hide *;
    for i := 0 to |order|
      invariant Divided(groups, e, order, i, w)
    {
      GroupToWeigh(e, byDigest, order, i);
      GroupToDivide(groups, e, order[i]);
      var w' := DivideGroup(w, groups, byDigest[order[i]]);
      DividedStep(groups, e, order, i, w, w');
      w := w';
    }
    DividedEnd(groups, e, order, w);
  }

  ghost predicate Divided(groups: Masses, e: Aggregates, order: seq<string>, i: nat, w: Masses)
    requires i <= |order|
  {
    && AllEarn(e) && groups.Keys == Digests(e)
    && (forall d :: d in order ==> d in Digests(e))
    && w == AssignGroups(groups, e, order[..i])
  }

  lemma DividedStart(e: Aggregates, byDigest: map<string, Aggregates>, order: seq<string>, groups: Masses)
    requires GroupedByDigest(e, byDigest, order) && AllEarn(e) && groups.Keys == Digests(e)
    ensures Divided(groups, e, order, 0, map[])
  {
    assert order[..0] == [];
    assert forall d :: d in order <==> d in Digests(e);
  }

  lemma DividedStep(groups: Masses, e: Aggregates, order: seq<string>, i: nat, w: Masses, w': Masses)
    requires i < |order| && Divided(groups, e, order, i, w)
    requires RewardSum(Members(e, order[i])) != 0.0
    requires forall g :: g in Members(e, order[i]) ==> g.behaviorDigest in groups
    requires w' == AssignMembers(w, groups, Members(e, order[i]), Members(e, order[i]))
    ensures Divided(groups, e, order, i + 1, w')
  {
    AssignGroupsSnoc(groups, e, order, i);
  }

  lemma DividedEnd(groups: Masses, e: Aggregates, order: seq<string>, w: Masses)
    requires Divided(groups, e, order, |order|, w)
    ensures (forall d :: d in order ==> d in Digests(e)) && w == AssignGroups(groups, e, order)
  {
    assert order[..|order|] == order;
  }

  lemma GroupToDivide(groups: Masses, e: Aggregates, d: string)
    requires AllEarn(e) && groups.Keys == Digests(e) && d in Digests(e)
    ensures RewardSum(Members(e, d)) != 0.0
    ensures forall g :: g in Members(e, d) ==> g.behaviorDigest in groups
  {
    MembersNonEmpty(e, d);
    RewardSumPositive(Members(e, d));
  }

  lemma AssignGroupsSnoc(groups: Masses, e: Aggregates, order: seq<string>, i: nat)
    requires AllEarn(e) && groups.Keys == Digests(e) && i < |order|
    requires forall d :: d in order ==> d in Digests(e)
    requires RewardSum(Members(e, order[i])) != 0.0
    ensures AssignGroups(groups, e, order[..i + 1])
         == AssignMembers(AssignGroups(groups, e, order[..i]), groups, Members(e, order[i]), Members(e, order[i]))
  {
    assert order[..i + 1][..i] == order[..i] && order[..i + 1][i] == order[i];
    hide AssignMembers;
  }

  method ReportDuplicates(e: Aggregates, byDigest: map<string, Aggregates>, order: seq<string>)
    returns (duplicates: DuplicateGroups)
    requires GroupedByDigest(e, byDigest, order)
    ensures duplicates == DuplicatesOf(e)
  {
    hide Members, MinerIds, Digests, OpenedDigests;
    duplicates := map d | d in byDigest && |byDigest[d]| > 1 :: MinerIds(byDigest[d]);
  }

  lemma AllocateCases(aggs: Aggregates, policy: Policy, e: Aggregates)
    requires e == EligibleOnly(aggs) && e != []
    ensures AllEarn(e)
    ensures |Digests(e)| < policy.minimumDistinctStrategies ==>
              Allocate(aggs, policy, CAP_TOLERANCE) == NotPlanned(InsufficientStrategyDiversity, DuplicatesOf(e))
    ensures |Digests(e)| >= policy.minimumDistinctStrategies ==>
              Allocate(aggs, policy, CAP_TOLERANCE)
              == match Normalize(RawGroups(e), policy.maximumWeight, CAP_TOLERANCE)
                 case TooFewRecipients => NotPlanned(InsufficientRecipientsForCap, DuplicatesOf(e))
                 case Weights(groups) =>
                   Planned(AssignGroups(groups, e, OpenedDigests(e)), DuplicatesOf(e), groups)
  {
    hide Normalize, RawGroups, DuplicatesOf, OpenedDigests, AssignGroups;
  }

  /** `allocate_weights`. */
  method AllocateWeights(aggs: Aggregates, policy: Policy) returns (r: AllocationResult)
    ensures r == Allocate(aggs, policy, CAP_TOLERANCE)
  {
    var e := EligibleOnly(aggs);
    if e == [] { return NotPlanned(AllFailed, map[]); }
    var byDigest, order := GroupByBehavior(e);
    AllocateCases(aggs, policy, e);
    var duplicates := ReportDuplicates(e, byDigest, order);
    var raw := FillRawGroups(e, byDigest, order);
    assert byDigest.Keys == Digests(e) && order == OpenedDigests(e);
    hide *;
    if |byDigest.Keys| < policy.minimumDistinctStrategies {
      return NotPlanned(InsufficientStrategyDiversity, duplicates);
    }
    var normalized := CappedNormalize(raw, policy.maximumWeight);
    match normalized {
      case TooFewRecipients =>
        return NotPlanned(InsufficientRecipientsForCap, duplicates);
      case Weights(groups) =>
        assert groups.Keys == Digests(e);
        var weights := DivideGroups(e, byDigest, order, groups);
        return Planned(weights, duplicates, groups);
    }
  }
}
