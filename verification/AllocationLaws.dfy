/** What an allocation hands out: each miner's part, each group's total, the whole. */
module AllocationLaws {
  import opened Statistics
  import opened MapTotals
  import opened WaterFilling
  import opened CappedNormalization
  import opened Aggregation
  import opened Allocation
  import ConcentrationMetrics

  ghost predicate UniqueIds(e: Aggregates) {
    forall i, j :: 0 <= i < j < |e| ==> e[i].minerId != e[j].minerId
  }

  lemma UniqueElements(e: Aggregates, g: MinerAggregate, h: MinerAggregate)
    requires UniqueIds(e) && g in e && h in e && g.minerId == h.minerId
    ensures g == h
  {
    var i :| 0 <= i < |e| && e[i] == g;
    var j :| 0 <= j < |e| && e[j] == h;
    assert !(i < j) && !(j < i);
  }

  lemma DisjointGroups(e: Aggregates, g: MinerAggregate, d: string)
    requires UniqueIds(e) && g in e && g.behaviorDigest != d
    ensures g.minerId !in MinerIds(Members(e, d))
  {
    forall h | h in Members(e, d) ensures h.minerId != g.minerId {
      if h.minerId == g.minerId { UniqueElements(e, g, h); }
    }
  }

  lemma {:induction false} MembersUnique(e: Aggregates, digest: string)
    requires UniqueIds(e)
    ensures UniqueIds(Members(e, digest))
  {
    if e != [] {
      MembersUnique(e[1..], digest);
      forall g | g in Members(e[1..], digest) ensures g.minerId != e[0].minerId {
        assert g in e[1..];
      }
    }
  }

  lemma {:induction false} EligibleUnique(aggs: Aggregates)
    requires UniqueIds(aggs)
    ensures UniqueIds(EligibleOnly(aggs))
  {
    if aggs != [] {
      EligibleUnique(aggs[1..]);
      forall g | g in EligibleOnly(aggs[1..]) ensures g.minerId != aggs[0].minerId {
        assert g in aggs[1..];
      }
    }
  }

  lemma EligibleEarn(aggs: Aggregates)
    ensures AllEarn(EligibleOnly(aggs))
  {
  }

  // ----- one entry per miner -------------------------------------------------

  lemma MinerIdsSnoc(some: Aggregates)
    requires some != []
    ensures MinerIds(some) == MinerIds(some[..|some| - 1]) + {some[|some| - 1].minerId}
  {
    assert some == some[..|some| - 1] + [some[|some| - 1]];
  }

  lemma {:induction false} AssignMembersAt(acc: Masses, groups: Masses, members: Aggregates, some: Aggregates)
    requires RewardSum(members) != 0.0 && forall g :: g in some ==> g.behaviorDigest in groups
    requires UniqueIds(some)
    ensures var w := AssignMembers(acc, groups, members, some);
            && w.Keys == acc.Keys + MinerIds(some)
            && (forall id :: id in acc && id !in MinerIds(some) ==> w[id] == acc[id])
            && (forall g :: g in some ==> w[g.minerId] == MemberWeight(groups, members, g))
  {
    hide MemberWeight, RewardSum;
    if some != [] {
      var n := |some| - 1;
      var rest, last := some[..n], some[n];
      assert last in some;
      assert some == rest + [last];
      MinerIdsSnoc(some);
      AssignMembersAt(acc, groups, members, rest);
      LastIdFresh(some);
      var before, w := AssignMembers(acc, groups, members, rest), AssignMembers(acc, groups, members, some);
      assert w == before[last.minerId := MemberWeight(groups, members, last)];
      hide *;
      forall g | g in some ensures w[g.minerId] == MemberWeight(groups, members, g) {
        if g in rest { assert g.minerId != last.minerId; } else { assert g == last; }
      }
    }
  }

  lemma LastIdFresh(some: Aggregates)
    requires UniqueIds(some) && some != []
    ensures forall g :: g in some[..|some| - 1] ==> g.minerId != some[|some| - 1].minerId
  {
    var rest := some[..|some| - 1];
    forall g | g in rest ensures g.minerId != some[|some| - 1].minerId {
      var i :| 0 <= i < |rest| && rest[i] == g;
      assert some[i] == g;
    }
  }

  /** The miners whose group is among `digests`. */
  ghost function IdsIn(e: Aggregates, digests: seq<string>): set<string> {
    set g | g in e && g.behaviorDigest in digests :: g.minerId
  }

  lemma IdsInSnoc(e: Aggregates, digests: seq<string>)
    requires digests != []
    ensures IdsIn(e, digests)
         == IdsIn(e, digests[..|digests| - 1]) + MinerIds(Members(e, digests[|digests| - 1]))
  {
    var rest, d := digests[..|digests| - 1], digests[|digests| - 1];
    assert digests == rest + [d];
  }

  lemma {:induction false} AssignGroupsAt(groups: Masses, e: Aggregates, digests: seq<string>)
    requires AllEarn(e) && groups.Keys == Digests(e) && (forall d :: d in digests ==> d in Digests(e))
    requires UniqueIds(e)
    ensures var w := AssignGroups(groups, e, digests);
            && w.Keys == IdsIn(e, digests)
            && (forall g :: g in e && g.behaviorDigest in digests ==>
                  RewardSum(Members(e, g.behaviorDigest)) != 0.0
                  && w[g.minerId] == MemberWeight(groups, Members(e, g.behaviorDigest), g))
  {
    if digests != [] {
      var n := |digests| - 1;
      var rest, d := digests[..n], digests[n];
      assert digests == rest + [d];
      var members := Members(e, d);
      assert d in digests;
      MembersNonEmpty(e, d);
      RewardSumPositive(members);
      MembersUnique(e, d);
      AssignGroupsAt(groups, e, rest);
      AssignMembersAt(AssignGroups(groups, e, rest), groups, members, members);
      IdsInSnoc(e, digests);
      AssignGroupsStep(groups, e, digests);
    }
  }

  lemma AssignGroupsStep(groups: Masses, e: Aggregates, digests: seq<string>)
    requires AllEarn(e) && groups.Keys == Digests(e) && (forall d :: d in digests ==> d in Digests(e))
    requires UniqueIds(e) && digests != []
    requires var n := |digests| - 1;
             var w, acc, members := AssignGroups(groups, e, digests), AssignGroups(groups, e, digests[..n]),
                                    Members(e, digests[n]);
             && acc.Keys == IdsIn(e, digests[..n])
             && (forall g :: g in e && g.behaviorDigest in digests[..n] ==>
                  RewardSum(Members(e, g.behaviorDigest)) != 0.0
                  && acc[g.minerId] == MemberWeight(groups, Members(e, g.behaviorDigest), g))
             && RewardSum(members) != 0.0
             && w.Keys == acc.Keys + MinerIds(members)
             && (forall id :: id in acc && id !in MinerIds(members) ==> w[id] == acc[id])
             && (forall g :: g in members ==> w[g.minerId] == MemberWeight(groups, members, g))
    ensures forall g :: g in e && g.behaviorDigest in digests ==>
              RewardSum(Members(e, g.behaviorDigest)) != 0.0
              && g.minerId in AssignGroups(groups, e, digests)
              && AssignGroups(groups, e, digests)[g.minerId]
                 == MemberWeight(groups, Members(e, g.behaviorDigest), g)
  {
    hide AssignGroups, MemberWeight, RewardSum;
    var n := |digests| - 1;
    var d, members := digests[n], Members(e, digests[n]);
    assert digests == digests[..n] + [d];
    forall g | g in e && g.behaviorDigest in digests
      ensures RewardSum(Members(e, g.behaviorDigest)) != 0.0
              && g.minerId in AssignGroups(groups, e, digests)
              && AssignGroups(groups, e, digests)[g.minerId]
                 == MemberWeight(groups, Members(e, g.behaviorDigest), g)
    {
      if g.behaviorDigest == d {
        assert g in members;
      } else {
        assert g.behaviorDigest in digests[..n];
        assert g.minerId in IdsIn(e, digests[..n]);
        DisjointGroups(e, g, d);
      }
    }
  }

  lemma AllocationShape(aggs: Aggregates, policy: Policy, tol: real)
    requires Allocate(aggs, policy, tol).Planned?
    ensures var e, r := EligibleOnly(aggs), Allocate(aggs, policy, tol);
            && AllEarn(e)
            && Normalize(RawGroups(e), policy.maximumWeight, tol) == Weights(r.strategyWeights)
            && r.strategyWeights.Keys == Digests(e)
            && r.weights == AssignGroups(r.strategyWeights, e, OpenedDigests(e))
  {
    hide Normalize, AssignGroups, RawGroups;
  }

  /** One weight per miner: the group's weight in proportion to the miner's reward. */
  ghost predicate Entries(w: Masses, groups: Masses, e: Aggregates) {
    && w.Keys == MinerIds(e)
    && groups.Keys == Digests(e)
    && forall g :: g in e ==>
         RewardSum(Members(e, g.behaviorDigest)) > 0.0
         && w[g.minerId] == MemberWeight(groups, Members(e, g.behaviorDigest), g)
  }

  lemma EntriesOf(groups: Masses, e: Aggregates)
    requires AllEarn(e) && groups.Keys == Digests(e) && UniqueIds(e)
    ensures Entries(AssignGroups(groups, e, OpenedDigests(e)), groups, e)
  {
    hide AssignGroups, MemberWeight, RewardSum, OpenedDigests, Members;
    var digests := OpenedDigests(e);
    AssignGroupsAt(groups, e, digests);
    IdsInAll(e, digests);
    var w := AssignGroups(groups, e, digests);
    assert w.Keys == MinerIds(e);
    forall g | g in e
      ensures RewardSum(Members(e, g.behaviorDigest)) > 0.0
              && w[g.minerId] == MemberWeight(groups, Members(e, g.behaviorDigest), g)
    {
      assert g.behaviorDigest in Digests(e) && g.behaviorDigest in digests;
      MembersNonEmpty(e, g.behaviorDigest);
      RewardSumPositive(Members(e, g.behaviorDigest));
    }
  }

  lemma IdsInAll(e: Aggregates, digests: seq<string>)
    requires forall d :: d in digests <==> d in Digests(e)
    ensures IdsIn(e, digests) == MinerIds(e)
  {
    forall g | g in e ensures g.behaviorDigest in digests {
      assert g.behaviorDigest in Digests(e);
    }
  }

  lemma AllocationEntries(aggs: Aggregates, policy: Policy, tol: real)
    requires UniqueIds(aggs) && Allocate(aggs, policy, tol).Planned?
    ensures Entries(Allocate(aggs, policy, tol).weights, Allocate(aggs, policy, tol).strategyWeights,
                    EligibleOnly(aggs))
  {
    AllocationShape(aggs, policy, tol);
    EligibleUnique(aggs);
    EntriesOf(Allocate(aggs, policy, tol).strategyWeights, EligibleOnly(aggs));
  }

  // ----- conservation --------------------------------------------------------

  lemma {:induction false} MemberTotals(w: Masses, groups: Masses, members: Aggregates, some: Aggregates, d: string)
    requires UniqueIds(some) && RewardSum(members) != 0.0 && d in groups
    requires forall g :: g in some ==>
               g.behaviorDigest == d && g.minerId in w && w[g.minerId] == MemberWeight(groups, members, g)
    ensures SumOver(w, MinerIds(some)) == Over(Times(groups[d], RewardSum(some)), RewardSum(members))
  {
    if some == [] {
      assert MinerIds(some) == {};
      ZeroPart(groups[d], RewardSum(members));
    } else {
      var g, rest := some[0], some[1..];
      assert some == [g] + rest;
      MemberTotals(w, groups, members, rest, d);
      FirstId(some);
      SumRemove(w, MinerIds(some), g.minerId);
      assert g in some;
      assert RewardSum(some) == g.reward + RewardSum(rest);
      hide *;
      AddedPart(groups[d], g.reward, RewardSum(rest), RewardSum(members));
    }
  }

  lemma FirstId(some: Aggregates)
    requires UniqueIds(some) && some != []
    ensures some[0].minerId in MinerIds(some)
    ensures MinerIds(some) - {some[0].minerId} == MinerIds(some[1..])
  {
    assert some == [some[0]] + some[1..];
    forall h | h in some[1..] ensures h.minerId != some[0].minerId {
      var i :| 0 <= i < |some[1..]| && some[1..][i] == h;
      assert some[i + 1] == h;
    }
  }

  lemma ZeroPart(x: real, n: real)
    requires n != 0.0
    ensures Over(Times(x, 0.0), n) == 0.0
  {
  }

  lemma AddedPart(x: real, a: real, b: real, n: real)
    requires n != 0.0
    ensures Over(Times(x, a + b), n) == Over(Times(x, a), n) + Over(Times(x, b), n)
  {
    TimesSum(x, a, b);
    OverSum(Times(x, a), Times(x, b), n);
  }

  /** The members of a group together receive exactly the group's weight. */
  lemma GroupConserves(aggs: Aggregates, policy: Policy, tol: real, d: string)
    requires UniqueIds(aggs) && Allocate(aggs, policy, tol).Planned?
    requires d in Digests(EligibleOnly(aggs))
    ensures var e, r := EligibleOnly(aggs), Allocate(aggs, policy, tol);
            && MinerIds(Members(e, d)) <= r.weights.Keys
            && d in r.strategyWeights
            && SumOver(r.weights, MinerIds(Members(e, d))) == r.strategyWeights[d]
  {
    var e, r := EligibleOnly(aggs), Allocate(aggs, policy, tol);
    var members := Members(e, d);
    AllocationEntries(aggs, policy, tol);
    hide Allocate;
    EligibleUnique(aggs);
    MembersUnique(e, d);
    MembersNonEmpty(e, d);
    RewardSumPositive(members);
    MemberTotals(r.weights, r.strategyWeights, members, members, d);
    TimesOver(r.strategyWeights[d], RewardSum(members));
  }

  ghost function IdsOfDigests(e: Aggregates, ds: set<string>): set<string> {
    set g | g in e && g.behaviorDigest in ds :: g.minerId
  }

  lemma {:induction false} TotalsByGroup(w: Masses, groups: Masses, e: Aggregates, ds: set<string>)
    requires UniqueIds(e) && ds <= groups.Keys && MinerIds(e) <= w.Keys
    requires forall d :: d in ds ==> SumOver(w, MinerIds(Members(e, d))) == groups[d]
    ensures IdsOfDigests(e, ds) <= w.Keys
    ensures SumOver(w, IdsOfDigests(e, ds)) == SumOver(groups, ds)
    decreases |ds|
  {
    if ds == {} {
      assert IdsOfDigests(e, ds) == {};
    } else {
      var d := Pick(ds);
      TotalsByGroup(w, groups, e, ds - {d});
      IdsWithout(e, ds, d);
      SumSplit(w, IdsOfDigests(e, ds), MinerIds(Members(e, d)));
    }
  }

  lemma IdsWithout(e: Aggregates, ds: set<string>, d: string)
    requires UniqueIds(e) && d in ds
    ensures MinerIds(Members(e, d)) <= IdsOfDigests(e, ds)
    ensures IdsOfDigests(e, ds) - MinerIds(Members(e, d)) == IdsOfDigests(e, ds - {d})
    ensures IdsOfDigests(e, ds) <= MinerIds(e)
  {
    forall id | id in IdsOfDigests(e, ds - {d}) ensures id !in MinerIds(Members(e, d)) {
      var g :| g in e && g.behaviorDigest in ds - {d} && g.minerId == id;
      DisjointGroups(e, g, d);
    }
  }

  lemma {:induction false} MinMassPositive(members: Aggregates, some: Aggregates)
    requires some != [] && (forall g :: g in some ==> g in members) && AllEarn(members)
    ensures MinMass(members, some) > 0.0
  {
    assert some[0] in members;
    StrategyMassAtLeast(members, some[0]);
    if |some| > 1 { MinMassPositive(members, some[1..]); }
  }

  lemma {:induction false} StrategyMassAtLeast(members: Aggregates, g: MinerAggregate)
    requires AllEarn(members)
    ensures StrategyMass(members, g.strategyDigest) >= 0.0
    ensures g in members ==> StrategyMass(members, g.strategyDigest) >= g.reward
  {
    if members != [] {
      assert members[0] in members;
      assert AllEarn(members[1..]);
      StrategyMassAtLeast(members[1..], g);
    }
  }

  lemma RawGroupsPositive(e: Aggregates)
    requires AllEarn(e)
    ensures Positive(RawGroups(e)) && NonNegative(RawGroups(e))
  {
    forall d | d in Digests(e) ensures GroupMass(e, d) > 0.0 {
      MembersNonEmpty(e, d);
      MinMassPositive(Members(e, d), Members(e, d));
    }
  }

  /** A planned allocation hands out exactly one unit of weight. */
  lemma AllocationTotal(aggs: Aggregates, policy: Policy, tol: real)
    requires UniqueIds(aggs) && Allocate(aggs, policy, tol).Planned?
    requires Total(Allocate(aggs, policy, tol).strategyWeights) == 1.0
    ensures Total(Allocate(aggs, policy, tol).weights) == 1.0
  {
    var e, r := EligibleOnly(aggs), Allocate(aggs, policy, tol);
    AllocationEntries(aggs, policy, tol);
    assert r.weights.Keys == MinerIds(e) && r.strategyWeights.Keys == Digests(e);
    hide *;
    EligibleUnique(aggs);
    forall d | d in Digests(e)
      ensures MinerIds(Members(e, d)) <= r.weights.Keys
              && SumOver(r.weights, MinerIds(Members(e, d))) == r.strategyWeights[d]
    {
      GroupConserves(aggs, policy, tol, d);
    }
    TotalsByGroup(r.weights, r.strategyWeights, e, Digests(e));
    AllDigests(e);
    TotalsAre(r.weights);
    TotalsAre(r.strategyWeights);
  }

  lemma AllDigests(e: Aggregates)
    ensures IdsOfDigests(e, Digests(e)) == MinerIds(e)
  {
  }

  lemma TotalsAre(m: Masses)
    ensures Total(m) == SumOver(m, m.Keys)
  {
  }

  /** The weights sum to one, no behaviour group exceeds the cap by more than the
      admitted shortfall, and so neither does the Herfindahl index of the groups. */
  lemma AllocationConserves(aggs: Aggregates, policy: Policy, tol: real)
    requires UniqueIds(aggs) && Allocate(aggs, policy, tol).Planned?
    requires 0.0 < policy.maximumWeight <= 1.0 && 0.0 <= tol <= SHORTFALL
    ensures var r := Allocate(aggs, policy, tol);
            && Total(r.weights) == 1.0
            && Distribution(RawGroups(EligibleOnly(aggs)), r.strategyWeights, policy.maximumWeight + SHORTFALL)
            && (var m := ConcentrationMetrics.Measure(
                  ConcentrationMetrics.Values(r.strategyWeights, r.strategyWeights.Keys));
                m.Measured? && m.metrics.hhi <= policy.maximumWeight + SHORTFALL)
  {
    var e, r := EligibleOnly(aggs), Allocate(aggs, policy, tol);
    AllocationShape(aggs, policy, tol);
    hide Allocate, Normalize, RawGroups, SumOver;
    RawGroupsPositive(e);
    NormalizeDistributes(RawGroups(e), policy.maximumWeight, tol);
    AllocationTotal(aggs, policy, tol);
    ConcentrationMetrics.HhiBelowCap(r.strategyWeights, policy.maximumWeight + SHORTFALL);
  }
}
