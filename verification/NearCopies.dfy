/** A near-copy: one more eligible miner whose behaviour is already represented but
    whose exact strategy is new to that behaviour group. */
module NearCopies {
  import opened Statistics
  import opened WaterFilling
  import opened CappedNormalization
  import opened Aggregation
  import opened Allocation
  import opened AllocationLaws
  import opened ClonedAllocation

  /** `g` enters the aggregates between `x` and `y` as a near-copy. */
  ghost predicate NearCopy(x: Aggregates, g: MinerAggregate, y: Aggregates) {
    var e := EligibleOnly(x + y);
    && Earns(g)
    && g.behaviorDigest in Digests(e)
    && g.strategyDigest !in Strategies(Members(e, g.behaviorDigest))
  }

  function Joined(x: Aggregates, g: MinerAggregate, y: Aggregates): Aggregates {
    x + ([g] + y)
  }

  lemma EligibleJoined(x: Aggregates, g: MinerAggregate, y: Aggregates)
    requires Earns(g)
    ensures EligibleOnly(x + y) == EligibleOnly(x) + EligibleOnly(y)
    ensures EligibleOnly(Joined(x, g, y)) == Joined(EligibleOnly(x), g, EligibleOnly(y))
  {
    EligibleAppend(x, y);
    EligibleAppend(x, [g] + y);
    EligibleCons(g, y);
  }

  lemma MembersJoined(x: Aggregates, g: MinerAggregate, y: Aggregates, d: string)
    ensures Members(x + y, d) == Members(x, d) + Members(y, d)
    ensures Members(Joined(x, g, y), d)
         == if g.behaviorDigest == d then Joined(Members(x, d), g, Members(y, d)) else Members(x + y, d)
  {
    MembersAppend(x, y, d);
    MembersAppend(x, [g] + y, d);
    MembersCons(g, y, d);
    assert [] + Members(y, d) == Members(y, d);
  }

  lemma DigestsJoined(x: Aggregates, g: MinerAggregate, y: Aggregates)
    requires g.behaviorDigest in Digests(x + y)
    ensures Digests(Joined(x, g, y)) == Digests(x + y)
  {
    forall h ensures h in Joined(x, g, y) <==> h == g || h in x + y {}
  }

  lemma {:induction false} AbsentMass(members: Aggregates, s: string)
    requires s !in Strategies(members)
    ensures StrategyMass(members, s) == 0.0
  {
    if members != [] {
      assert members[0] in members;
      assert Strategies(members[1..]) <= Strategies(members);
      AbsentMass(members[1..], s);
    }
  }

  lemma MassJoined(x: Aggregates, g: MinerAggregate, y: Aggregates, s: string)
    requires g.strategyDigest !in Strategies(x + y)
    ensures StrategyMass(Joined(x, g, y), s) == if s == g.strategyDigest then g.reward else StrategyMass(x + y, s)
  {
    assert ([g] + y)[1..] == y;
    StrategyMassAppend(x, [g] + y, s);
    StrategyMassAppend(x, y, s);
    if s == g.strategyDigest { AbsentMass(x + y, s); }
  }

  /** The group is paid by its least rewarded exact strategy, the newcomer's included. */
  lemma MinMassJoined(x: Aggregates, g: MinerAggregate, y: Aggregates)
    requires x + y != [] && g.strategyDigest !in Strategies(x + y)
    ensures MinMass(Joined(x, g, y), Joined(x, g, y)) == MinReal(MinMass(x + y, x + y), g.reward)
  {
    var m, m' := x + y, Joined(x, g, y);
    hide MinMass, StrategyMass;
    MinMassIsMinimum(m, m);
    MinMassIsMinimum(m', m');
    assert forall h :: h in m' <==> h == g || h in m;
    var low :| low in m && MinMass(m, m) == StrategyMass(m, low.strategyDigest);
    var low' :| low' in m' && MinMass(m', m') == StrategyMass(m', low'.strategyDigest);
    MassJoined(x, g, y, low.strategyDigest);
    MassJoined(x, g, y, low'.strategyDigest);
    MassJoined(x, g, y, g.strategyDigest);
    assert low.strategyDigest in Strategies(m);
  }

  lemma GroupMassJoined(x: Aggregates, g: MinerAggregate, y: Aggregates, d: string)
    requires d in Digests(x + y) && g.behaviorDigest in Digests(x + y)
    requires g.strategyDigest !in Strategies(Members(x + y, g.behaviorDigest))
    ensures d in Digests(Joined(x, g, y))
    ensures GroupMass(Joined(x, g, y), d)
         == if d == g.behaviorDigest then MinReal(GroupMass(x + y, d), g.reward) else GroupMass(x + y, d)
  {
    DigestsJoined(x, g, y);
    MembersJoined(x, g, y, d);
    MembersNonEmpty(x + y, d);
    hide MinMass;
    if d == g.behaviorDigest { MinMassJoined(Members(x, d), g, Members(y, d)); }
  }

  lemma RawGroupsJoined(x: Aggregates, g: MinerAggregate, y: Aggregates)
    requires g.behaviorDigest in Digests(x + y)
    requires g.strategyDigest !in Strategies(Members(x + y, g.behaviorDigest))
    ensures var raw, raw' := RawGroups(x + y), RawGroups(Joined(x, g, y));
            && raw.Keys == raw'.Keys && g.behaviorDigest in raw
            && raw'[g.behaviorDigest] == MinReal(raw[g.behaviorDigest], g.reward)
            && forall d :: d in raw && d != g.behaviorDigest ==> raw'[d] == raw[d]
  {
    DigestsJoined(x, g, y);
    forall d | d in Digests(x + y)
      ensures d in Digests(Joined(x, g, y))
      ensures GroupMass(Joined(x, g, y), d)
           == if d == g.behaviorDigest then MinReal(GroupMass(x + y, d), g.reward) else GroupMass(x + y, d)
    {
      GroupMassJoined(x, g, y, d);
    }
    hide GroupMass, Members, Strategies;
  }

  /** What rounding at the cap may cost, per recipient group: nothing at tolerance zero. */
  function Slack(groups: nat, cap: real, tol: real): real {
    Times(groups as real, if Times(groups as real, cap) >= 1.0 then tol else SHORTFALL)
  }

  /** The newcomer's group gains nothing; no other group and none of its members loses. */
  ghost predicate NoGain(r: AllocationResult, r': AllocationResult, e: Aggregates, d: string, slack: real)
    requires r.Planned? && r'.Planned?
  {
    && r.strategyWeights.Keys == r'.strategyWeights.Keys
    && d in r.strategyWeights
    && r'.strategyWeights[d] <= r.strategyWeights[d] + slack
    && (forall k :: k in r.strategyWeights && k != d ==> r.strategyWeights[k] <= r'.strategyWeights[k] + slack)
    && (forall h :: h in e && h.behaviorDigest != d ==>
          h.minerId in r.weights && h.minerId in r'.weights
          && r.weights[h.minerId] <= r'.weights[h.minerId] + slack)
  }

  lemma FractionOf(w: real, w': real, slack: real, x: real, n: real)
    requires 0.0 < x <= n && w <= w' + slack && slack >= 0.0
    ensures Over(Times(w, x), n) <= Over(Times(w', x), n) + slack
  {
    var q := Over(x, n);
    assert Over(Times(w, x), n) == Times(w, q);
    assert Over(Times(w', x), n) == Times(w', q);
    OverTimes(x, n);
    TimesFlip(q, n);
    OrderScale(n, q, 1.0);
    OrderScale(n, q, 0.0);
    Shrink(w, w', slack, q);
  }

  lemma Shrink(w: real, w': real, slack: real, q: real)
    requires 0.0 < q <= 1.0 && w <= w' + slack && slack >= 0.0
    ensures Times(w, q) <= Times(w', q) + slack
  {
    var gap := w' + slack - w;
    assert gap * q >= 0.0;
    assert gap * q == w' * q + slack * q - w * q;
    assert slack * (1.0 - q) >= 0.0;
  }

  lemma {:induction false} RewardWithin(members: Aggregates, h: MinerAggregate)
    requires AllEarn(members) && h in members
    ensures 0.0 < h.reward <= RewardSum(members)
  {
    var rest := members[1..];
    assert members[0] in members && members == [members[0]] + rest;
    assert AllEarn(rest);
    if rest != [] { RewardSumPositive(rest); }
    if h != members[0] { RewardWithin(rest, h); }
  }

  lemma OutcomeJoined(x: Aggregates, g: MinerAggregate, y: Aggregates, policy: Policy, tol: real)
    requires NearCopy(x, g, y)
    requires 0.0 < policy.maximumWeight <= 1.0 && 0.0 <= tol <= SHORTFALL
    ensures var r, r' := Allocate(x + y, policy, tol), Allocate(Joined(x, g, y), policy, tol);
            var e := EligibleOnly(x + y);
            && (r.NotPlanned? ==> r'.NotPlanned? && r'.reason == r.reason)
            && (r.Planned? ==>
                  && r'.Planned?
                  && r.strategyWeights.Keys == r'.strategyWeights.Keys == Digests(e)
                  && var d, slack := g.behaviorDigest, Slack(|Digests(e)|, policy.maximumWeight, tol);
                     && r'.strategyWeights[d] <= r.strategyWeights[d] + slack
                     && forall k :: k in r.strategyWeights && k != d ==>
                          r.strategyWeights[k] <= r'.strategyWeights[k] + slack)
  {
    var e, d, cap := EligibleOnly(x + y), g.behaviorDigest, policy.maximumWeight;
    EligibleJoined(x, g, y);
    var e' := EligibleOnly(Joined(x, g, y));
    RawGroupsJoined(EligibleOnly(x), g, EligibleOnly(y));
    DigestsJoined(EligibleOnly(x), g, EligibleOnly(y));
    EligibleEarn(x + y);
    EligibleEarn(Joined(x, g, y));
    RawGroupsPositive(e);
    RawGroupsPositive(e');
    var raw, raw' := RawGroups(e), RawGroups(e');
    assert |raw| == |raw.Keys| == |raw'.Keys| == |raw'|;
    assert e != [] && e' != [];
    assert Digests(e) == Digests(e') == raw.Keys;
    OutcomeOf(x + y, policy, tol);
    OutcomeOf(Joined(x, g, y), policy, tol);
    hide *;
    NormalizeDistributes(raw, cap, tol);
    NormalizeDistributes(raw', cap, tol);
    if Normalize(raw, cap, tol).Weights? {
      assert raw'[d] <= raw[d] by { MinLower(raw[d], g.reward); }
      NormalizeMonotone(raw, raw', d, cap, tol);
      SlackIs(|raw|, cap, tol);
    }
  }

  lemma MinLower(a: real, b: real)
    ensures MinReal(a, b) <= a
  {
  }

  lemma SlackIs(groups: nat, cap: real, tol: real)
    ensures Slack(groups, cap, tol)
         == Times(groups as real, if Times(groups as real, cap) >= 1.0 then tol else SHORTFALL)
  {
  }

  lemma OutcomeOf(aggs: Aggregates, policy: Policy, tol: real)
    requires EligibleOnly(aggs) != []
    ensures var e, r := EligibleOnly(aggs), Allocate(aggs, policy, tol);
            var n := Normalize(RawGroups(e), policy.maximumWeight, tol);
            && r.Planned? == (|Digests(e)| >= policy.minimumDistinctStrategies && n.Weights?)
            && (r.Planned? ==> r.strategyWeights == n.w)
            && (r.NotPlanned? ==>
                  r.reason == if |Digests(e)| < policy.minimumDistinctStrategies
                              then InsufficientStrategyDiversity else InsufficientRecipientsForCap)
  {
    hide Normalize, RawGroups, AssignGroups, EligibleOnly, DuplicatesOf;
  }

  lemma OtherMemberKeeps(
      aggs: Aggregates, aggs': Aggregates, policy: Policy, tol: real, h: MinerAggregate, slack: real)
    requires UniqueIds(aggs) && UniqueIds(aggs')
    requires Allocate(aggs, policy, tol).Planned? && Allocate(aggs', policy, tol).Planned?
    requires h in EligibleOnly(aggs) && h in EligibleOnly(aggs')
    requires var d := h.behaviorDigest; Members(EligibleOnly(aggs'), d) == Members(EligibleOnly(aggs), d)
    requires var d, w, w' := h.behaviorDigest, Allocate(aggs, policy, tol).strategyWeights,
                             Allocate(aggs', policy, tol).strategyWeights;
             d in w && d in w' && w[d] <= w'[d] + slack
    requires slack >= 0.0
    ensures var w, w' := Allocate(aggs, policy, tol).weights, Allocate(aggs', policy, tol).weights;
            h.minerId in w && h.minerId in w' && w[h.minerId] <= w'[h.minerId] + slack
  {
    var e, e', d := EligibleOnly(aggs), EligibleOnly(aggs'), h.behaviorDigest;
    AllocationEntries(aggs, policy, tol);
    AllocationEntries(aggs', policy, tol);
    hide Allocate, EligibleOnly, RewardSum, Members;
    assert h.minerId in MinerIds(e) && h.minerId in MinerIds(e');
    EligibleEarn(aggs);
    var members := Members(e, d);
    assert h in members;
    RewardWithin(members, h);
    FractionOf(Allocate(aggs, policy, tol).strategyWeights[d], Allocate(aggs', policy, tol).strategyWeights[d],
               slack, h.reward, RewardSum(members));
  }

  lemma MembersElsewhere(x: Aggregates, g: MinerAggregate, y: Aggregates, h: MinerAggregate)
    requires Earns(g) && h in EligibleOnly(x + y) && h.behaviorDigest != g.behaviorDigest
    ensures h in EligibleOnly(Joined(x, g, y))
    ensures Members(EligibleOnly(Joined(x, g, y)), h.behaviorDigest) == Members(EligibleOnly(x + y), h.behaviorDigest)
  {
    EligibleJoined(x, g, y);
    MembersJoined(EligibleOnly(x), g, EligibleOnly(y), h.behaviorDigest);
  }

  lemma UniqueWithout(x: Aggregates, g: MinerAggregate, y: Aggregates)
    requires UniqueIds(Joined(x, g, y))
    ensures UniqueIds(x + y)
  {
    var z, z' := x + y, Joined(x, g, y);
    forall i, j | 0 <= i < j < |z| ensures z[i].minerId != z[j].minerId {
      var i', j' := if i < |x| then i else i + 1, if j < |x| then j else j + 1;
      assert z[i] == z'[i'] && z[j] == z'[j'];
    }
  }

  lemma SlackNonNegative(groups: nat, cap: real, tol: real)
    requires tol >= 0.0
    ensures Slack(groups, cap, tol) >= 0.0
    ensures tol == 0.0 && Times(groups as real, cap) >= 1.0 ==> Slack(groups, cap, tol) == 0.0
  {
  }

  /** A near-copy never raises its group's weight and lowers neither another group's
      weight nor the weight of any miner outside the group: exactly at tolerance zero,
      up to the slack at the source's literals. A refusal stays the same refusal. */
  lemma NearCopiesCannotHelp(x: Aggregates, g: MinerAggregate, y: Aggregates, policy: Policy, tol: real)
    requires NearCopy(x, g, y) && UniqueIds(Joined(x, g, y))
    requires 0.0 < policy.maximumWeight <= 1.0 && 0.0 <= tol <= SHORTFALL
    ensures var r, r' := Allocate(x + y, policy, tol), Allocate(Joined(x, g, y), policy, tol);
            var e := EligibleOnly(x + y);
            && (r.NotPlanned? ==> r'.NotPlanned? && r'.reason == r.reason)
            && (r.Planned? ==>
                  r'.Planned?
                  && NoGain(r, r', e, g.behaviorDigest, Slack(|Digests(e)|, policy.maximumWeight, tol)))
  {
    var aggs, aggs', d := x + y, Joined(x, g, y), g.behaviorDigest;
    var e := EligibleOnly(aggs);
    var slack := Slack(|Digests(e)|, policy.maximumWeight, tol);
    assert Earns(g) && d in Digests(e);
    OutcomeJoined(x, g, y, policy, tol);
    UniqueWithout(x, g, y);
    SlackNonNegative(|Digests(e)|, policy.maximumWeight, tol);
    var r, r' := Allocate(aggs, policy, tol), Allocate(aggs', policy, tol);
    hide *;
    if r.Planned? {
      forall h | h in e && h.behaviorDigest != d
        ensures h.minerId in r.weights && h.minerId in r'.weights
                && r.weights[h.minerId] <= r'.weights[h.minerId] + slack
      {
        MembersElsewhere(x, g, y, h);
        DigestIn(e, h);
        OtherMemberKeeps(aggs, aggs', policy, tol, h, slack);
      }
      NoGainFrom(r, r', e, d, slack);
    }
  }

  lemma DigestIn(e: Aggregates, h: MinerAggregate)
    requires h in e
    ensures h.behaviorDigest in Digests(e)
  {
  }

  lemma NoGainFrom(r: AllocationResult, r': AllocationResult, e: Aggregates, d: string, slack: real)
    requires r.Planned? && r'.Planned?
    requires r.strategyWeights.Keys == r'.strategyWeights.Keys && d in r.strategyWeights
    requires r'.strategyWeights[d] <= r.strategyWeights[d] + slack
    requires forall k :: k in r.strategyWeights && k != d ==> r.strategyWeights[k] <= r'.strategyWeights[k] + slack
    requires forall h :: h in e && h.behaviorDigest != d ==>
               h.minerId in r.weights && h.minerId in r'.weights
               && r.weights[h.minerId] <= r'.weights[h.minerId] + slack
    ensures NoGain(r, r', e, d, slack)
  {
  }
}
