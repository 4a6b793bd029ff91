/** Copy neutrality of the whole mechanism: identities that mirror one miner earn
    together exactly what that miner would earn, and nobody else notices. */
module CopyNeutrality {
  import opened Statistics
  import opened Wrappers
  import opened MapTotals
  import opened CappedNormalization
  import opened Deduplication
  import opened Aggregation
  import opened AggregationScaling
  import opened Network
  import opened CopiedObservations
  import opened Allocation
  import opened AllocationLaws
  import opened ClonedAllocation

  // ----- the roster ----------------------------------------------------------

  lemma CopiedRosterCons(m: string, rest: seq<string>, a: string, copies: seq<string>)
    ensures CopiedRoster([m] + rest, a, copies) == (if m == a then copies else [m]) + CopiedRoster(rest, a, copies)
  {
    assert ([m] + rest)[1..] == rest;
  }

  lemma {:induction false} CopiedRosterAppend(x: seq<string>, y: seq<string>, a: string, copies: seq<string>)
    ensures CopiedRoster(x + y, a, copies) == CopiedRoster(x, a, copies) + CopiedRoster(y, a, copies)
  {
    if x == [] {
      assert x + y == y;
      assert CopiedRoster(x, a, copies) == [];
    } else {
      hide *;
      assert x == [x[0]] + x[1..];
      CopiedRosterCons(x[0], x[1..], a, copies);
      CopiedRosterCons(x[0], x[1..] + y, a, copies);
      CopiedRosterAppend(x[1..], y, a, copies);
      assert x + y == [x[0]] + (x[1..] + y);
    }
  }

  lemma CopiedRosterOne(m: string, a: string, copies: seq<string>)
    ensures CopiedRoster([m], a, copies) == if m == a then copies else [m]
  {
  }

  lemma RosterPlusOne(roster: seq<string>, m: string, obs: seq<Observation>, policy: Policy, env: Env)
    requires Usable(policy, env) && RosterAggregates(roster, obs, policy, env).Ok?
    requires AggregateMiner(m, ByMiner(obs, m), policy, env).Ok?
    ensures RosterAggregates(roster + [m], obs, policy, env)
         == Ok(RosterAggregates(roster, obs, policy, env).value
               + [AggregateMiner(m, ByMiner(obs, m), policy, env).value])
  {
    hide AggregateMiner, ByMiner;
    assert (roster + [m])[..|roster|] == roster;
  }

  lemma RosterLast(roster: seq<string>, obs: seq<Observation>, policy: Policy, env: Env)
    requires Usable(policy, env) && roster != [] && RosterAggregates(roster, obs, policy, env).Ok?
    ensures var n := |roster| - 1;
            && RosterAggregates(roster[..n], obs, policy, env).Ok?
            && AggregateMiner(roster[n], ByMiner(obs, roster[n]), policy, env).Ok?
            && RosterAggregates(roster, obs, policy, env).value
               == RosterAggregates(roster[..n], obs, policy, env).value
                  + [AggregateMiner(roster[n], ByMiner(obs, roster[n]), policy, env).value]
  {
    hide AggregateMiner, ByMiner;
  }

  ghost predicate CopiesOf(dedup: seq<Observation>, dedup': seq<Observation>, a: string, copies: seq<string>, c: real) {
    forall m :: m in copies ==> Thinned(ByMiner(dedup, a), ByMiner(dedup', m), m, c)
  }

  lemma CopiesSnoc(
      dedup: seq<Observation>, dedup': seq<Observation>, a: string, init: seq<string>, last: string, c: real)
    requires CopiesOf(dedup, dedup', a, init + [last], c)
    ensures CopiesOf(dedup, dedup', a, init, c)
    ensures Thinned(ByMiner(dedup, a), ByMiner(dedup', last), last, c)
  {
    hide Thinned, ByMiner;
    assert last in init + [last];
    forall m | m in init ensures m in init + [last] {}
  }

  lemma NoCopies(roster: seq<string>, copies: seq<string>, g: MinerAggregate, before: Aggregates, c: real)
    requires copies == []
    ensures roster + copies == roster && before + Clones(g, copies, c) == before
  {
  }

  /** What the copies contribute to the roster's aggregates. */
  lemma {:induction false} RosterPlusCopies(
      roster: seq<string>, copies: seq<string>, dedup: seq<Observation>, dedup': seq<Observation>,
      a: string, g: MinerAggregate, before: Aggregates, c: real, policy: Policy, env: Env)
    requires Usable(policy, env) && env.fn.LogLaws() && c > 0.0
    requires RosterAggregates(roster, dedup', policy, env) == Ok(before)
    requires AggregateMiner(a, ByMiner(dedup, a), policy, env) == Ok(g)
    requires CopiesOf(dedup, dedup', a, copies, c)
    ensures RosterAggregates(roster + copies, dedup', policy, env) == Ok(before + Clones(g, copies, c))
  {
    hide *;
    if copies == [] {
      NoCopies(roster, copies, g, before, c);
    } else {
      var n := |copies| - 1;
      var init, last := copies[..n], copies[n];
      assert copies == init + [last];
      CopiesSnoc(dedup, dedup', a, init, last, c);
      RosterPlusCopies(roster, init, dedup, dedup', a, g, before, c, policy, env);
      RosterPlusCopy(roster, init, last, dedup, dedup', a, g, before, c, policy, env);
    }
  }

  lemma RosterPlusCopy(
      roster: seq<string>, init: seq<string>, last: string, dedup: seq<Observation>, dedup': seq<Observation>,
      a: string, g: MinerAggregate, before: Aggregates, c: real, policy: Policy, env: Env)
    requires Usable(policy, env) && env.fn.LogLaws() && c > 0.0
    requires RosterAggregates(roster + init, dedup', policy, env) == Ok(before + Clones(g, init, c))
    requires AggregateMiner(a, ByMiner(dedup, a), policy, env) == Ok(g)
    requires Thinned(ByMiner(dedup, a), ByMiner(dedup', last), last, c)
    ensures RosterAggregates(roster + (init + [last]), dedup', policy, env)
         == Ok(before + Clones(g, init + [last], c))
  {
    hide *;
    ThinnedAggregate(a, ByMiner(dedup, a), ByMiner(dedup', last), last, c, policy, env);
    RosterPlusOne(roster + init, last, dedup', policy, env);
    ClonesSnoc(g, init, last, c);
    Reassociate(roster, init, [last]);
    Reassociate(before, Clones(g, init, c), [ScaledAggregate(g, last, c)]);
  }

  ghost predicate OthersOf(dedup: seq<Observation>, dedup': seq<Observation>, a: string, roster: seq<string>) {
    forall m :: m in roster && m != a ==> ByMiner(dedup', m) == ByMiner(dedup, m)
  }

  lemma AggregateKeepsId(m: string, obs: seq<Observation>, policy: Policy, env: Env)
    requires Usable(policy, env) && AggregateMiner(m, obs, policy, env).Ok?
    ensures AggregateMiner(m, obs, policy, env).value.minerId == m
  {
  }

  /** The aggregates of the copied network are the original ones with the miner's
      entry replaced by its clones. */
  lemma {:induction false} RosterCopied(
      roster: seq<string>, dedup: seq<Observation>, dedup': seq<Observation>,
      a: string, copies: seq<string>, c: real, policy: Policy, env: Env)
    requires Usable(policy, env) && env.fn.LogLaws() && c > 0.0
    requires CopiesOf(dedup, dedup', a, copies, c) && OthersOf(dedup, dedup', a, roster)
    requires RosterAggregates(roster, dedup, policy, env).Ok?
    ensures RosterAggregates(CopiedRoster(roster, a, copies), dedup', policy, env)
         == Ok(Cloned(RosterAggregates(roster, dedup, policy, env).value, a, copies, c))
  {
    if roster != [] {
      var n := |roster| - 1;
      var init, last := roster[..n], roster[n];
      assert roster == init + [last];
      assert OthersOf(dedup, dedup', a, init);
      assert last != a ==> ByMiner(dedup', last) == ByMiner(dedup, last);
      hide *;
      RosterLast(roster, dedup, policy, env);
      RosterCopied(init, dedup, dedup', a, copies, c, policy, env);
      var g := AggregateMiner(last, ByMiner(dedup, last), policy, env).value;
      AggregateKeepsId(last, ByMiner(dedup, last), policy, env);
      CopiedRosterAppend(init, [last], a, copies);
      CopiedRosterOne(last, a, copies);
      ClonedAppend(RosterAggregates(init, dedup, policy, env).value, [g], a, copies, c);
      ClonedOne(g, a, copies, c);
      if last == a {
        RosterPlusCopies(
          CopiedRoster(init, a, copies), copies, dedup, dedup', a, g,
          Cloned(RosterAggregates(init, dedup, policy, env).value, a, copies, c), c, policy, env);
      } else {
        RosterPlusOne(CopiedRoster(init, a, copies), last, dedup', policy, env);
      }
    }
  }

  // ----- the network ---------------------------------------------------------

  lemma PartIsWhole(copies: seq<string>)
    requires copies != []
    ensures Whole(copies, Part(copies))
  {
    var n := |copies| as real;
    forall x: real ensures Times(n, Times(Part(copies), x)) == x {
      assert Times(n, Times(Part(copies), x)) == Times(Times(n, Part(copies)), x) by { Regroup(n, Part(copies), x); }
      OverTimes(1.0, n);
      TimesFlip(n, Over(1.0, n));
      assert Times(1.0, x) == x;
    }
  }

  lemma Regroup(a: real, b: real, x: real)
    ensures Times(a, Times(b, x)) == Times(Times(a, b), x)
  {
    assert a * (b * x) == (a * b) * x;
  }

  lemma {:induction false} CopiedRosterMember(roster: seq<string>, a: string, copies: seq<string>, m: string)
    ensures m in CopiedRoster(roster, a, copies) <==>
            exists r :: r in roster && (if r == a then m in copies else m == r)
  {
    if roster != [] {
      var head, rest := if roster[0] == a then copies else [roster[0]], roster[1..];
      CopiedRosterMember(rest, a, copies, m);
      assert roster[0] in roster;
      assert forall r :: r in roster <==> r == roster[0] || r in rest;
      assert m in CopiedRoster(roster, a, copies) <==> m in head || m in CopiedRoster(rest, a, copies);
    }
  }

  lemma DistinctAppend(x: seq<string>, y: seq<string>)
    requires Distinct(x) && Distinct(y) && forall m :: m in x ==> m !in y
    ensures Distinct(x + y)
  {
    var z := x + y;
    forall i, j | 0 <= i < j < |z| ensures z[i] != z[j] {
      if i < |x| <= j { assert z[i] in x && z[j] in y; }
    }
  }

  lemma {:induction false} CopiedRosterDistinct(roster: seq<string>, a: string, copies: seq<string>)
    requires Distinct(roster) && Distinct(copies) && forall m :: m in copies && m in roster ==> m == a
    ensures Distinct(CopiedRoster(roster, a, copies))
  {
    if roster != [] {
      var head, rest := if roster[0] == a then copies else [roster[0]], roster[1..];
      CopiedRosterDistinct(rest, a, copies);
      forall m | m in head ensures m !in CopiedRoster(rest, a, copies) {
        CopiedRosterMember(rest, a, copies, m);
      }
      DistinctAppend(head, CopiedRoster(rest, a, copies));
    }
  }

  lemma CopiedRosterCovers(obs: seq<Observation>, roster: seq<string>, a: string, copies: seq<string>)
    requires forall o :: o in obs ==> o.minerId in roster
    ensures forall x :: x in Mirrored(obs, a, copies) ==> x.minerId in CopiedRoster(roster, a, copies)
  {
    forall x | x in Mirrored(obs, a, copies) ensures x.minerId in CopiedRoster(roster, a, copies) {
      MirroredOrigin(obs, a, copies, x);
      var o :| o in obs && Mirrors(o, x, a, copies);
      assert o.minerId in roster;
      CopiedRosterMember(roster, a, copies, x.minerId);
    }
  }

  lemma RosterNonEmpty(roster: seq<string>, a: string, copies: seq<string>)
    requires roster != [] && copies != []
    ensures CopiedRoster(roster, a, copies) != []
  {
  }

  lemma NetworkIs(obs: seq<Observation>, roster: seq<string>, policy: Policy, env: Env)
    requires Usable(policy, env) && AggregateNetwork(obs, roster, policy, env).Ok?
    ensures roster != [] && Distinct(roster) && Deduplicate(obs).Ok?
    ensures forall o :: o in obs ==> o.minerId in roster
    ensures RosterAggregates(roster, SplitAll(obs, obs), policy, env)
         == Ok(AggregateNetwork(obs, roster, policy, env).value)
  {
    hide RosterAggregates;
  }

  lemma NetworkFrom(obs: seq<Observation>, roster: seq<string>, policy: Policy, env: Env, aggs: Aggregates)
    requires Usable(policy, env) && roster != [] && Distinct(roster) && Deduplicate(obs).Ok?
    requires forall o :: o in obs ==> o.minerId in roster
    requires RosterAggregates(roster, SplitAll(obs, obs), policy, env) == Ok(aggs)
    ensures AggregateNetwork(obs, roster, policy, env) == Ok(aggs)
  {
    hide RosterAggregates;
  }

  /** The copies are fresh identities, except that the miner may be among them. */
  ghost predicate Joining(roster: seq<string>, a: string, copies: seq<string>) {
    && copies != [] && Distinct(copies)
    && forall m :: m in copies && m in roster ==> m == a
  }

  lemma JoiningFresh(obs: seq<Observation>, roster: seq<string>, a: string, copies: seq<string>)
    requires Joining(roster, a, copies) && forall o :: o in obs ==> o.minerId in roster
    ensures FreshCopies(obs, a, copies)
  {
  }

  /** The aggregates after copying: clones with equal parts, and nothing else. */
  lemma NetworkCopied(
      obs: seq<Observation>, roster: seq<string>, a: string, copies: seq<string>, policy: Policy, env: Env)
    requires Usable(policy, env) && env.fn.LogLaws()
    requires AggregateNetwork(obs, roster, policy, env).Ok?
    requires Joining(roster, a, copies) && Exclusive(obs, a)
    ensures AggregateNetwork(Mirrored(obs, a, copies), CopiedRoster(roster, a, copies), policy, env)
         == Ok(Cloned(AggregateNetwork(obs, roster, policy, env).value, a, copies, Part(copies)))
  {
    var mirrored, roster' := Mirrored(obs, a, copies), CopiedRoster(roster, a, copies);
    NetworkIs(obs, roster, policy, env);
    JoiningFresh(obs, roster, a, copies);
    MirroredAccepted(obs, a, copies);
    forall m | m in copies
      ensures Thinned(ByMiner(SplitAll(obs, obs), a), ByMiner(SplitAll(mirrored, mirrored), m), m, Part(copies))
    {
      CopiesThinned(obs, obs, a, copies, m);
    }
    assert CopiesOf(SplitAll(obs, obs), SplitAll(mirrored, mirrored), a, copies, Part(copies));
    forall m | m in roster && m != a
      ensures ByMiner(SplitAll(mirrored, mirrored), m) == ByMiner(SplitAll(obs, obs), m)
    {
      assert m !in copies;
      OthersKeep(obs, obs, a, copies, m);
    }
    assert OthersOf(SplitAll(obs, obs), SplitAll(mirrored, mirrored), a, roster);
    assert copies != [] && Distinct(copies);
    assert forall m :: m in copies && m in roster ==> m == a;
    hide *;
    RosterCopied(roster, SplitAll(obs, obs), SplitAll(mirrored, mirrored), a, copies, Part(copies), policy, env);
    CopiedRosterDistinct(roster, a, copies);
    CopiedRosterCovers(obs, roster, a, copies);
    RosterNonEmpty(roster, a, copies);
    NetworkFrom(mirrored, roster', policy, env,
                Cloned(AggregateNetwork(obs, roster, policy, env).value, a, copies, Part(copies)));
  }

  /** One aggregate per roster entry, in roster order. */
  lemma {:induction false} RosterIds(roster: seq<string>, obs: seq<Observation>, policy: Policy, env: Env)
    requires Usable(policy, env) && RosterAggregates(roster, obs, policy, env).Ok?
    ensures var aggs := RosterAggregates(roster, obs, policy, env).value;
            |aggs| == |roster| && forall i :: 0 <= i < |aggs| ==> aggs[i].minerId == roster[i]
  {
    hide AggregateMiner, ByMiner;
    if roster != [] {
      var n := |roster| - 1;
      RosterIds(roster[..n], obs, policy, env);
      AggregateKeepsId(roster[n], ByMiner(obs, roster[n]), policy, env);
    }
  }

  lemma NetworkIds(
      obs: seq<Observation>, roster: seq<string>, a: string, copies: seq<string>, policy: Policy, env: Env)
    requires Usable(policy, env) && AggregateNetwork(obs, roster, policy, env).Ok?
    requires Joining(roster, a, copies)
    ensures var aggs := AggregateNetwork(obs, roster, policy, env).value;
            UniqueIds(aggs) && FreshIn(aggs, a, copies)
  {
    NetworkIs(obs, roster, policy, env);
    RosterIds(roster, SplitAll(obs, obs), policy, env);
    hide AggregateNetwork, RosterAggregates, SplitAll;
  }

  /** `w'` is `w` with the weight of `a` held in equal parts by `copies`, and nothing else
      changed: no other identity appears, disappears or weighs differently. */
  ghost predicate HeldBy(w: Masses, w': Masses, a: string, copies: seq<string>)
    requires copies != []
  {
    && w'.Keys == (w.Keys - {a}) + (if a in w then (set m | m in copies) else {})
    && (forall m :: m in w && m != a ==> m in w' && w'[m] == w[m])
    && (a in w ==>
          && (set m | m in copies) <= w'.Keys
          && (forall m :: m in copies ==> w'[m] == Over(w[a], |copies| as real))
          && SumOver(w', set m | m in copies) == w[a])
  }

  /** The allocation of a whole network. */
  ghost function Outcome(
      obs: seq<Observation>, roster: seq<string>, policy: Policy, env: Env, tol: real): AllocationResult
    requires Usable(policy, env) && AggregateNetwork(obs, roster, policy, env).Ok?
  {
    Allocate(AggregateNetwork(obs, roster, policy, env).value, policy, tol)
  }

  /** End to end: dedupe, aggregate, allocate. When the identities in `copies` mirror
      everything that miner `a` submitted, and nobody else shares its strategies, the
      network is still accepted; a refused allocation is refused for the same reason;
      in a planned one the copies hold equal parts of exactly the weight `a` had, and
      every other weight and every group weight is unchanged. */
  lemma CopiesGainNothing(
      obs: seq<Observation>, roster: seq<string>, a: string, copies: seq<string>,
      policy: Policy, env: Env, tol: real)
    requires Usable(policy, env) && env.fn.LogLaws()
    requires AggregateNetwork(obs, roster, policy, env).Ok?
    requires Joining(roster, a, copies) && Exclusive(obs, a)
    ensures AggregateNetwork(Mirrored(obs, a, copies), CopiedRoster(roster, a, copies), policy, env).Ok?
    ensures var r := Outcome(obs, roster, policy, env, tol);
            var r' := Outcome(Mirrored(obs, a, copies), CopiedRoster(roster, a, copies), policy, env, tol);
            && (r.NotPlanned? ==> r'.NotPlanned? && r'.reason == r.reason)
            && (r.Planned? ==>
                  r'.Planned? && r'.strategyWeights == r.strategyWeights && HeldBy(r.weights, r'.weights, a, copies))
  {
    var aggs := AggregateNetwork(obs, roster, policy, env).value;
    var c := Part(copies);
    NetworkCopied(obs, roster, a, copies, policy, env);
    NetworkIds(obs, roster, a, copies, policy, env);
    PartIsWhole(copies);
    AllocationCloned(aggs, a, copies, c, policy, tol);
    assert copies != [] && Distinct(copies);
    hide Allocate, AggregateNetwork, Mirrored, CopiedRoster, Cloned, Whole, Exclusive, Joining, HeldBy;
    var r := Allocate(aggs, policy, tol);
    var r' := Allocate(Cloned(aggs, a, copies, c), policy, tol);
    if r.Planned? {
      SharedEqually(r.weights, r'.weights, a, copies);
    }
  }

  lemma SharedEqually(w: Masses, w': Masses, a: string, copies: seq<string>)
    requires copies != [] && Distinct(copies) && SharedOut(w, w', a, copies, Part(copies))
    ensures HeldBy(w, w', a, copies)
  {
    var c := Part(copies);
    PartIsWhole(copies);
    if a in w {
      ClonesTogether(w, w', a, copies, c);
      PartOf(w[a], copies);
      assert Over(w[a], 1.0) == w[a];
    }
  }

  // ----- strategies held by several ------------------------------------------

  /** When all who hold a portfolio share everything, the pool they hold is fixed: whoever
      they are and however many, the same total is split equally among them, and nobody
      outside notices. A further copy takes its part from the other holders alone. */
  lemma SharedPoolIsFixed(
      obs: seq<Observation>, roster: seq<string>, a: string, first: seq<string>, second: seq<string>,
      policy: Policy, env: Env, tol: real)
    requires Usable(policy, env) && env.fn.LogLaws()
    requires AggregateNetwork(obs, roster, policy, env).Ok?
    requires Joining(roster, a, first) && Joining(roster, a, second) && Exclusive(obs, a)
    ensures AggregateNetwork(Mirrored(obs, a, first), CopiedRoster(roster, a, first), policy, env).Ok?
    ensures AggregateNetwork(Mirrored(obs, a, second), CopiedRoster(roster, a, second), policy, env).Ok?
    ensures var x := Outcome(Mirrored(obs, a, first), CopiedRoster(roster, a, first), policy, env, tol);
            var y := Outcome(Mirrored(obs, a, second), CopiedRoster(roster, a, second), policy, env, tol);
            && x.Planned? == y.Planned?
            && (x.Planned? ==>
                  && x.strategyWeights == y.strategyWeights
                  && (exists pool: Masses :: HeldBy(pool, x.weights, a, first) && HeldBy(pool, y.weights, a, second)))
  {
    CopiesGainNothing(obs, roster, a, first, policy, env, tol);
    CopiesGainNothing(obs, roster, a, second, policy, env, tol);
    assert first != [] && second != [];
    hide Outcome, AggregateNetwork, Mirrored, CopiedRoster, Exclusive, Joining, HeldBy;
    var pool := Outcome(obs, roster, policy, env, tol);
    var x := Outcome(Mirrored(obs, a, first), CopiedRoster(roster, a, first), policy, env, tol);
    if pool.Planned? {
      assert HeldBy(pool.weights, x.weights, a, first);
    }
  }

  lemma PoolSplits(pool: Masses, w: Masses, w': Masses, a: string, first: seq<string>, second: seq<string>)
    requires first != [] && second != [] && a in pool
    requires HeldBy(pool, w, a, first) && HeldBy(pool, w', a, second)
    ensures (set m | m in first) <= w.Keys && (set m | m in second) <= w'.Keys
    ensures SumOver(w, set m | m in first) == SumOver(w', set m | m in second)
    ensures forall m, n :: m in first && n in second ==>
              Times(|first| as real, w[m]) == Times(|second| as real, w'[n])
    ensures forall m :: m in pool && m != a ==> m in w && m in w' && w[m] == w'[m]
  {
    forall m, n | m in first && n in second
      ensures Times(|first| as real, w[m]) == Times(|second| as real, w'[n])
    {
      OverTimes(pool[a], |first| as real);
      OverTimes(pool[a], |second| as real);
      TimesFlip(|first| as real, w[m]);
      TimesFlip(|second| as real, w'[n]);
    }
  }
}
