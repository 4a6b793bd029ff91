/** The secure production path: deduplicate first, then aggregate every miner of the
    declared roster (planrace/scoring_v2.py:558-577), with the loops of
    `_aggregate_scheduled_miner`. */
module Network {
  import opened Statistics
  import opened Wrappers
  import opened Deduplication
  import opened Aggregation
  import opened AggregationLaws

  datatype NetworkError =
    | BadRoster
    | UnknownMiner
    | Rejected(dedup: DedupError)
    | OffSchedule(fault: ScheduleFault)

  function ByMiner(obs: seq<Observation>, minerId: string): (r: seq<Observation>)
    ensures forall o :: o in r <==> o in obs && o.minerId == minerId
  {
    if obs == [] then []
    else if obs[0].minerId == minerId then [obs[0]] + ByMiner(obs[1..], minerId)
    else ByMiner(obs[1..], minerId)
  }

  function RosterAggregates(roster: seq<string>, obs: seq<Observation>, policy: Policy, env: Env)
    : Result<seq<MinerAggregate>, ScheduleFault>
    requires Usable(policy, env)
  {
    if roster == [] then Ok([])
    else
      var n := |roster| - 1;
      match RosterAggregates(roster[..n], obs, policy, env)
      case Err(f) => Err(f)
      case Ok(aggregates) =>
        match AggregateMiner(roster[n], ByMiner(obs, roster[n]), policy, env)
        case Err(f) => Err(f)
        case Ok(g) => Ok(aggregates + [g])
  }

  function AggregateNetwork(obs: seq<Observation>, roster: seq<string>, policy: Policy, env: Env)
    : Result<seq<MinerAggregate>, NetworkError>
    requires Usable(policy, env)
  {
    if roster == [] || !Distinct(roster) then Err(BadRoster)
    else if exists o :: o in obs && o.minerId !in roster then Err(UnknownMiner)
    else match Deduplicate(obs)
      case Err(e) => Err(Rejected(e))
      case Ok(deduplicated) =>
        match RosterAggregates(roster, deduplicated, policy, env)
        case Err(f) => Err(OffSchedule(f))
        case Ok(aggregates) => Ok(aggregates)
  }

  // ----- independence of the order of the deduplicated list -------------------

  lemma {:induction false} ByMinerAppend(a: seq<Observation>, b: seq<Observation>, minerId: string)
    ensures ByMiner(a + b, minerId) == ByMiner(a, minerId) + ByMiner(b, minerId)
  {
    if a == [] {
      assert a + b == b;
    } else {
      ByMinerAppend(a[1..], b, minerId);
      assert (a + b)[1..] == a[1..] + b;
    }
  }

  lemma {:induction false} ByMinerPermuted(a: seq<Observation>, b: seq<Observation>, minerId: string)
    requires multiset(a) == multiset(b)
    ensures multiset(ByMiner(a, minerId)) == multiset(ByMiner(b, minerId))
    decreases |a|
  {
    assert |a| == |multiset(a)| == |multiset(b)| == |b|;
    if a != [] {
      assert a[0] in multiset(b);
      var i :| 0 <= i < |b| && b[i] == a[0];
      RemoveFromPermutation(a, b, i);
      ByMinerPermuted(a[1..], b[..i] + b[i + 1..], minerId);
      ByMinerAround(b, i, minerId);
    }
  }

  lemma ByMinerCons(o: Observation, rest: seq<Observation>, minerId: string)
    ensures ByMiner([o] + rest, minerId) == (if o.minerId == minerId then [o] else []) + ByMiner(rest, minerId)
  {
    assert ([o] + rest)[1..] == rest;
  }

  lemma ByMinerSplit(head: seq<Observation>, o: Observation, tail: seq<Observation>, minerId: string)
    ensures ByMiner(head + ([o] + tail), minerId)
         == ByMiner(head, minerId) + ((if o.minerId == minerId then [o] else []) + ByMiner(tail, minerId))
  {
    hide ByMiner;
    ByMinerCons(o, tail, minerId);
    ByMinerAppend(head, [o] + tail, minerId);
  }

  lemma MultisetAround<T>(p: seq<T>, mid: seq<T>, q: seq<T>)
    ensures multiset(p + (mid + q)) == multiset(p + q) + multiset(mid)
  {
  }

  lemma ByMinerAround(b: seq<Observation>, i: nat, minerId: string)
    requires i < |b|
    ensures multiset(ByMiner(b, minerId))
         == multiset(ByMiner(b[..i] + b[i + 1..], minerId))
            + multiset(if b[i].minerId == minerId then [b[i]] else [])
  {
    hide ByMiner;
    var head, tail := b[..i], b[i + 1..];
    assert b == head + ([b[i]] + tail);
    ByMinerSplit(head, b[i], tail, minerId);
    ByMinerAppend(head, tail, minerId);
    MultisetAround(ByMiner(head, minerId), if b[i].minerId == minerId then [b[i]] else [], ByMiner(tail, minerId));
  }

  lemma {:induction false} RosterIgnoresOrder(
      roster: seq<string>, a: seq<Observation>, b: seq<Observation>, policy: Policy, env: Env)
    requires Usable(policy, env) && multiset(a) == multiset(b)
    ensures var ra, rb := RosterAggregates(roster, a, policy, env), RosterAggregates(roster, b, policy, env);
            (ra.Err? && rb.Err?) || ra == rb
  {
    if roster != [] {
      var n := |roster| - 1;
      ByMinerPermuted(a, b, roster[n]);
      AggregateIgnoresOrder(roster[n], ByMiner(a, roster[n]), ByMiner(b, roster[n]), policy, env);
      RosterIgnoresOrder(roster[..n], a, b, policy, env);
    }
  }

  // ----- the loops -----------------------------------------------------------

  lemma {:induction false} ObservedSnoc(obs: seq<Observation>, o: Observation, id: string)
    ensures Observed(obs + [o], id)
         == if Observed(obs, id).Some? then Observed(obs, id)
            else if o.taskId == id then Some(o) else None
  {
    if obs == [] {
      assert obs + [o] == [o];
    } else {
      ObservedSnoc(obs[1..], o, id);
      assert (obs + [o])[1..] == obs[1..] + [o];
    }
  }

  /** `by_task` after some prefix. */
  ghost predicate Indexed(prefix: seq<Observation>, byTask: map<string, Observation>) {
    forall id :: Observed(prefix, id) == if id in byTask then Some(byTask[id]) else None
  }

  lemma IndexedSnoc(prefix: seq<Observation>, byTask: map<string, Observation>, o: Observation)
    requires Indexed(prefix, byTask) && o.taskId !in byTask
    ensures Indexed(prefix + [o], byTask[o.taskId := o])
  {
    forall id
      ensures Observed(prefix + [o], id)
           == if id in byTask[o.taskId := o] then Some(byTask[o.taskId := o][id]) else None
    {
      ObservedSnoc(prefix, o, id);
    }
  }

  /** The first loop of `_aggregate_scheduled_miner`: schedule checks and the index. */
  method IndexObservations(obs: seq<Observation>, schedule: seq<ScheduledTask>)
    returns (fault: Option<ScheduleFault>, byTask: map<string, Observation>)
    ensures fault == FirstFault(obs, 0, schedule)
    ensures fault.None? ==> Indexed(obs, byTask)
  {
    byTask := map[];
    assert obs[..0] == [];
    for i := 0 to |obs|
      invariant FirstFault(obs, 0, schedule) == FirstFault(obs, i, schedule)
      invariant Indexed(obs[..i], byTask)
    {
      var o := obs[i];
      assert Observed(obs[..i], o.taskId).Some? <==> o.taskId in byTask;
      match Lookup(schedule, o.taskId) {
        case None => return Some(OutsideSchedule), byTask;
        case Some(t) =>
          if MetadataOf(o) != Metadata(t.epoch, t.family, t.taskCommitment) {
            return Some(MismatchedTask), byTask;
          }
          if o.taskId in byTask { return Some(RepeatedTask), byTask; }
      }
      IndexedSnoc(obs[..i], byTask, o);
      assert obs[..i + 1] == obs[..i] + [o];
      byTask := byTask[o.taskId := o];
    }
    assert obs[..|obs|] == obs;
    fault := None;
  }

  lemma {:induction false} BucketSnoc(
      schedule: seq<ScheduledTask>, t: ScheduledTask, obs: seq<Observation>, family: string)
    ensures Bucket(schedule + [t], obs, family)
         == Bucket(schedule, obs, family) + if t.family == family then [GatedReward(obs, t.taskId)] else []
  {
    if schedule == [] {
      assert schedule + [t] == [t];
    } else {
      BucketSnoc(schedule[1..], t, obs, family);
      assert (schedule + [t])[1..] == schedule[1..] + [t];
    }
  }

  ghost predicate Bucketed(schedule: seq<ScheduledTask>, obs: seq<Observation>, byFamily: map<string, seq<real>>) {
    forall f :: Bucket(schedule, obs, f) == if f in byFamily then byFamily[f] else []
  }

  /** The second loop: one bucket per family, absences as zeros. */
  method FillBuckets(obs: seq<Observation>, byTask: map<string, Observation>, schedule: seq<ScheduledTask>)
    returns (byFamily: map<string, seq<real>>)
    requires Indexed(obs, byTask)
    ensures Bucketed(schedule, obs, byFamily)
  {
    byFamily := map[];
    assert schedule[..0] == [];
    for i := 0 to |schedule|
      invariant Bucketed(schedule[..i], obs, byFamily)
    {
      var t := schedule[i];
      var gated := 0.0;
      if t.taskId in byTask {
        var o := byTask[t.taskId];
        if o.available && o.compliant && o.correct { gated := o.reward; }
      }
      assert Observed(obs, t.taskId) == if t.taskId in byTask then Some(byTask[t.taskId]) else None;
      assert gated == GatedReward(obs, t.taskId);
      forall f
        ensures Bucket(schedule[..i + 1], obs, f)
             == Bucket(schedule[..i], obs, f) + if t.family == f then [gated] else []
      {
        assert schedule[..i + 1] == schedule[..i] + [t];
        BucketSnoc(schedule[..i], t, obs, f);
      }
      byFamily := byFamily[t.family := (if t.family in byFamily then byFamily[t.family] else []) + [gated]];
    }
    assert schedule[..|schedule|] == schedule;
  }

  lemma {:induction false} ScoresSnoc(
      families: seq<string>, f: string, obs: seq<Observation>, policy: Policy, fn: Analysis)
    requires 0.0 <= policy.winsorFraction < 0.5 && fn.RootLaws()
    requires forall g :: g in families + [f] ==> ScheduledCount(policy.taskSchedule, g) >= 1
    requires Bucket(policy.taskSchedule, obs, f) != []
    ensures forall g :: g in families ==> ScheduledCount(policy.taskSchedule, g) >= 1
    ensures Scores(families + [f], obs, policy, fn)
         == Scores(families, obs, policy, fn) + [LowerBound(Bucket(policy.taskSchedule, obs, f), policy, fn)]
  {
    assert forall g :: g in families ==> g in families + [f];
    if families == [] {
      assert families + [f] == [f];
    } else {
      assert (families + [f])[1..] == families[1..] + [f];
      ScoresSnoc(families[1..], f, obs, policy, fn);
    }
  }

  /** The comprehension over the required families. */
  method ScoreFamilies(obs: seq<Observation>, byFamily: map<string, seq<real>>, policy: Policy, fn: Analysis)
    returns (scores: seq<real>)
    requires policy.Valid() && fn.RootLaws() && Bucketed(policy.taskSchedule, obs, byFamily)
    ensures scores == Scores(policy.requiredFamilies, obs, policy, fn)
  {
    scores := [];
    var families := policy.requiredFamilies;
    hide LowerBound;
    for i := 0 to |families|
      invariant scores == Scores(families[..i], obs, policy, fn)
    {
      var f := families[i];
      assert f in families;
      BucketSize(policy.taskSchedule, obs, f);
      assert byFamily[f] == Bucket(policy.taskSchedule, obs, f);
      assert families[..i + 1] == families[..i] + [f];
      ScoresSnoc(families[..i], f, obs, policy, fn);
      scores := scores + [LowerBound(byFamily[f], policy, fn)];
    }
    assert families[..|families|] == families;
  }

  /** `_aggregate_scheduled_miner`. */
  method AggregateScheduledMiner(minerId: string, obs: seq<Observation>, policy: Policy, env: Env)
    returns (r: Result<MinerAggregate, ScheduleFault>)
    requires Usable(policy, env)
    ensures r == AggregateMiner(minerId, obs, policy, env)
  {
    var fault, byTask := IndexObservations(obs, policy.taskSchedule);
    if fault.Some? { return Err(fault.value); }
    var taskCount := Count(obs, IsAvailable());
    var availability := Ratio(taskCount, |policy.taskSchedule|);
    var compliance := Ratio(Count(obs, IsAvailableAndCompliant()), taskCount);
    var correctness := Ratio(Count(obs, IsAvailableAndCorrect()), taskCount);
    var byFamily := FillBuckets(obs, byTask, policy.taskSchedule);
    var scores := ScoreFamilies(obs, byFamily, policy, env.fn);
    var (center, uncertainty) := Portfolio(scores, policy, env.fn);
    var reward := Times(Times(MaxReal(0.0, center - uncertainty), availability), compliance);
    var failure := Gate(obs, policy, availability, compliance, correctness, scores, reward);
    r := Ok(MinerAggregate(
      minerId, failure == None, if failure == None then reward else 0.0, center, uncertainty,
      availability, compliance, correctness, taskCount, scores,
      env.portfolioDigest(STRATEGY_DOMAIN, StrategyPortfolio(obs)),
      env.portfolioDigest(BEHAVIOR_DOMAIN, BehaviorPortfolio(obs)),
      failure));
  }

  lemma RosterSnoc(roster: seq<string>, i: nat, obs: seq<Observation>, policy: Policy, env: Env)
    requires Usable(policy, env) && i < |roster| && RosterAggregates(roster[..i], obs, policy, env).Ok?
    ensures RosterAggregates(roster[..i + 1], obs, policy, env)
         == match AggregateMiner(roster[i], ByMiner(obs, roster[i]), policy, env)
            case Err(f) => Err(f)
            case Ok(g) => Ok(RosterAggregates(roster[..i], obs, policy, env).value + [g])
  {
    hide AggregateMiner, ByMiner;
    assert roster[..i + 1][..i] == roster[..i] && roster[..i + 1][i] == roster[i];
  }

  lemma {:induction false} RosterFails(roster: seq<string>, i: nat, obs: seq<Observation>, policy: Policy, env: Env)
    requires Usable(policy, env) && i <= |roster| && RosterAggregates(roster[..i], obs, policy, env).Err?
    ensures RosterAggregates(roster, obs, policy, env) == RosterAggregates(roster[..i], obs, policy, env)
    decreases |roster| - i
  {
    hide AggregateMiner, ByMiner;
    if i == |roster| {
      assert roster[..i] == roster;
    } else {
      assert roster[..i + 1][..i] == roster[..i];
      RosterFails(roster, i + 1, obs, policy, env);
    }
  }

  /** One aggregate per roster entry. */
  method AggregateRoster(list: seq<Observation>, roster: seq<string>, policy: Policy, env: Env)
    returns (r: Result<seq<MinerAggregate>, ScheduleFault>)
    requires Usable(policy, env)
    ensures r == RosterAggregates(roster, list, policy, env)
  {
    var aggregates: seq<MinerAggregate> := [];
    assert roster[..0] == [] && RosterAggregates([], list, policy, env) == Ok([]);
    hide AggregateMiner, ByMiner, RosterAggregates;
    for i := 0 to |roster|
      invariant RosterAggregates(roster[..i], list, policy, env) == Ok(aggregates)
    {
      var g := AggregateScheduledMiner(roster[i], ByMiner(list, roster[i]), policy, env);
      RosterSnoc(roster, i, list, policy, env);
      if g.Err? {
        RosterFails(roster, i + 1, list, policy, env);
        return Err(g.error);
      }
      aggregates := aggregates + [g.value];
    }
    assert roster[..|roster|] == roster;
    r := Ok(aggregates);
  }

  /** `aggregate_network`: the specified aggregates. The specification forgets the order of
      the deduplicated list, on which only the first schedule fault depends: that one is
      the fault the list in its actual order leads to. */
  method AggregateNetworkLoop(obs: seq<Observation>, roster: seq<string>, policy: Policy, env: Env)
    returns (r: Result<seq<MinerAggregate>, NetworkError>)
    requires Usable(policy, env)
    ensures r.Ok? || !r.error.OffSchedule? ==> r == AggregateNetwork(obs, roster, policy, env)
    ensures r.Err? && r.error.OffSchedule? ==>
              AggregateNetwork(obs, roster, policy, env).Err?
              && AggregateNetwork(obs, roster, policy, env).error.OffSchedule?
              && RosterAggregates(roster, SortByKey(Collected(obs, OpenedKeys(obs))), policy, env)
                 == Err(r.error.fault)
  {
    hide RosterAggregates, Deduplicate, SortByKey, Collected, OpenedKeys;
    if roster == [] || !Distinct(roster) { return Err(BadRoster); }
    if exists o :: o in obs && o.minerId !in roster { return Err(UnknownMiner); }
    var deduplicated := DeduplicateTaskRewards(obs);
    if deduplicated.Err? { return Err(Rejected(deduplicated.error)); }
    RosterIgnoresOrder(roster, deduplicated.value, Deduplicate(obs).value, policy, env);
    var aggregates := AggregateRoster(deduplicated.value, roster, policy, env);
    r := match aggregates case Ok(g) => Ok(g) case Err(f) => Err(OffSchedule(f));
  }
}
