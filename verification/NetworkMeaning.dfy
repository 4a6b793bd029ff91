/** When the network of a closed schedule is aggregated (planrace/scoring_v2.py:558-700),
    over the observations as they came in: no refusal but for the reasons given, and one
    aggregate per miner of the roster. */
module NetworkMeaning {
  import opened Wrappers
  import opened Deduplication
  import opened DeduplicationMeaning
  import opened Aggregation
  import opened AggregationLaws
  import opened AggregationMeaning
  import opened Network

  // ----- the roster ----------------------------------------------------------

  /** One aggregate per miner of the roster, from the miner's own observations. */
  ghost predicate PerMiner(
      roster: seq<string>, obs: seq<Observation>, policy: Policy, env: Env, aggs: seq<MinerAggregate>)
    requires Usable(policy, env)
  {
    |aggs| == |roster|
    && forall i :: 0 <= i < |roster| ==>
         AggregateMiner(roster[i], ByMiner(obs, roster[i]), policy, env) == Ok(aggs[i])
  }

  lemma {:induction false} RosterMeans(roster: seq<string>, obs: seq<Observation>, policy: Policy, env: Env)
    requires Usable(policy, env)
    ensures var r := RosterAggregates(roster, obs, policy, env);
            && (r.Ok? <==> forall i :: 0 <= i < |roster| ==>
                             AggregateMiner(roster[i], ByMiner(obs, roster[i]), policy, env).Ok?)
            && (r.Ok? ==> PerMiner(roster, obs, policy, env, r.value))
  {
    hide AggregateMiner, ByMiner;
    if roster != [] {
      var n := |roster| - 1;
      RosterMeans(roster[..n], obs, policy, env);
      assert forall i :: 0 <= i < n ==> roster[..n][i] == roster[i];
    }
  }

  /** The miner's observations belong to the schedule, each task at most once. */
  ghost predicate MinerOnSchedule(obs: seq<Observation>, minerId: string, schedule: seq<ScheduledTask>) {
    && (forall i :: 0 <= i < |obs| && obs[i].minerId == minerId ==>
          ScheduledTask(obs[i].epoch, obs[i].family, obs[i].taskId, obs[i].taskCommitment) in schedule)
    && (forall i, j :: 0 <= i < j < |obs| && obs[i].minerId == minerId && obs[j].minerId == minerId ==>
          obs[i].taskId != obs[j].taskId)
  }

  lemma DistinctCons(o: Observation, rest: seq<Observation>)
    ensures DistinctTasks([o] + rest) <==> DistinctTasks(rest) && forall x :: x in rest ==> x.taskId != o.taskId
  {
    var all := [o] + rest;
    if DistinctTasks(all) {
      forall x | x in rest ensures x.taskId != o.taskId {
        var i :| 0 <= i < |rest| && rest[i] == x;
        assert all[0] == o && all[i + 1] == x;
      }
      forall i, j | 0 <= i < j < |rest| ensures rest[i].taskId != rest[j].taskId {
        assert all[i + 1] == rest[i] && all[j + 1] == rest[j];
      }
    }
  }

  lemma {:induction false} DistinctByMiner(obs: seq<Observation>, minerId: string)
    ensures DistinctTasks(ByMiner(obs, minerId)) <==>
            forall i, j :: 0 <= i < j < |obs| && obs[i].minerId == minerId && obs[j].minerId == minerId ==>
              obs[i].taskId != obs[j].taskId
  {
    if obs != [] {
      var o, rest := obs[0], obs[1..];
      assert obs == [o] + rest;
      DistinctByMiner(rest, minerId);
      assert forall j :: 0 < j < |obs| ==> obs[j] == rest[j - 1];
      if o.minerId == minerId {
        DistinctCons(o, ByMiner(rest, minerId));
        FirstDiffers(obs, minerId);
      }
      TailPairs(obs, minerId);
    }
  }

  lemma FirstDiffers(obs: seq<Observation>, minerId: string)
    requires obs != []
    ensures (forall x :: x in ByMiner(obs[1..], minerId) ==> x.taskId != obs[0].taskId) <==>
            (forall j :: 0 < j < |obs| && obs[j].minerId == minerId ==> obs[j].taskId != obs[0].taskId)
  {
    if forall x :: x in ByMiner(obs[1..], minerId) ==> x.taskId != obs[0].taskId {
      forall j | 0 < j < |obs| && obs[j].minerId == minerId ensures obs[j].taskId != obs[0].taskId {
        assert obs[j] == obs[1..][j - 1];
        assert obs[j] in ByMiner(obs[1..], minerId);
      }
    }
  }

  /** All pairs are those with the first and those without. */
  lemma TailPairs(obs: seq<Observation>, minerId: string)
    requires obs != []
    ensures (forall i, j :: 0 <= i < j < |obs| && obs[i].minerId == minerId && obs[j].minerId == minerId ==>
               obs[i].taskId != obs[j].taskId)
       <==> (forall i, j :: 0 <= i < j < |obs[1..]| && obs[1..][i].minerId == minerId && obs[1..][j].minerId == minerId
               ==> obs[1..][i].taskId != obs[1..][j].taskId)
            && (obs[0].minerId == minerId ==>
                  forall j :: 0 < j < |obs| && obs[j].minerId == minerId ==> obs[j].taskId != obs[0].taskId)
  {
    var rest := obs[1..];
    if forall i, j :: 0 <= i < j < |obs| && obs[i].minerId == minerId && obs[j].minerId == minerId ==>
         obs[i].taskId != obs[j].taskId
    {
      forall i, j | 0 <= i < j < |rest| && rest[i].minerId == minerId && rest[j].minerId == minerId
        ensures rest[i].taskId != rest[j].taskId
      {
        assert obs[i + 1] == rest[i] && obs[j + 1] == rest[j];
      }
    }
  }

  lemma MinerAccepted(obs: seq<Observation>, minerId: string, policy: Policy, env: Env)
    requires Usable(policy, env)
    ensures AggregateMiner(minerId, ByMiner(obs, minerId), policy, env).Ok? <==>
            MinerOnSchedule(obs, minerId, policy.taskSchedule)
  {
    var own, schedule := ByMiner(obs, minerId), policy.taskSchedule;
    ScheduledIffNoFault(own, schedule);
    DistinctByMiner(obs, minerId);
    AllMatch(obs, minerId, policy);
    hide DistinctTasks, MatchesSchedule, ByMiner, Summarize, FirstFault;
  }

  lemma AllMatch(obs: seq<Observation>, minerId: string, policy: Policy)
    requires policy.Valid()
    ensures var own := ByMiner(obs, minerId);
            (forall i :: 0 <= i < |own| ==> MatchesSchedule(own[i], policy.taskSchedule)) <==>
            (forall i :: 0 <= i < |obs| && obs[i].minerId == minerId ==>
               ScheduledTask(obs[i].epoch, obs[i].family, obs[i].taskId, obs[i].taskCommitment)
               in policy.taskSchedule)
  {
    var own := ByMiner(obs, minerId);
    assert forall o :: o in own <==> o in obs && o.minerId == minerId;
    hide MatchesSchedule, ByMiner, Policy.Valid;
    forall o: Observation
      ensures MatchesSchedule(o, policy.taskSchedule) <==>
              ScheduledTask(o.epoch, o.family, o.taskId, o.taskCommitment) in policy.taskSchedule
    {
      MatchesIff(o, policy);
    }
    if forall i :: 0 <= i < |own| ==> MatchesSchedule(own[i], policy.taskSchedule) {
      forall i | 0 <= i < |obs| && obs[i].minerId == minerId
        ensures MatchesSchedule(obs[i], policy.taskSchedule)
      {
        assert obs[i] in own;
      }
    }
    if forall i :: 0 <= i < |obs| && obs[i].minerId == minerId ==>
         ScheduledTask(obs[i].epoch, obs[i].family, obs[i].taskId, obs[i].taskCommitment) in policy.taskSchedule
    {
      forall i | 0 <= i < |own| ensures MatchesSchedule(own[i], policy.taskSchedule) {
        assert own[i] in own;
        var j :| 0 <= j < |obs| && obs[j] == own[i];
        assert obs[j].minerId == minerId;
      }
    }
  }

  // ----- the network ---------------------------------------------------------

  lemma PartsKeepPlaces(obs: seq<Observation>, deduplicated: seq<Observation>, minerId: string,
                        schedule: seq<ScheduledTask>)
    requires |deduplicated| == |obs|
    requires forall i :: 0 <= i < |obs| ==>
               && deduplicated[i].minerId == obs[i].minerId && deduplicated[i].taskId == obs[i].taskId
               && deduplicated[i].epoch == obs[i].epoch && deduplicated[i].family == obs[i].family
               && deduplicated[i].taskCommitment == obs[i].taskCommitment
    ensures MinerOnSchedule(deduplicated, minerId, schedule) <==> MinerOnSchedule(obs, minerId, schedule)
  {
  }

  lemma PartsSame(obs: seq<Observation>, i: nat)
    requires Deduplicate(obs).Ok? && i < |obs|
    ensures i < |Deduplicate(obs).value|
    ensures var r := Deduplicate(obs).value[i];
            && r.minerId == obs[i].minerId && r.taskId == obs[i].taskId && r.epoch == obs[i].epoch
            && r.family == obs[i].family && r.taskCommitment == obs[i].taskCommitment
  {
    PartsReturned(obs);
    hide Deduplicate;
  }

  /** Nothing stands against aggregating the network: a roster of different miners that knows
      everybody, observations that pass the deduplication, and a schedule that has them. */
  ghost predicate Aggregable(obs: seq<Observation>, roster: seq<string>, policy: Policy) {
    && roster != [] && Distinct(roster)
    && (forall o :: o in obs ==> o.minerId in roster)
    && OneMeaningPerTask(obs) && DifferentMiners(obs) && SameEvidence(obs)
    && (forall m :: m in roster ==> MinerOnSchedule(obs, m, policy.taskSchedule))
  }

  lemma RosterOnSchedule(obs: seq<Observation>, roster: seq<string>, policy: Policy, env: Env)
    requires Usable(policy, env) && Deduplicate(obs).Ok?
    ensures RosterAggregates(roster, Deduplicate(obs).value, policy, env).Ok? <==>
            forall m :: m in roster ==> MinerOnSchedule(obs, m, policy.taskSchedule)
  {
    var r := Deduplicate(obs).value;
    PartsReturned(obs);
    hide *;
    RosterMeans(roster, r, policy, env);
    forall i | 0 <= i < |obs|
      ensures && r[i].minerId == obs[i].minerId && r[i].taskId == obs[i].taskId && r[i].epoch == obs[i].epoch
              && r[i].family == obs[i].family && r[i].taskCommitment == obs[i].taskCommitment
    {
      PartsSame(obs, i);
    }
    forall m
      ensures AggregateMiner(m, ByMiner(r, m), policy, env).Ok? <==> MinerOnSchedule(obs, m, policy.taskSchedule)
    {
      MinerAccepted(r, m, policy, env);
      PartsKeepPlaces(obs, r, m, policy.taskSchedule);
    }
  }

  /** The network is aggregated exactly then, into one aggregate per miner of the roster, from
      the deduplicated observations. */
  lemma NetworkMeans(obs: seq<Observation>, roster: seq<string>, policy: Policy, env: Env)
    requires Usable(policy, env)
    ensures var r := AggregateNetwork(obs, roster, policy, env);
            && (r.Ok? <==> Aggregable(obs, roster, policy))
            && (r.Ok? ==> Deduplicate(obs).Ok?
                          && PerMiner(roster, Deduplicate(obs).value, policy, env, r.value))
  {
    AcceptedIff(obs);
    hide Deduplicate, RosterAggregates, PerMiner, MinerOnSchedule, OneMeaningPerTask, DifferentMiners, SameEvidence,
         Distinct, Usable;
    if Deduplicate(obs).Ok? {
      RosterOnSchedule(obs, roster, policy, env);
      RosterMeans(roster, Deduplicate(obs).value, policy, env);
    }
  }
}
