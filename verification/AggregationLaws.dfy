/** Laws of the aggregate: what it does not depend on, and how it scales. */
module AggregationLaws {
  import opened Statistics
  import opened Wrappers
  import opened Deduplication
  import opened Aggregation

  // ----- schedule checks without order ---------------------------------------

  predicate MatchesSchedule(o: Observation, schedule: seq<ScheduledTask>) {
    match Lookup(schedule, o.taskId)
    case None => false
    case Some(t) => MetadataOf(o) == Metadata(t.epoch, t.family, t.taskCommitment)
  }

  ghost predicate DistinctTasks(obs: seq<Observation>) {
    forall i, j :: 0 <= i < j < |obs| ==> obs[i].taskId != obs[j].taskId
  }

  ghost predicate Scheduled(obs: seq<Observation>, schedule: seq<ScheduledTask>) {
    DistinctTasks(obs) && forall i :: 0 <= i < |obs| ==> MatchesSchedule(obs[i], schedule)
  }

  lemma {:induction false} ObservedNone(obs: seq<Observation>, id: string)
    ensures Observed(obs, id).None? <==> forall i :: 0 <= i < |obs| ==> obs[i].taskId != id
    ensures Observed(obs, id).Some? ==> Observed(obs, id).value in obs && Observed(obs, id).value.taskId == id
  {
    if obs != [] { ObservedNone(obs[1..], id); }
  }

  lemma {:induction false} ObservedAt(obs: seq<Observation>, i: nat)
    requires i < |obs| && DistinctTasks(obs)
    ensures Observed(obs, obs[i].taskId) == Some(obs[i])
  {
    if i > 0 {
      assert obs[0].taskId != obs[i].taskId;
      ObservedAt(obs[1..], i - 1);
    }
  }

  lemma FaultAtNone(obs: seq<Observation>, i: nat, schedule: seq<ScheduledTask>)
    requires i < |obs|
    ensures FaultAt(obs, i, schedule) == None <==>
            MatchesSchedule(obs[i], schedule) && forall j :: 0 <= j < i ==> obs[j].taskId != obs[i].taskId
  {
    ObservedNone(obs[..i], obs[i].taskId);
    assert forall j :: 0 <= j < i ==> obs[..i][j] == obs[j];
  }

  lemma {:induction false} FirstFaultNone(obs: seq<Observation>, i: nat, schedule: seq<ScheduledTask>)
    requires i <= |obs|
    ensures FirstFault(obs, i, schedule) == None <==>
            forall k :: i <= k < |obs| ==> FaultAt(obs, k, schedule) == None
    decreases |obs| - i
  {
    if i < |obs| { FirstFaultNone(obs, i + 1, schedule); }
  }

  /** The observations pass the schedule checks iff each matches its scheduled task
      and no task occurs twice. */
  lemma ScheduledIffNoFault(obs: seq<Observation>, schedule: seq<ScheduledTask>)
    ensures FirstFault(obs, 0, schedule) == None <==> Scheduled(obs, schedule)
  {
    FirstFaultNone(obs, 0, schedule);
    forall k | 0 <= k < |obs|
      ensures FaultAt(obs, k, schedule) == None <==>
              MatchesSchedule(obs[k], schedule) && forall j :: 0 <= j < k ==> obs[j].taskId != obs[k].taskId
    {
      FaultAtNone(obs, k, schedule);
    }
    if Scheduled(obs, schedule) {
      assert forall k :: 0 <= k < |obs| ==> FaultAt(obs, k, schedule) == None;
    } else if FirstFault(obs, 0, schedule) == None {
      assert forall k :: 0 <= k < |obs| ==> FaultAt(obs, k, schedule) == None;
      assert DistinctTasks(obs);
      assert false;
    }
  }

  // ----- what the aggregate depends on ---------------------------------------

  /** Two sequences that the aggregate cannot tell apart. */
  ghost predicate Indistinguishable(a: seq<Observation>, b: seq<Observation>) {
    && (forall id :: GatedReward(a, id) == GatedReward(b, id))
    && Count(a, IsAvailable()) == Count(b, IsAvailable())
    && Count(a, IsAvailableAndCompliant()) == Count(b, IsAvailableAndCompliant())
    && Count(a, IsAvailableAndCorrect()) == Count(b, IsAvailableAndCorrect())
    && (forall f :: Count(a, IsAvailableIn(f)) == Count(b, IsAvailableIn(f)))
    && StrategyPortfolio(a) == StrategyPortfolio(b)
    && BehaviorPortfolio(a) == BehaviorPortfolio(b)
  }

  lemma {:induction false} SameBuckets(
      schedule: seq<ScheduledTask>, a: seq<Observation>, b: seq<Observation>, family: string)
    requires forall id :: GatedReward(a, id) == GatedReward(b, id)
    ensures Bucket(schedule, a, family) == Bucket(schedule, b, family)
  {
    if schedule != [] { SameBuckets(schedule[1..], a, b, family); }
  }

  lemma {:induction false} SameScores(
      families: seq<string>, a: seq<Observation>, b: seq<Observation>, policy: Policy, fn: Analysis)
    requires 0.0 <= policy.winsorFraction < 0.5 && fn.RootLaws()
    requires forall f :: f in families ==> ScheduledCount(policy.taskSchedule, f) >= 1
    requires forall id :: GatedReward(a, id) == GatedReward(b, id)
    ensures Scores(families, a, policy, fn) == Scores(families, b, policy, fn)
  {
    if families != [] {
      BucketSize(policy.taskSchedule, a, families[0]);
      assert families[0] in families;
      SameBuckets(policy.taskSchedule, a, b, families[0]);
      SameScores(families[1..], a, b, policy, fn);
    }
  }

  lemma SameSummary(minerId: string, a: seq<Observation>, b: seq<Observation>, policy: Policy, env: Env)
    requires Usable(policy, env) && Indistinguishable(a, b)
    ensures Summarize(minerId, a, policy, env) == Summarize(minerId, b, policy, env)
  {
    hide LowerBound, Portfolio, Ratio, Times, GatedReward;
    SameScores(policy.requiredFamilies, a, b, policy, env.fn);
    assert FamiliesCovered(a, policy) == FamiliesCovered(b, policy);
  }

  // ----- order ---------------------------------------------------------------

  lemma {:induction false} CountAppend(a: seq<Observation>, b: seq<Observation>, p: Observation -> bool)
    ensures Count(a + b, p) == Count(a, p) + Count(b, p)
  {
    if a == [] {
      assert a + b == b;
    } else {
      CountAppend(a[1..], b, p);
      assert (a + b)[1..] == a[1..] + b;
    }
  }

  lemma RemoveFromPermutation(a: seq<Observation>, b: seq<Observation>, i: nat)
    requires a != [] && multiset(a) == multiset(b) && i < |b| && b[i] == a[0]
    ensures multiset(a[1..]) == multiset(b[..i] + b[i + 1..])
  {
    var rest := b[..i] + b[i + 1..];
    assert a == [a[0]] + a[1..];
    assert b == b[..i] + [b[i]] + b[i + 1..];
    assert multiset(b) == multiset(rest) + multiset{b[i]};
    assert multiset(a[1..]) == multiset(a) - multiset{a[0]};
    assert multiset(rest) == multiset(b) - multiset{b[i]};
  }

  lemma {:induction false} CountPermuted(a: seq<Observation>, b: seq<Observation>, p: Observation -> bool)
    requires multiset(a) == multiset(b)
    ensures Count(a, p) == Count(b, p)
    decreases |a|
  {
    assert |a| == |multiset(a)| == |multiset(b)| == |b|;
    if a != [] {
      assert a[0] in multiset(b);
      var i :| 0 <= i < |b| && b[i] == a[0];
      RemoveFromPermutation(a, b, i);
      CountPermuted(a[1..], b[..i] + b[i + 1..], p);
      CountAppend(b[..i], b[i + 1..], p);
      CountAppend(b[..i], [b[i]] + b[i + 1..], p);
      assert b == b[..i] + ([b[i]] + b[i + 1..]);
      assert ([b[i]] + b[i + 1..])[1..] == b[i + 1..];
    }
  }

  lemma SameMembers(a: seq<Observation>, b: seq<Observation>)
    requires multiset(a) == multiset(b)
    ensures forall o :: o in a <==> o in b
  {
    forall o ensures o in a <==> o in b {
      assert o in a <==> o in multiset(a);
      assert o in b <==> o in multiset(b);
    }
  }

  lemma {:induction false} DistinctPermuted(a: seq<Observation>, b: seq<Observation>)
    requires multiset(a) == multiset(b) && DistinctTasks(a)
    ensures DistinctTasks(b)
    decreases |a|
  {
    assert |a| == |multiset(a)| == |multiset(b)| == |b|;
    if a != [] {
      assert a[0] in multiset(b);
      var i :| 0 <= i < |b| && b[i] == a[0];
      var rest := b[..i] + b[i + 1..];
      RemoveFromPermutation(a, b, i);
      DistinctPermuted(a[1..], rest);
      SameMembers(a[1..], rest);
      forall k | 0 <= k < |b| && k != i ensures b[k].taskId != b[i].taskId {
        var o := if k < i then rest[k] else rest[k - 1];
        assert b[k] == o && o in rest && o in a[1..];
      }
      forall j, k | 0 <= j < k < |b| ensures b[j].taskId != b[k].taskId {
        if j != i && k != i {
          var j', k' := if j < i then j else j - 1, if k < i then k else k - 1;
          assert rest[j'] == b[j] && rest[k'] == b[k];
        }
      }
    }
  }

  lemma ObservedPermuted(a: seq<Observation>, b: seq<Observation>, id: string)
    requires multiset(a) == multiset(b) && DistinctTasks(a) && DistinctTasks(b)
    ensures Observed(a, id) == Observed(b, id)
  {
    SameMembers(a, b);
    ObservedNone(a, id);
    ObservedNone(b, id);
    if Observed(a, id).Some? {
      var o := Observed(a, id).value;
      assert o in b;
      var i :| 0 <= i < |b| && b[i] == o;
      ObservedAt(b, i);
    }
  }

  lemma ScheduledPermuted(a: seq<Observation>, b: seq<Observation>, schedule: seq<ScheduledTask>)
    requires multiset(a) == multiset(b) && Scheduled(a, schedule)
    ensures Scheduled(b, schedule)
  {
    DistinctPermuted(a, b);
    SameMembers(a, b);
    forall i | 0 <= i < |b| ensures MatchesSchedule(b[i], schedule) {
      assert b[i] in b && b[i] in a;
    }
  }

  lemma PermutedIndistinguishable(a: seq<Observation>, b: seq<Observation>)
    requires multiset(a) == multiset(b) && DistinctTasks(a) && DistinctTasks(b)
    ensures Indistinguishable(a, b)
  {
    forall id ensures GatedReward(a, id) == GatedReward(b, id) { ObservedPermuted(a, b, id); }
    forall f ensures Count(a, IsAvailableIn(f)) == Count(b, IsAvailableIn(f)) {
      CountPermuted(a, b, IsAvailableIn(f));
    }
    CountPermuted(a, b, IsAvailable());
    CountPermuted(a, b, IsAvailableAndCompliant());
    CountPermuted(a, b, IsAvailableAndCorrect());
    SameMembers(a, b);
    hide Count, GatedReward;
  }

  /** The order in which a miner's observations arrive is irrelevant: both orders are
      refused, or both give the same aggregate. */
  lemma AggregateIgnoresOrder(minerId: string, a: seq<Observation>, b: seq<Observation>, policy: Policy, env: Env)
    requires Usable(policy, env) && multiset(a) == multiset(b)
    ensures var ra, rb := AggregateMiner(minerId, a, policy, env), AggregateMiner(minerId, b, policy, env);
            (ra.Err? && rb.Err?) || ra == rb
  {
    var schedule := policy.taskSchedule;
    ScheduledIffNoFault(a, schedule);
    ScheduledIffNoFault(b, schedule);
    if Scheduled(a, schedule) {
      ScheduledPermuted(a, b, schedule);
      PermutedIndistinguishable(a, b);
      SameSummary(minerId, a, b, policy, env);
    } else if Scheduled(b, schedule) {
      ScheduledPermuted(b, a, schedule);
    }
  }

  // ----- absences ------------------------------------------------------------

  function AvailableOnly(obs: seq<Observation>): (r: seq<Observation>)
    ensures forall o :: o in r <==> o in obs && o.available
  {
    if obs == [] then []
    else if obs[0].available then [obs[0]] + AvailableOnly(obs[1..])
    else AvailableOnly(obs[1..])
  }

  lemma {:induction false} CountAvailableOnly(obs: seq<Observation>, p: Observation -> bool)
    requires forall o :: p(o) ==> o.available
    ensures Count(AvailableOnly(obs), p) == Count(obs, p)
  {
    if obs != [] { CountAvailableOnly(obs[1..], p); }
  }

  lemma {:induction false} GatedAvailableOnly(obs: seq<Observation>, id: string)
    requires DistinctTasks(obs)
    ensures GatedReward(AvailableOnly(obs), id) == GatedReward(obs, id)
  {
    if obs != [] {
      GatedAvailableOnly(obs[1..], id);
      if !obs[0].available && obs[0].taskId == id {
        ObservedNone(AvailableOnly(obs[1..]), id);
      }
    }
  }

  lemma {:induction false} DistinctAvailableOnly(obs: seq<Observation>)
    requires DistinctTasks(obs)
    ensures DistinctTasks(AvailableOnly(obs))
  {
    if obs != [] {
      DistinctAvailableOnly(obs[1..]);
      forall o | o in AvailableOnly(obs[1..]) ensures o.taskId != obs[0].taskId {
        assert o in obs[1..];
      }
    }
  }

  lemma AvailableOnlyIndistinguishable(obs: seq<Observation>)
    requires DistinctTasks(obs)
    ensures Indistinguishable(AvailableOnly(obs), obs)
  {
    forall id ensures GatedReward(AvailableOnly(obs), id) == GatedReward(obs, id) {
      GatedAvailableOnly(obs, id);
    }
    forall f ensures Count(AvailableOnly(obs), IsAvailableIn(f)) == Count(obs, IsAvailableIn(f)) {
      CountAvailableOnly(obs, IsAvailableIn(f));
    }
    CountAvailableOnly(obs, IsAvailable());
    CountAvailableOnly(obs, IsAvailableAndCompliant());
    CountAvailableOnly(obs, IsAvailableAndCorrect());
    hide Count, GatedReward;
  }

  /** Reporting an absence explicitly, or leaving the task out, makes no difference. */
  lemma AggregateIgnoresAbsences(minerId: string, obs: seq<Observation>, policy: Policy, env: Env)
    requires Usable(policy, env) && AggregateMiner(minerId, obs, policy, env).Ok?
    ensures AggregateMiner(minerId, AvailableOnly(obs), policy, env)
         == AggregateMiner(minerId, obs, policy, env)
  {
    var schedule, kept := policy.taskSchedule, AvailableOnly(obs);
    ScheduledIffNoFault(obs, schedule);
    ScheduledIffNoFault(kept, schedule);
    DistinctAvailableOnly(obs);
    forall i | 0 <= i < |kept| ensures MatchesSchedule(kept[i], schedule) {
      assert kept[i] in kept && kept[i] in obs;
    }
    AvailableOnlyIndistinguishable(obs);
    SameSummary(minerId, kept, obs, policy, env);
  }

  /** A bucket has its scheduled number of entries, whatever was submitted. */
  lemma BucketSizeFixed(policy: Policy, a: seq<Observation>, b: seq<Observation>, family: string)
    requires policy.Valid() && family in policy.requiredFamilies
    ensures |Bucket(policy.taskSchedule, a, family)| == |Bucket(policy.taskSchedule, b, family)|
         == ScheduledCount(policy.taskSchedule, family) >= policy.minimumTasksPerFamily
  {
    BucketSize(policy.taskSchedule, a, family);
    BucketSize(policy.taskSchedule, b, family);
  }

  // ----- when a miner is paid ------------------------------------------------

  lemma RatioWithin(part: nat, whole: nat)
    requires part <= whole
    ensures 0.0 <= Ratio(part, whole) <= 1.0
    ensures part > 0 ==> Ratio(part, whole) > 0.0
  {
    if whole != 0 {
      OverMonotone(part as real, whole as real, whole as real);
      OverMonotone(0.0, part as real, whole as real);
      WholeOver(whole as real);
    }
  }

  lemma {:induction false} CountWithin(obs: seq<Observation>, p: Observation -> bool, q: Observation -> bool)
    requires forall o: Observation :: p(o) ==> q(o)
    ensures Count(obs, p) <= Count(obs, q)
  {
    if obs != [] { CountWithin(obs[1..], p, q); }
  }

  function TaskIds(obs: seq<Observation>): (r: seq<string>)
    ensures |r| == |obs| && forall i :: 0 <= i < |r| ==> r[i] == obs[i].taskId
  {
    if obs == [] then [] else [obs[0].taskId] + TaskIds(obs[1..])
  }

  lemma {:induction false} ScheduledIdsWithin(schedule: seq<ScheduledTask>, ids: set<string>)
    requires forall id :: id in ids ==> Lookup(schedule, id).Some?
    ensures |ids| <= |schedule|
  {
    if schedule == [] {
      assert ids == {};
    } else {
      ScheduledIdsWithin(schedule[1..], ids - {schedule[0].taskId});
    }
  }

  lemma {:induction false} CountAtMost(obs: seq<Observation>, p: Observation -> bool)
    ensures Count(obs, p) <= |obs|
  {
    if obs != [] { CountAtMost(obs[1..], p); }
  }

  /** A miner cannot be available on more tasks than were scheduled. */
  lemma AvailableWithinSchedule(obs: seq<Observation>, schedule: seq<ScheduledTask>)
    requires Scheduled(obs, schedule)
    ensures Count(obs, IsAvailable()) <= |schedule|
  {
    var ids := TaskIds(obs);
    DistinctCardinality(ids);
    forall id | id in (set x | x in ids) ensures Lookup(schedule, id).Some? {
      var i :| 0 <= i < |ids| && ids[i] == id;
      assert MatchesSchedule(obs[i], schedule);
    }
    ScheduledIdsWithin(schedule, set x | x in ids);
    CountAtMost(obs, IsAvailable());
  }

  lemma DiscountedReward(x: real, a: real, c: real)
    requires 0.0 <= a <= 1.0 && 0.0 <= c <= 1.0
    ensures var r := Times(Times(MaxReal(0.0, x), a), c);
            && 0.0 <= r && (x > 0.0 ==> r <= x)
            && (r > 0.0 <==> x > 0.0 && a > 0.0 && c > 0.0)
  {
    var m := MaxReal(0.0, x);
    ProductNonNegative(m, a);
    ProductNonNegative(Times(m, a), c);
    ProductNonNegative(m, 1.0 - a);
    ProductNonNegative(Times(m, a), 1.0 - c);
    assert Times(m, 1.0 - a) == m - Times(m, a);
    assert Times(Times(m, a), 1.0 - c) == Times(m, a) - Times(Times(m, a), c);
  }

  /** Whatever the order of the gates: a miner is eligible, equivalently paid, exactly when
      it covered enough tasks overall and per family, met the three rates, has a positive
      score in every family, and its center exceeds its uncertainty by something that its
      availability and compliance do not wipe out; it is never paid more than that margin. */
  lemma PaidIff(minerId: string, obs: seq<Observation>, policy: Policy, env: Env)
    requires Usable(policy, env) && AggregateMiner(minerId, obs, policy, env).Ok?
    ensures var g := AggregateMiner(minerId, obs, policy, env).value;
            && (g.eligible <==>
                  && g.taskCount >= policy.minimumTasks && FamiliesCovered(obs, policy)
                  && g.availability >= policy.minimumAvailability && g.compliance >= policy.minimumCompliance
                  && g.correctness >= policy.minimumCorrectness && AllPositive(g.familyScores)
                  && g.center > g.uncertainty && g.availability > 0.0 && g.compliance > 0.0)
            && (g.eligible <==> g.reward > 0.0) && (g.eligible <==> g.failureCode.None?)
            && 0.0 <= g.reward && (g.eligible ==> g.reward <= g.center - g.uncertainty)
  {
    var taskCount := Count(obs, IsAvailable());
    ScheduledIffNoFault(obs, policy.taskSchedule);
    AvailableWithinSchedule(obs, policy.taskSchedule);
    CountWithin(obs, IsAvailableAndCompliant(), IsAvailable());
    RatioWithin(taskCount, |policy.taskSchedule|);
    RatioWithin(Count(obs, IsAvailableAndCompliant()), taskCount);
    var g := Summarize(minerId, obs, policy, env);
    hide Count, Ratio, Portfolio, Scores, AllPositive, FamiliesCovered, Times, MaxReal,
         StrategyPortfolio, BehaviorPortfolio, FirstFault, Scheduled;
    DiscountedReward(g.center - g.uncertainty, g.availability, g.compliance);
  }
}
