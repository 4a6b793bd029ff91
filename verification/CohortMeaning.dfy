/** What `evaluate_task_cohort` hands on (planrace/evaluation_v2.py:360-441), field by field:
    whose evaluation each miner is credited with, what the observation says, when the
    call is refused, and that its observations belong to a schedule that has the task. */
module CohortMeaning {
  import opened Wrappers
  import opened Hashing
  import opened Indexes
  import opened Deduplication
  import opened Cohort
  import Aggregation
  import AggregationLaws
  import AggregationMeaning
  import Sorting
  import Text

  /** `s` stands for everybody with the strategy `digest`: it has it, and nobody that has it
      comes before in the order of identifiers. */
  ghost predicate Stands(h: Digester, subs: seq<Submission>, digest: string, s: Submission) {
    && s in subs && StrategyDigest(h, s.bundle) == digest
    && forall r :: r in subs && StrategyDigest(h, r.bundle) == digest ==> Text.LessEq(s.minerId, r.minerId)
  }

  /** What an observation says about one miner, given the evaluation of its strategy. */
  ghost predicate Reports(t: Setting, o: Observation, s: Submission, e: Evaluation) {
    && o.minerId == s.minerId
    && o.epoch == t.epoch
    && o.family == t.task.spec.benchmarkFamilyId
    && o.taskId == t.task.taskId
    && o.taskCommitment == t.task.commitment
    && o.evidenceDigest == t.h("planrace/2:holdout-evidence", EvidenceJson(t.numberText, e))
    && o.reward == e.reward
    && o.available
    && o.correct == e.exactPassed
    && o.compliant == e.compliant
    && o.strategyDigest == StrategyDigest(t.h, s.bundle)
    && o.behaviorDigest == e.behaviorDigest
    && o.duplicateGroupSize == 1
  }

  lemma CreditReports(t: Setting, cache: Cache, s: Submission)
    ensures Reports(t, Credit(t, cache, s), s, cache(StrategyDigest(t.h, s.bundle)))
  {
    hide StrategyDigest, EvidenceJson;
  }

  lemma {:induction false} FirstStands(h: Digester, sorted: seq<Submission>, digest: string)
    requires Sorting.Sorted(MinerKey(), sorted) && WithDigest(h, sorted, digest) != []
    ensures Stands(h, sorted, digest, WithDigest(h, sorted, digest)[0])
  {
    hide StrategyDigest;
    var s, rest := sorted[0], sorted[1..];
    assert sorted == [s] + rest;
    if StrategyDigest(h, s.bundle) == digest {
      forall r | r in sorted ensures Text.LessEq(s.minerId, r.minerId) {
        Sorting.FirstIsLeast(MinerKey(), sorted, r);
        assert MinerKey()(s) == s.minerId && MinerKey()(r) == r.minerId;
      }
    } else {
      FirstStands(h, rest, digest);
    }
  }

  lemma SortedStands(h: Digester, subs: seq<Submission>, digest: string, s: Submission)
    requires Stands(h, SortedSubmissions(subs), digest, s)
    ensures Stands(h, subs, digest, s)
  {
    SortedMembers(subs);
    hide StrategyDigest, SortedSubmissions;
  }

  /** The evaluation behind a digest is the evaluator's answer to the bundle that stands for
      the digest. */
  lemma CacheStands(t: Setting, subs: seq<Submission>, r: Submission) returns (s: Submission)
    requires r in subs
    ensures Stands(t.h, subs, StrategyDigest(t.h, r.bundle), s)
    ensures CacheOf(t, SortedSubmissions(subs))(StrategyDigest(t.h, r.bundle)) == t.evaluate(s.bundle)
  {
    var sorted, digest := SortedSubmissions(subs), StrategyDigest(t.h, r.bundle);
    SortedMembers(subs);
    assert r in WithDigest(t.h, sorted, digest);
    s := WithDigest(t.h, sorted, digest)[0];
    Sorting.SortSorted(MinerKey(), subs);
    hide StrategyDigest, WithDigest, CacheOf, SortedSubmissions, Stands;
    FirstStands(t.h, sorted, digest);
    SortedStands(t.h, subs, digest, s);
    CacheOfGroup(t, sorted, digest);
  }

  /** The observations are in the order of the miners' identifiers. */
  ghost predicate InMinerOrder(obs: seq<Observation>) {
    forall i, j :: 0 <= i < j < |obs| ==> Text.LessEq(obs[i].minerId, obs[j].minerId)
  }

  /** `o` credits the submission from the evaluation of whoever stands for its strategy. */
  ghost predicate CreditedFrom(t: Setting, subs: seq<Submission>, o: Observation, r: Submission) {
    exists s :: Stands(t.h, subs, StrategyDigest(t.h, r.bundle), s) && Reports(t, o, r, t.evaluate(s.bundle))
  }

  lemma CreditedFromStands(t: Setting, subs: seq<Submission>, r: Submission)
    requires r in subs
    ensures CreditedFrom(t, subs, Credit(t, CacheOf(t, SortedSubmissions(subs)), r), r)
  {
    hide *;
    var s := CacheStands(t, subs, r);
    CreditReports(t, CacheOf(t, SortedSubmissions(subs)), r);
    CreditedBy(t, subs, Credit(t, CacheOf(t, SortedSubmissions(subs)), r), r, s);
  }

  lemma CreditedBy(t: Setting, subs: seq<Submission>, o: Observation, r: Submission, s: Submission)
    requires Stands(t.h, subs, StrategyDigest(t.h, r.bundle), s) && Reports(t, o, r, t.evaluate(s.bundle))
    ensures CreditedFrom(t, subs, o, r)
  {
  }

  lemma ObservationsAre(t: Setting, subs: seq<Submission>)
    ensures var obs, sorted := CohortObservations(t, subs), SortedSubmissions(subs);
            && |obs| == |sorted|
            && forall i :: 0 <= i < |obs| ==> obs[i] == Credit(t, CacheOf(t, sorted), sorted[i])
  {
    hide Credit, CacheOf, SortedSubmissions;
  }

  lemma ObservationsOrdered(t: Setting, subs: seq<Submission>)
    requires DistinctMiners(subs)
    ensures InMinerOrder(CohortObservations(t, subs))
  {
    var obs := CohortObservations(t, subs);
    EachSorted(t, CacheOf(t, SortedSubmissions(subs)), subs);
    assert Sorting.Sorted(ObservationKey(), obs);
    forall i, j | 0 <= i < j < |obs| ensures Text.LessEq(obs[i].minerId, obs[j].minerId) {
      assert Text.LessEq(ObservationKey()(obs[i]), ObservationKey()(obs[j]));
    }
    hide CohortObservations, Credits;
  }

  /** The cohort has one observation per miner, in miner order, and observation `i` credits
      the submission of the `i`-th miner from the one evaluation of its strategy. */
  lemma ObservationsMean(t: Setting, subs: seq<Submission>) returns (sorted: seq<Submission>)
    requires DistinctMiners(subs)
    ensures multiset(sorted) == multiset(subs)
    ensures var obs := CohortObservations(t, subs);
            && |obs| == |sorted| && InMinerOrder(obs)
            && forall i :: 0 <= i < |obs| ==> CreditedFrom(t, subs, obs[i], sorted[i])
  {
    sorted := SortedSubmissions(subs);
    var obs := CohortObservations(t, subs);
    ObservationsOrdered(t, subs);
    ObservationsAre(t, subs);
    SortedMembers(subs);
    hide *;
    forall i | 0 <= i < |obs| ensures CreditedFrom(t, subs, obs[i], sorted[i]) {
      assert sorted[i] in sorted;
      CreditedFromStands(t, subs, sorted[i]);
    }
  }

  /** On a schedule that has the task, every observation of the cohort matches. */
  lemma CohortOnSchedule(t: Setting, subs: seq<Submission>, policy: Aggregation.Policy)
    requires policy.Valid()
    requires Aggregation.ScheduledTask(t.epoch, t.task.spec.benchmarkFamilyId, t.task.taskId, t.task.commitment)
          in policy.taskSchedule
    ensures forall o :: o in CohortObservations(t, subs) ==>
              AggregationLaws.MatchesSchedule(o, policy.taskSchedule)
  {
    var obs := CohortObservations(t, subs);
    var cache, sorted := CacheOf(t, SortedSubmissions(subs)), SortedSubmissions(subs);
    forall o | o in obs ensures AggregationLaws.MatchesSchedule(o, policy.taskSchedule) {
      var i :| 0 <= i < |obs| && obs[i] == o;
      assert o == Credit(t, cache, sorted[i]);
      CreditReports(t, cache, sorted[i]);
      AggregationMeaning.MatchesIff(o, policy);
    }
  }

  // ----- refusals ------------------------------------------------------------

  ghost predicate BelongsTo(t: Setting, s: Submission) {
    s.bundle.taskId == t.task.taskId && s.bundle.engineImageDigest == t.task.spec.engineImageDigest
  }

  /** `s` is the first submission, in miner order, that does not belong to the task. */
  ghost predicate FirstStranger(t: Setting, subs: seq<Submission>, s: Submission) {
    s in subs && !BelongsTo(t, s)
    && forall r :: r in subs && !BelongsTo(t, r) ==> Text.LessEq(s.minerId, r.minerId)
  }

  lemma {:induction false} FaultIsFirst(t: Setting, sorted: seq<Submission>)
    requires Sorting.Sorted(MinerKey(), sorted)
    ensures FirstFault(t, sorted) == None <==> forall s :: s in sorted ==> BelongsTo(t, s)
    ensures FirstFault(t, sorted).Some? ==>
              exists s :: FirstStranger(t, sorted, s)
                && FirstFault(t, sorted).value
                   == if s.bundle.taskId != t.task.taskId then OtherTask else OtherEngine
  {
    if sorted != [] {
      var s, rest := sorted[0], sorted[1..];
      assert sorted == [s] + rest;
      FaultIsFirst(t, rest);
      if !BelongsTo(t, s) {
        forall r | r in sorted ensures Text.LessEq(s.minerId, r.minerId) {
          Sorting.FirstIsLeast(MinerKey(), sorted, r);
          assert MinerKey()(s) == s.minerId && MinerKey()(r) == r.minerId;
        }
        assert FirstStranger(t, sorted, s);
      } else if FirstFault(t, rest).Some? {
        var r :| FirstStranger(t, rest, r)
                 && FirstFault(t, rest).value == if r.bundle.taskId != t.task.taskId then OtherTask else OtherEngine;
        assert FirstStranger(t, sorted, r);
      }
    }
  }

  /** What is wrong with a refused cohort, by its error. */
  ghost predicate RefusedFor(t: Setting, subs: seq<Submission>, error: CohortError) {
    var some := subs != [];
    var named := some && t.maxUniqueStrategies >= 1 && forall s :: s in subs ==> s.minerId != "";
    var ours := named && forall s :: s in subs ==> BelongsTo(t, s);
    var affordable := ours && |set s | s in subs :: StrategyDigest(t.h, s.bundle)| <= t.maxUniqueStrategies;
    match error
    case NoSubmissions => !some
    case NoBudget => some && t.maxUniqueStrategies < 1
    case EmptyMinerId => some && t.maxUniqueStrategies >= 1 && exists s :: s in subs && s.minerId == ""
    case OtherTask => named && exists s :: FirstStranger(t, subs, s) && s.bundle.taskId != t.task.taskId
    case OtherEngine => named && exists s :: FirstStranger(t, subs, s) && s.bundle.taskId == t.task.taskId
    case BudgetExceeded => ours && !affordable
    case DigestMismatch => affordable && Mislabelled(t, subs)
  }

  /** Some evaluation does not carry the digest of the strategy that was evaluated. */
  ghost predicate Mislabelled(t: Setting, subs: seq<Submission>) {
    exists s: Submission :: Stands(t.h, subs, StrategyDigest(t.h, s.bundle), s)
                && t.evaluate(s.bundle).strategyDigest != StrategyDigest(t.h, s.bundle)
  }

  /** Nothing stands against evaluating the cohort. */
  ghost predicate Evaluable(t: Setting, subs: seq<Submission>) {
    && subs != [] && t.maxUniqueStrategies >= 1
    && (forall s :: s in subs ==> s.minerId != "" && BelongsTo(t, s))
    && |set s | s in subs :: StrategyDigest(t.h, s.bundle)| <= t.maxUniqueStrategies
    && !Mislabelled(t, subs)
  }

  lemma StandsOnce(h: Digester, subs: seq<Submission>, digest: string, a: Submission, b: Submission)
    requires DistinctMiners(subs) && Stands(h, subs, digest, a) && Stands(h, subs, digest, b)
    ensures a == b
  {
    hide StrategyDigest;
    Text.Antisymmetric(a.minerId, b.minerId);
    MinersDiffer(subs, a, b);
  }

  lemma MislabelledIff(t: Setting, subs: seq<Submission>)
    requires DistinctMiners(subs)
    ensures Mislabelled(t, subs) <==>
            exists d :: d in DigestsOf(t.h, subs) && CacheOf(t, SortedSubmissions(subs))(d).strategyDigest != d
  {
    hide StrategyDigest, CacheOf, SortedSubmissions, DistinctMiners;
    if d :| d in DigestsOf(t.h, subs) && CacheOf(t, SortedSubmissions(subs))(d).strategyDigest != d {
      var r :| r in subs && StrategyDigest(t.h, r.bundle) == d;
      var s := CacheStands(t, subs, r);
    }
    if Mislabelled(t, subs) {
      var s: Submission :| Stands(t.h, subs, StrategyDigest(t.h, s.bundle), s)
               && t.evaluate(s.bundle).strategyDigest != StrategyDigest(t.h, s.bundle);
      var r := CacheStands(t, subs, s);
      StandsOnce(t.h, subs, StrategyDigest(t.h, s.bundle), s, r);
      assert StrategyDigest(t.h, s.bundle) in DigestsOf(t.h, subs);
    }
  }

  lemma StrangersSorted(t: Setting, subs: seq<Submission>)
    ensures FirstFault(t, SortedSubmissions(subs)) == None <==> forall s :: s in subs ==> BelongsTo(t, s)
    ensures FirstFault(t, SortedSubmissions(subs)).Some? ==>
              exists s :: FirstStranger(t, subs, s)
                && FirstFault(t, SortedSubmissions(subs)).value
                   == if s.bundle.taskId != t.task.taskId then OtherTask else OtherEngine
  {
    var sorted := SortedSubmissions(subs);
    SortedMembers(subs);
    Sorting.SortSorted(MinerKey(), subs);
    FaultIsFirst(t, sorted);
    hide SortedSubmissions, FirstFault, BelongsTo;
    forall s ensures FirstStranger(t, sorted, s) <==> FirstStranger(t, subs, s) {}
  }

  lemma RefusalSteps(t: Setting, subs: seq<Submission>)
    ensures var fault := FirstFault(t, SortedSubmissions(subs));
            var named := subs != [] && t.maxUniqueStrategies >= 1 && forall s :: s in subs ==> s.minerId != "";
            var over := |set s | s in subs :: StrategyDigest(t.h, s.bundle)| > t.maxUniqueStrategies;
            var wrong := exists d :: d in DigestsOf(t.h, subs)
                                     && CacheOf(t, SortedSubmissions(subs))(d).strategyDigest != d;
            Refusal(t, subs)
            == if !named then Some(if subs == [] then NoSubmissions
                                   else if t.maxUniqueStrategies < 1 then NoBudget else EmptyMinerId)
               else if fault.Some? then fault
               else if over then Some(BudgetExceeded)
               else if wrong then Some(DigestMismatch)
               else None
  {
    assert DigestsOf(t.h, subs) == set s | s in subs :: StrategyDigest(t.h, s.bundle);
    hide FirstFault, SortedSubmissions, CacheOf, StrategyDigest, DigestsOf;
  }

  /** The call is refused for what is wrong with the cohort, by the first check that it fails,
      and for nothing else. */
  lemma RefusalMeans(t: Setting, subs: seq<Submission>)
    requires DistinctMiners(subs)
    ensures Refusal(t, subs) == None <==> Evaluable(t, subs)
    ensures Refusal(t, subs).Some? ==> RefusedFor(t, subs, Refusal(t, subs).value)
  {
    hide FirstFault, SortedSubmissions, CacheOf, StrategyDigest, DigestsOf, Refusal, Mislabelled, BelongsTo,
         FirstStranger;
    RefusalSteps(t, subs);
    StrangersSorted(t, subs);
    MislabelledIff(t, subs);
  }
}
