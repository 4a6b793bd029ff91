/** `evaluate_task_cohort` (planrace/evaluation_v2.py:360-441): every executable strategy is
    evaluated once, and everybody who submitted it is credited from that evaluation. */
module Cohort {
  import opened Wrappers
  import opened Json
  import opened Hashing
  import opened Indexes
  import opened Commitment
  import opened Deduplication
  import Sorting
  import Text

  datatype Submission = Submission(minerId: string, bundle: Bundle)

  /** One hidden fixture's outcome: the query plan, the names of the candidate's indexes
      that occur in it, and everything else that was measured. */
  datatype FixtureOutcome = FixtureOutcome(
    fixtureId: string,
    artifactDigest: string,
    candidatePlan: seq<string>,
    measured: Json,
    usedIndexNames: seq<string>,
    score: Json)

  datatype Evaluation = Evaluation(
    taskId: string,
    taskCommitment: string,
    artifactDigest: string,
    strategyDigest: string,
    behaviorDigest: string,
    familyId: string,
    exactPassed: bool,
    compliant: bool,
    eligible: bool,
    reward: real,
    failureCode: Option<string>,
    fixtures: seq<FixtureOutcome>)

  /** `evaluate` is what the sandbox answers to each bundle during the call; nothing is
      assumed of it. */
  datatype Setting = Setting(
    h: Digester,
    numberText: real -> string,
    evaluate: Bundle -> Evaluation,
    task: PublicTask,
    epoch: nat,
    maxUniqueStrategies: nat)

  datatype CohortError =
    | NoSubmissions
    | NoBudget
    | EmptyMinerId
    | OtherTask
    | OtherEngine
    | BudgetExceeded
    | DigestMismatch

  datatype Result = Evaluated(
    uniqueStrategies: nat,
    cacheHits: nat,
    evaluations: seq<(string, Evaluation)>,
    observations: seq<Observation>)

  // ----- evidence ------------------------------------------------------------

  const EVIDENCE_DOMAIN := "planrace/2:holdout-evidence"

  /** The result without its artifact identifier; the fields that hold neither plan nor
      names are gathered under one. */
  function ResultJson(f: FixtureOutcome): Json {
    JObject([
      Field("candidate_plan", Texts(f.candidatePlan)),
      Field("measured", f.measured),
      Field("used_index_names", Texts(f.usedIndexNames))])
  }

  function OutcomeJson(f: FixtureOutcome): Json {
    JObject([Field("fixture_id", JString(f.fixtureId)), Field("result", ResultJson(f)), Field("score", f.score)])
  }

  function OutcomesJson(fixtures: seq<FixtureOutcome>): Json {
    JArray(Mapped((f: FixtureOutcome) => OutcomeJson(f), fixtures))
  }

  function FailureJson(code: Option<string>): Json {
    match code case None => JNull case Some(s) => JString(s)
  }

  function EvidenceJson(numberText: real -> string, e: Evaluation): Json {
    JObject([
      Field("behavior_digest", JString(e.behaviorDigest)),
      Field("compliant", JBool(e.compliant)),
      Field("eligible", JBool(e.eligible)),
      Field("exact_passed", JBool(e.exactPassed)),
      Field("failure_code", FailureJson(e.failureCode)),
      Field("family_id", JString(e.familyId)),
      Field("fixtures", OutcomesJson(e.fixtures)),
      Field("reward", JString(numberText(e.reward))),
      Field("strategy_digest", JString(e.strategyDigest)),
      Field("task_commitment", JString(e.taskCommitment)),
      Field("task_id", JString(e.taskId))])
  }

  /** `holdout_evidence_digest`. */
  function EvidenceDigest(t: Setting, e: Evaluation): string {
    t.h(EVIDENCE_DOMAIN, EvidenceJson(t.numberText, e))
  }

  // ----- crediting from a cache ----------------------------------------------

  /** The observation an evaluation gives one miner. */
  function Observe(t: Setting, e: Evaluation, strategyDigest: string, minerId: string): Observation {
    Observation(
      minerId, t.epoch, t.task.spec.benchmarkFamilyId, t.task.taskId, t.task.commitment, EvidenceDigest(t, e),
      e.reward, true, e.exactPassed, e.compliant, strategyDigest, e.behaviorDigest, 1)
  }

  /** One evaluation per strategy digest. */
  type Cache = string -> Evaluation

  /** What a miner gets out of a cache. */
  function Credit(t: Setting, cache: Cache, s: Submission): Observation {
    var d := StrategyDigest(t.h, s.bundle);
    Observe(t, cache(d), d, s.minerId)
  }

  function Credits(t: Setting, cache: Cache, subs: seq<Submission>): (r: seq<Observation>)
    ensures |r| == |subs| && forall i :: 0 <= i < |r| ==> r[i] == Credit(t, cache, subs[i])
  {
    if subs == [] then [] else [Credit(t, cache, subs[0])] + Credits(t, cache, subs[1..])
  }

  // ----- grouping ------------------------------------------------------------

  function MinerKey(): Submission -> string {
    (s: Submission) => s.minerId
  }

  function ObservationKey(): Observation -> string {
    (o: Observation) => o.minerId
  }

  function DigestKey(): string -> string {
    (d: string) => d
  }

  function WithDigest(h: Digester, subs: seq<Submission>, d: string): (r: seq<Submission>)
    ensures forall s :: s in r <==> s in subs && StrategyDigest(h, s.bundle) == d
  {
    if subs == [] then []
    else if StrategyDigest(h, subs[0].bundle) == d then [subs[0]] + WithDigest(h, subs[1..], d)
    else WithDigest(h, subs[1..], d)
  }

  function DigestsOf(h: Digester, subs: seq<Submission>): set<string> {
    set s | s in subs :: StrategyDigest(h, s.bundle)
  }

  /** `by_strategy`, with its keys in the order of their first submission. */
  ghost predicate ByDigest(
      h: Digester, subs: seq<Submission>, groups: map<string, seq<Submission>>, order: seq<string>)
  {
    && (forall d :: d in groups <==> d in order)
    && (forall d :: d in order <==> WithDigest(h, subs, d) != [])
    && (forall d :: d in groups ==> groups[d] == WithDigest(h, subs, d))
    && Distinct(order)
  }

  lemma {:induction false} WithDigestSnoc(h: Digester, subs: seq<Submission>, s: Submission, d: string)
    ensures WithDigest(h, subs + [s], d)
         == WithDigest(h, subs, d) + (if StrategyDigest(h, s.bundle) == d then [s] else [])
  {
    hide StrategyDigest;
    if subs == [] {
      assert subs + [s] == [s];
      assert [s][1..] == [];
    } else {
      WithDigestSnoc(h, subs[1..], s, d);
      assert (subs + [s])[1..] == subs[1..] + [s];
    }
  }

  lemma GroupedNext(
      h: Digester, subs: seq<Submission>, groups: map<string, seq<Submission>>, order: seq<string>,
      s: Submission, groups': map<string, seq<Submission>>, order': seq<string>)
    requires ByDigest(h, subs, groups, order)
    requires var d := StrategyDigest(h, s.bundle);
             && groups' == groups[d := (if d in groups then groups[d] else []) + [s]]
             && order' == if d in groups then order else order + [d]
    ensures ByDigest(h, subs + [s], groups', order')
  {
    var key := StrategyDigest(h, s.bundle);
    hide StrategyDigest, WithDigest;
    forall d
      ensures WithDigest(h, subs + [s], d) == WithDigest(h, subs, d) + (if key == d then [s] else [])
    {
      WithDigestSnoc(h, subs, s, d);
    }
    assert key !in groups ==> WithDigest(h, subs, key) == [];
  }

  function BundleFault(t: Setting, s: Submission): Option<CohortError> {
    if s.bundle.taskId != t.task.taskId then Some(OtherTask)
    else if s.bundle.engineImageDigest != t.task.spec.engineImageDigest then Some(OtherEngine)
    else None
  }

  function FirstFault(t: Setting, subs: seq<Submission>): Option<CohortError> {
    if subs == [] then None
    else if BundleFault(t, subs[0]).Some? then BundleFault(t, subs[0])
    else FirstFault(t, subs[1..])
  }

  lemma {:induction false} FaultAt(t: Setting, subs: seq<Submission>, i: nat)
    requires i < |subs| && FirstFault(t, subs[..i]) == None
    ensures FirstFault(t, subs[..i + 1]) == BundleFault(t, subs[i])
    ensures BundleFault(t, subs[i]).Some? ==> FirstFault(t, subs) == BundleFault(t, subs[i])
    decreases i
  {
    hide BundleFault;
    if i == 0 {
      assert subs[..1] == [subs[0]];
    } else {
      assert subs[..i][0] == subs[0] && subs[..i][1..] == subs[1..][..i - 1];
      assert subs[..i + 1][1..] == subs[1..][..i];
      FaultAt(t, subs[1..], i - 1);
    }
  }

  lemma GroupedStart(t: Setting, subs: seq<Submission>)
    ensures FirstFault(t, subs[..0]) == None && ByDigest(t.h, subs[..0], map[], [])
  {
    assert subs[..0] == [];
  }

  method GroupByStrategy(t: Setting, sorted: seq<Submission>)
    returns (fault: Option<CohortError>, groups: map<string, seq<Submission>>, order: seq<string>)
    ensures fault == FirstFault(t, sorted)
    ensures fault.None? ==> ByDigest(t.h, sorted, groups, order)
  {
    hide *;
    groups := map[];
    order := [];
    GroupedStart(t, sorted);
    for i := 0 to |sorted|
      invariant FirstFault(t, sorted[..i]) == None
      invariant ByDigest(t.h, sorted[..i], groups, order)
    {
      var s := sorted[i];
      FaultAt(t, sorted, i);
      var failed := BundleFault(t, s);
      if failed.Some? { return failed, groups, order; }
      var digest := StrategyDigest(t.h, s.bundle);
      var groups' := groups[digest := (if digest in groups then groups[digest] else []) + [s]];
      var order' := if digest in groups then order else order + [digest];
      GroupedNext(t.h, sorted[..i], groups, order, s, groups', order');
      assert sorted[..i + 1] == sorted[..i] + [s];
      groups, order := groups', order';
    }
    assert sorted[..|sorted|] == sorted;
    fault := None;
  }

  // ----- evaluating once per strategy ----------------------------------------

  /** The observations of the groups named by `digests`, one group after the other. */
  function ByGroup(t: Setting, cache: Cache, subs: seq<Submission>, digests: seq<string>): seq<Observation> {
    if digests == [] then []
    else ByGroup(t, cache, subs, digests[..|digests| - 1])
         + Credits(t, cache, WithDigest(t.h, subs, digests[|digests| - 1]))
  }

  function Among(h: Digester, subs: seq<Submission>, digests: seq<string>): seq<Submission> {
    if subs == [] then []
    else (if StrategyDigest(h, subs[0].bundle) in digests then [subs[0]] else []) + Among(h, subs[1..], digests)
  }

  lemma CreditsCons(t: Setting, cache: Cache, s: Submission, rest: seq<Submission>)
    ensures Credits(t, cache, [s] + rest) == [Credit(t, cache, s)] + Credits(t, cache, rest)
  {
    hide Credit;
    assert ([s] + rest)[1..] == rest;
  }

  lemma AmongCons(h: Digester, s: Submission, rest: seq<Submission>, digests: seq<string>)
    ensures Among(h, [s] + rest, digests)
         == if StrategyDigest(h, s.bundle) in digests then [s] + Among(h, rest, digests) else Among(h, rest, digests)
  {
    hide StrategyDigest;
    assert ([s] + rest)[1..] == rest;
    assert [] + Among(h, rest, digests) == Among(h, rest, digests);
  }

  lemma WithDigestCons(h: Digester, s: Submission, rest: seq<Submission>, d: string)
    ensures WithDigest(h, [s] + rest, d)
         == if StrategyDigest(h, s.bundle) == d then [s] + WithDigest(h, rest, d) else WithDigest(h, rest, d)
  {
    hide StrategyDigest;
    assert ([s] + rest)[1..] == rest;
  }

  lemma OneMore(x: seq<Observation>, o: Observation, y: seq<Observation>, z: seq<Observation>)
    requires multiset(x) == multiset(y) + multiset(z)
    ensures multiset([o] + x) == multiset([o] + y) + multiset(z)
    ensures multiset([o] + x) == multiset(y) + multiset([o] + z)
  {
  }

  /** Adding one more group to those collected so far. */
  lemma {:induction false} AmongSnoc(t: Setting, cache: Cache, subs: seq<Submission>, digests: seq<string>, d: string)
    requires d !in digests
    ensures multiset(Credits(t, cache, Among(t.h, subs, digests + [d])))
         == multiset(Credits(t, cache, Among(t.h, subs, digests)))
            + multiset(Credits(t, cache, WithDigest(t.h, subs, d)))
  {
    if subs == [] {
      hide StrategyDigest, Credit;
    } else {
      hide *;
      var s, rest := subs[0], subs[1..];
      assert subs == [s] + rest;
      AmongSnoc(t, cache, rest, digests, d);
      AmongCons(t.h, s, rest, digests + [d]);
      AmongCons(t.h, s, rest, digests);
      WithDigestCons(t.h, s, rest, d);
      CreditsCons(t, cache, s, Among(t.h, rest, digests + [d]));
      CreditsCons(t, cache, s, Among(t.h, rest, digests));
      CreditsCons(t, cache, s, WithDigest(t.h, rest, d));
      assert forall x :: x in digests + [d] <==> x in digests || x == d;
      OneMore(Credits(t, cache, Among(t.h, rest, digests + [d])), Credit(t, cache, s),
              Credits(t, cache, Among(t.h, rest, digests)), Credits(t, cache, WithDigest(t.h, rest, d)));
    }
  }

  lemma {:induction false} ByGroupPermutes(t: Setting, cache: Cache, subs: seq<Submission>, digests: seq<string>)
    requires Distinct(digests)
    ensures multiset(ByGroup(t, cache, subs, digests)) == multiset(Credits(t, cache, Among(t.h, subs, digests)))
  {
    hide StrategyDigest, Credit, Credits, WithDigest, Among;
    if digests == [] {
      AmongNone(t.h, subs);
      NobodyCredited(t, cache);
    } else {
      var n := |digests| - 1;
      assert digests == digests[..n] + [digests[n]];
      ByGroupPermutes(t, cache, subs, digests[..n]);
      AmongSnoc(t, cache, subs, digests[..n], digests[n]);
    }
  }

  lemma NobodyCredited(t: Setting, cache: Cache)
    ensures Credits(t, cache, []) == []
  {
  }

  lemma {:induction false} AmongNone(h: Digester, subs: seq<Submission>)
    ensures Among(h, subs, []) == []
  {
    hide StrategyDigest;
    if subs != [] { AmongNone(h, subs[1..]); }
  }

  lemma {:induction false} AmongAll(h: Digester, subs: seq<Submission>, digests: seq<string>)
    requires forall s :: s in subs ==> StrategyDigest(h, s.bundle) in digests
    ensures Among(h, subs, digests) == subs
  {
    hide StrategyDigest;
    if subs != [] {
      assert subs[0] in subs;
      AmongAll(h, subs[1..], digests);
    }
  }

  /** One evaluation per submitted strategy, the one in the cache. */
  ghost predicate EvaluatedOnce(
      t: Setting, cache: Cache, subs: seq<Submission>, evaluations: seq<(string, Evaluation)>)
  {
    && (forall i, j :: 0 <= i < j < |evaluations| ==> evaluations[i].0 != evaluations[j].0)
    && (forall d :: (exists i :: 0 <= i < |evaluations| && evaluations[i].0 == d) <==> d in DigestsOf(t.h, subs))
    && (forall i :: 0 <= i < |evaluations| ==> evaluations[i].1 == cache(evaluations[i].0))
  }

  lemma CreditsSnoc(t: Setting, cache: Cache, subs: seq<Submission>, i: nat)
    requires i < |subs|
    ensures Credits(t, cache, subs[..i + 1]) == Credits(t, cache, subs[..i]) + [Credit(t, cache, subs[i])]
  {
    hide Credit;
    var l, r := Credits(t, cache, subs[..i + 1]), Credits(t, cache, subs[..i]) + [Credit(t, cache, subs[i])];
    assert |l| == |r|;
    assert forall j :: 0 <= j < |l| ==> l[j] == r[j];
  }

  /** A bundle for digests that nobody submitted. */
  const NOBODY := Bundle("", "", [], "", "", "")

  /** `members[0][1]`: the bundle that stands for everybody with one strategy. */
  function Canonical(h: Digester, subs: seq<Submission>, d: string): Bundle {
    var members := WithDigest(h, subs, d);
    if members == [] then NOBODY else members[0].bundle
  }

  /** The evaluations that the call makes, by strategy digest. */
  function CacheOf(t: Setting, sorted: seq<Submission>): Cache {
    (d: string) => t.evaluate(Canonical(t.h, sorted, d))
  }

  lemma CacheOfGroup(t: Setting, sorted: seq<Submission>, d: string)
    requires WithDigest(t.h, sorted, d) != []
    ensures CacheOf(t, sorted)(d) == t.evaluate(WithDigest(t.h, sorted, d)[0].bundle)
  {
    assert Canonical(t.h, sorted, d) == WithDigest(t.h, sorted, d)[0].bundle;
  }

  lemma CreditIs(t: Setting, cache: Cache, s: Submission)
    ensures Credit(t, cache, s)
         == Observe(t, cache(StrategyDigest(t.h, s.bundle)), StrategyDigest(t.h, s.bundle), s.minerId)
  {
    hide StrategyDigest, Observe;
  }

  /** The inner loop: every member gets the observation of the one evaluation. */
  method CreditMembers(t: Setting, ghost cache: Cache, members: seq<Submission>, digest: string, evaluation: Evaluation)
    returns (observations: seq<Observation>)
    requires evaluation == cache(digest)
    requires forall s :: s in members ==> StrategyDigest(t.h, s.bundle) == digest
    ensures observations == Credits(t, cache, members)
  {
    hide *;
    observations := [];
    NobodyCredited(t, cache);
    assert members[..0] == [];
    for i := 0 to |members|
      invariant observations == Credits(t, cache, members[..i])
    {
      assert members[i] in members;
      CreditIs(t, cache, members[i]);
      CreditsSnoc(t, cache, members, i);
      observations := observations + [Observe(t, evaluation, digest, members[i].minerId)];
    }
    assert members[..|members|] == members;
  }

  /** What the loop over the strategies has done after `i` of them. */
  ghost predicate Credited(
      t: Setting, cache: Cache, subs: seq<Submission>, digests: seq<string>, i: nat,
      evaluations: seq<(string, Evaluation)>, observations: seq<Observation>)
    requires i <= |digests|
  {
    && |evaluations| == i
    && (forall j :: 0 <= j < i ==> evaluations[j] == (digests[j], cache(digests[j])))
    && (forall j :: 0 <= j < i ==> cache(digests[j]).strategyDigest == digests[j])
    && observations == ByGroup(t, cache, subs, digests[..i])
  }

  lemma CreditedStart(t: Setting, cache: Cache, subs: seq<Submission>, digests: seq<string>)
    ensures Credited(t, cache, subs, digests, 0, [], [])
  {
  }

  lemma CreditedNext(
      t: Setting, cache: Cache, subs: seq<Submission>, digests: seq<string>, i: nat,
      evaluations: seq<(string, Evaluation)>, observations: seq<Observation>, e: Evaluation)
    requires i < |digests| && Credited(t, cache, subs, digests, i, evaluations, observations)
    requires e == cache(digests[i]) && e.strategyDigest == digests[i]
    ensures Credited(t, cache, subs, digests, i + 1, evaluations + [(digests[i], e)],
                     observations + Credits(t, cache, WithDigest(t.h, subs, digests[i])))
  {
    hide StrategyDigest, Credits, WithDigest;
    var more := digests[..i + 1];
    assert more[..|more| - 1] == digests[..i] && more[|more| - 1] == digests[i];
  }

  /** The loop over the strategies; it stops at an evaluation with a foreign label. */
  method CreditGroups(
      t: Setting, ghost cache: Cache, subs: seq<Submission>, groups: map<string, seq<Submission>>,
      digests: seq<string>)
    returns (labelled: bool, evaluations: seq<(string, Evaluation)>, observations: seq<Observation>)
    requires cache == CacheOf(t, subs)
    requires forall d :: d in digests ==> d in groups && groups[d] == WithDigest(t.h, subs, d) != []
    ensures labelled ==> Credited(t, cache, subs, digests, |digests|, evaluations, observations)
    ensures !labelled ==> exists d :: d in digests && cache(d).strategyDigest != d
  {
    hide *;
    evaluations := [];
    observations := [];
    CreditedStart(t, cache, subs, digests);
    for i := 0 to |digests|
      invariant Credited(t, cache, subs, digests, i, evaluations, observations)
    {
      var d := digests[i];
      assert d in digests;
      var members := groups[d];
      CacheOfGroup(t, subs, d);
      var evaluation := t.evaluate(members[0].bundle);
      if evaluation.strategyDigest != d { return false, [], []; }
      var credited := CreditMembers(t, cache, members, d, evaluation);
      CreditedNext(t, cache, subs, digests, i, evaluations, observations, evaluation);
      evaluations := evaluations + [(d, evaluation)];
      observations := observations + credited;
    }
    labelled := true;
  }

  // ----- the cohort ----------------------------------------------------------

  ghost predicate DistinctMiners(subs: seq<Submission>) {
    forall i, j :: 0 <= i < j < |subs| ==> subs[i].minerId != subs[j].minerId
  }

  /** `sorted(submissions.items())`. */
  function SortedSubmissions(subs: seq<Submission>): seq<Submission> {
    Sorting.SortBy(MinerKey(), subs)
  }

  /** The refusals of the call, in the order of their checks. */
  function Refusal(t: Setting, subs: seq<Submission>): Option<CohortError> {
    if subs == [] then Some(NoSubmissions)
    else if t.maxUniqueStrategies < 1 then Some(NoBudget)
    else if exists s :: s in subs && s.minerId == [] then Some(EmptyMinerId)
    else if FirstFault(t, SortedSubmissions(subs)).Some? then FirstFault(t, SortedSubmissions(subs))
    else if |DigestsOf(t.h, subs)| > t.maxUniqueStrategies then Some(BudgetExceeded)
    else if exists d :: d in DigestsOf(t.h, subs) && CacheOf(t, SortedSubmissions(subs))(d).strategyDigest != d
      then Some(DigestMismatch)
    else None
  }

  lemma SortedMembers(subs: seq<Submission>)
    ensures forall s :: s in SortedSubmissions(subs) <==> s in subs
    ensures multiset(SortedSubmissions(subs)) == multiset(subs)
    ensures |SortedSubmissions(subs)| == |subs|
  {
    Sorting.SortMultiset(MinerKey(), subs);
    forall s ensures s in SortedSubmissions(subs) <==> s in subs {
      assert s in SortedSubmissions(subs) <==> s in multiset(SortedSubmissions(subs));
      assert s in subs <==> s in multiset(subs);
    }
  }

  lemma OrderIsDigests(h: Digester, subs: seq<Submission>, groups: map<string, seq<Submission>>, order: seq<string>)
    requires ByDigest(h, SortedSubmissions(subs), groups, order)
    ensures (set d | d in order) == DigestsOf(h, subs) && |order| == |DigestsOf(h, subs)|
  {
    hide StrategyDigest;
    SortedMembers(subs);
    forall d ensures d in order <==> d in DigestsOf(h, subs) {
      if d in order {
        var s := WithDigest(h, SortedSubmissions(subs), d)[0];
        assert s in WithDigest(h, SortedSubmissions(subs), d);
      }
      if d in DigestsOf(h, subs) {
        var s :| s in subs && StrategyDigest(h, s.bundle) == d;
        assert s in WithDigest(h, SortedSubmissions(subs), d);
      }
    }
    DistinctCardinality(order);
  }

  lemma SortedDigests(order: seq<string>)
    requires Distinct(order)
    ensures var digests := Sorting.SortBy(DigestKey(), order);
            Distinct(digests) && |digests| == |order| && forall d :: d in digests <==> d in order
  {
    var digests := Sorting.SortBy(DigestKey(), order);
    Sorting.SortMultiset(DigestKey(), order);
    forall d ensures d in digests <==> d in order {
      assert d in digests <==> d in multiset(digests);
      assert d in order <==> d in multiset(order);
    }
    forall i, j | 0 <= i < j < |digests| ensures digests[i] != digests[j] {
      if digests[i] == digests[j] {
        TwiceInMultiset(digests, i, j);
        OnceInMultiset(order, digests[i]);
      }
    }
  }

  lemma TwiceInMultiset<T>(s: seq<T>, i: nat, j: nat)
    requires i < j < |s| && s[i] == s[j]
    ensures multiset(s)[s[i]] >= 2
  {
    assert s == (s[..j] + [s[j]]) + s[j + 1..];
    assert s[i] == s[..j][i];
    assert s[i] in multiset(s[..j]);
    assert multiset(s) == multiset(s[..j]) + multiset{s[j]} + multiset(s[j + 1..]);
  }

  lemma {:induction false} OnceInMultiset<T>(s: seq<T>, x: T)
    requires forall i, j :: 0 <= i < j < |s| ==> s[i] != s[j]
    ensures multiset(s)[x] <= 1
  {
    if s != [] {
      var rest := s[1..];
      assert forall k :: 0 <= k < |rest| ==> rest[k] == s[k + 1];
      OnceInMultiset(rest, x);
      assert s == [s[0]] + rest;
      assert s[0] !in rest;
      assert s[0] !in multiset(rest);
    }
  }

  /** Sorted by miner, the group-wise observations are everybody's credits, in miner order. */
  lemma SortedObservations(t: Setting, cache: Cache, subs: seq<Submission>, observations: seq<Observation>)
    requires DistinctMiners(subs)
    requires multiset(observations) == multiset(Credits(t, cache, SortedSubmissions(subs)))
    ensures Sorting.SortBy(ObservationKey(), observations) == Credits(t, cache, SortedSubmissions(subs))
  {
    var sorted := SortedSubmissions(subs);
    var each := Credits(t, cache, sorted);
    var got := Sorting.SortBy(ObservationKey(), observations);
    Sorting.SortSorted(ObservationKey(), observations);
    Sorting.SortMultiset(ObservationKey(), observations);
    EachSorted(t, cache, subs);
    hide *;
    Sorting.SortedUnique(ObservationKey(), each, got);
  }

  lemma MinersDiffer(subs: seq<Submission>, a: Submission, b: Submission)
    requires DistinctMiners(subs) && a in subs && b in subs && a.minerId == b.minerId
    ensures a == b
  {
    var i :| 0 <= i < |subs| && subs[i] == a;
    var j :| 0 <= j < |subs| && subs[j] == b;
    assert !(i < j) && !(j < i);
  }

  lemma EachSorted(t: Setting, cache: Cache, subs: seq<Submission>)
    requires DistinctMiners(subs)
    ensures var each := Credits(t, cache, SortedSubmissions(subs));
            Sorting.Sorted(ObservationKey(), each) && Sorting.SeparatesIn(ObservationKey(), each)
  {
    var sorted := SortedSubmissions(subs);
    var each := Credits(t, cache, sorted);
    Sorting.SortSorted(MinerKey(), subs);
    SortedMembers(subs);
    hide StrategyDigest, EvidenceDigest, Sorting.SortBy;
    forall i, j | 0 <= i < j < |each|
      ensures Text.LessEq(ObservationKey()(each[i]), ObservationKey()(each[j]))
    {
      assert Text.LessEq(MinerKey()(sorted[i]), MinerKey()(sorted[j]));
    }
    forall a, b | a in each && b in each && ObservationKey()(a) == ObservationKey()(b) ensures a == b {
      var i :| 0 <= i < |each| && each[i] == a;
      var j :| 0 <= j < |each| && each[j] == b;
      assert sorted[i] in subs && sorted[j] in subs;
      MinersDiffer(subs, sorted[i], sorted[j]);
    }
  }

  lemma CreditedIsOnce(
      t: Setting, cache: Cache, subs: seq<Submission>, digests: seq<string>,
      evaluations: seq<(string, Evaluation)>, observations: seq<Observation>)
    requires Credited(t, cache, SortedSubmissions(subs), digests, |digests|, evaluations, observations)
    requires Distinct(digests) && forall d :: d in digests <==> d in DigestsOf(t.h, subs)
    ensures EvaluatedOnce(t, cache, subs, evaluations) && |evaluations| == |digests|
    ensures forall d :: d in DigestsOf(t.h, subs) ==> cache(d).strategyDigest == d
  {
    hide StrategyDigest, ByGroup, SortedSubmissions, DigestsOf;
    forall d | d in digests ensures cache(d).strategyDigest == d {
      var i :| 0 <= i < |digests| && digests[i] == d;
    }
    forall d ensures (exists i :: 0 <= i < |evaluations| && evaluations[i].0 == d) <==> d in digests {
      if d in digests {
        var i :| 0 <= i < |digests| && digests[i] == d;
        assert evaluations[i].0 == d;
      }
    }
  }

  lemma CreditedObservations(
      t: Setting, cache: Cache, subs: seq<Submission>, digests: seq<string>,
      evaluations: seq<(string, Evaluation)>, observations: seq<Observation>)
    requires Credited(t, cache, SortedSubmissions(subs), digests, |digests|, evaluations, observations)
    requires DistinctMiners(subs) && Distinct(digests) && forall d :: d in digests <==> d in DigestsOf(t.h, subs)
    ensures Sorting.SortBy(ObservationKey(), observations) == Credits(t, cache, SortedSubmissions(subs))
  {
    var sorted := SortedSubmissions(subs);
    assert digests[..|digests|] == digests;
    assert observations == ByGroup(t, cache, sorted, digests);
    SortedMembers(subs);
    forall s | s in sorted ensures StrategyDigest(t.h, s.bundle) in digests {
      assert s in subs;
    }
    hide *;
    ByGroupPermutes(t, cache, sorted, digests);
    AmongAll(t.h, sorted, digests);
    SortedObservations(t, cache, subs, observations);
  }

  /** The cohort's observations: everybody's credit from one evaluation per strategy. */
  function CohortObservations(t: Setting, subs: seq<Submission>): seq<Observation> {
    Credits(t, CacheOf(t, SortedSubmissions(subs)), SortedSubmissions(subs))
  }

  /** `evaluate_task_cohort`, for any evaluator: one observation per miner, in miner order
      and from the one evaluation of its strategy; one evaluation per strategy; hits and
      evaluations adding up to the submissions. */
  method EvaluateTaskCohort(t: Setting, subs: seq<Submission>) returns (r: Wrappers.Result<Result, CohortError>)
    requires DistinctMiners(subs)
    ensures r.Err? <==> Refusal(t, subs).Some?
    ensures r.Err? ==> r.error == Refusal(t, subs).value
    ensures r.Ok? ==>
              && r.value.observations == CohortObservations(t, subs)
              && |r.value.observations| == |subs|
              && r.value.uniqueStrategies == |DigestsOf(t.h, subs)| == |r.value.evaluations|
              && r.value.uniqueStrategies + r.value.cacheHits == |subs|
              && EvaluatedOnce(t, CacheOf(t, SortedSubmissions(subs)), subs, r.value.evaluations)
  {
    hide FirstFault, DigestsOf, ByDigest, Credited, EvaluatedOnce, SortedSubmissions, CacheOf,
         DistinctMiners, StrategyDigest, Credits;
    if subs == [] { return Err(NoSubmissions); }
    if t.maxUniqueStrategies < 1 { return Err(NoBudget); }
    if exists s :: s in subs && s.minerId == [] { return Err(EmptyMinerId); }
    var sorted := SortedSubmissions(subs);
    var fault, groups, order := GroupByStrategy(t, sorted);
    if fault.Some? { return Err(fault.value); }
    OrderIsDigests(t.h, subs, groups, order);
    if |order| > t.maxUniqueStrategies { return Err(BudgetExceeded); }
    var value := CreditCohort(t, subs, groups, order);
    if value.None? { return Err(DigestMismatch); }
    SortedMembers(subs);
    r := Ok(value.value);
  }

  method CreditCohort(t: Setting, subs: seq<Submission>, groups: map<string, seq<Submission>>, order: seq<string>)
    returns (r: Option<Result>)
    requires DistinctMiners(subs)
    requires ByDigest(t.h, SortedSubmissions(subs), groups, order)
    requires (set d | d in order) == DigestsOf(t.h, subs) && |order| == |DigestsOf(t.h, subs)|
    ensures r.None? <==>
              exists d :: d in DigestsOf(t.h, subs) && CacheOf(t, SortedSubmissions(subs))(d).strategyDigest != d
    ensures r.Some? ==>
              && r.value.observations == Credits(t, CacheOf(t, SortedSubmissions(subs)), SortedSubmissions(subs))
              && r.value.uniqueStrategies == |DigestsOf(t.h, subs)| == |r.value.evaluations|
              && r.value.uniqueStrategies + r.value.cacheHits == |subs|
              && EvaluatedOnce(t, CacheOf(t, SortedSubmissions(subs)), subs, r.value.evaluations)
  {
    var sorted := SortedSubmissions(subs);
    assert Distinct(order);
    assert forall d :: d in order ==> d in groups && groups[d] == WithDigest(t.h, sorted, d) != [];
    assert forall d :: d in order <==> d in (set x | x in order);
    hide *;
    SortedDigests(order);
    var digests := Sorting.SortBy(DigestKey(), order);
    ghost var cache := CacheOf(t, sorted);
    var labelled, evaluations, observations := CreditGroups(t, cache, sorted, groups, digests);
    if !labelled { return None; }
    CreditedIsOnce(t, cache, subs, digests, evaluations, observations);
    CreditedObservations(t, cache, subs, digests, evaluations, observations);
    FewerDigests(t.h, subs);
    r := Some(Evaluated(|order|, |subs| - |order|, evaluations, Sorting.SortBy(ObservationKey(), observations)));
  }

  lemma {:induction false} FewerDigests(h: Digester, subs: seq<Submission>)
    ensures |DigestsOf(h, subs)| <= |subs|
  {
    hide StrategyDigest;
    if subs == [] {
      assert DigestsOf(h, subs) == {};
    } else {
      FewerDigests(h, subs[1..]);
      assert subs == [subs[0]] + subs[1..];
      assert DigestsOf(h, subs) == DigestsOf(h, subs[1..]) + {StrategyDigest(h, subs[0].bundle)};
    }
  }

  // ----- into the deduplicator -----------------------------------------------

  lemma CreditMeans(t: Setting, cache: Cache, subs: seq<Submission>, o: Observation)
    requires o in Credits(t, cache, subs)
    ensures exists s :: s in subs && o == Credit(t, cache, s)
  {
    hide Credit;
    var i :| 0 <= i < |subs| && Credits(t, cache, subs)[i] == o;
    assert subs[i] in subs;
  }

  lemma SameStrategySameEvidence(t: Setting, cache: Cache, a: Submission, b: Submission)
    requires Credit(t, cache, a).strategyDigest == Credit(t, cache, b).strategyDigest
    ensures Credit(t, cache, a).evidenceDigest == Credit(t, cache, b).evidenceDigest
    ensures Credit(t, cache, a).reward == Credit(t, cache, b).reward
  {
    hide StrategyDigest, EvidenceDigest;
  }

  /** Whatever the evaluations, observations credited from one cache pass the
      deduplicator's consistency checks. */
  lemma CohortPassesDeduplication(t: Setting, cache: Cache, subs: seq<Submission>)
    requires DistinctMiners(subs)
    ensures Deduplicate(Credits(t, cache, SortedSubmissions(subs))).Ok?
  {
    var obs := Credits(t, cache, SortedSubmissions(subs));
    CreditsConsistent(t, cache, SortedSubmissions(subs));
    hide SortedSubmissions, Credits, Complaint, DistinctMiners;
    forall o | o in obs && Passing(o) ensures Complaint(Group(obs, KeyOf(o))) == None {
      GroupAccepted(t, cache, subs, KeyOf(o));
    }
    DeduplicateAccepts(obs);
  }

  lemma CreditsConsistent(t: Setting, cache: Cache, subs: seq<Submission>)
    ensures ConsistentMetadata(Credits(t, cache, subs))
  {
    hide StrategyDigest, EvidenceDigest;
    var obs := Credits(t, cache, subs);
    forall i, j | 0 <= i < j < |obs| ensures MetadataOf(obs[i]) == MetadataOf(obs[j]) {
      assert obs[i] == Credit(t, cache, subs[i]) && obs[j] == Credit(t, cache, subs[j]);
    }
  }

  lemma GroupAccepted(t: Setting, cache: Cache, subs: seq<Submission>, key: CacheKey)
    requires DistinctMiners(subs)
    ensures Complaint(Group(Credits(t, cache, SortedSubmissions(subs)), key)) == None
  {
    hide *;
    var sorted := SortedSubmissions(subs);
    var obs := Credits(t, cache, sorted);
    DistinctObservations(t, cache, subs);
    GroupDistinct(obs, key);
    forall a, b | a in Group(obs, key) && b in Group(obs, key)
      ensures a.evidenceDigest == b.evidenceDigest && a.reward == b.reward
    {
      SameGroup(obs, key, a, b);
      CreditMeans(t, cache, sorted, a);
      CreditMeans(t, cache, sorted, b);
      var x :| x in sorted && a == Credit(t, cache, x);
      var y :| y in sorted && b == Credit(t, cache, y);
      SameStrategySameEvidence(t, cache, x, y);
    }
    NoComplaint(Group(obs, key));
  }

  lemma SameGroup(obs: seq<Observation>, key: CacheKey, a: Observation, b: Observation)
    requires a in Group(obs, key) && b in Group(obs, key)
    ensures a in obs && b in obs && a.strategyDigest == b.strategyDigest
  {
    hide Group;
  }

  lemma NoComplaint(group: seq<Observation>)
    requires Distinct(Miners(group))
    requires forall a, b :: a in group && b in group ==> a.evidenceDigest == b.evidenceDigest && a.reward == b.reward
    ensures Complaint(group) == None
  {
  }

  /** No two observations carry the same miner. */
  lemma DistinctObservations(t: Setting, cache: Cache, subs: seq<Submission>)
    requires DistinctMiners(subs)
    ensures Distinct(Miners(Credits(t, cache, SortedSubmissions(subs))))
  {
    var sorted := SortedSubmissions(subs);
    var obs := Credits(t, cache, sorted);
    DistinctAfterSort(subs);
    hide StrategyDigest, EvidenceDigest, SortedSubmissions;
    forall i, j | 0 <= i < j < |obs| ensures Miners(obs)[i] != Miners(obs)[j] {
      assert obs[i] == Credit(t, cache, sorted[i]) && obs[j] == Credit(t, cache, sorted[j]);
    }
  }

  lemma DistinctAfterSort(subs: seq<Submission>)
    requires DistinctMiners(subs)
    ensures DistinctMiners(SortedSubmissions(subs))
  {
    SortedMembers(subs);
    var sorted := SortedSubmissions(subs);
    hide SortedSubmissions;
    forall i, j | 0 <= i < j < |sorted| ensures sorted[i].minerId != sorted[j].minerId {
      if sorted[i].minerId == sorted[j].minerId {
        assert sorted[i] in subs && sorted[j] in subs;
        MinersDiffer(subs, sorted[i], sorted[j]);
        OnceInMultiset(subs, sorted[i]);
        TwiceInMultiset(sorted, i, j);
      }
    }
  }

  lemma {:induction false} GroupDistinct(obs: seq<Observation>, key: CacheKey)
    requires Distinct(Miners(obs))
    ensures Distinct(Miners(Group(obs, key)))
  {
    if obs != [] {
      var rest := obs[1..];
      assert forall i :: 0 <= i < |rest| ==> Miners(rest)[i] == Miners(obs)[i + 1];
      GroupDistinct(rest, key);
      var g := Group(rest, key);
      forall i | 0 <= i < |g| ensures Miners(g)[i] != obs[0].minerId {
        assert g[i] in g;
        var k :| 0 <= k < |rest| && rest[k] == g[i];
        assert Miners(obs)[k + 1] != Miners(obs)[0];
      }
      if InGroup(obs[0], key) {
        var m := [obs[0]] + g;
        assert forall i :: 0 < i < |m| ==> Miners(m)[i] == Miners(g)[i - 1];
      }
    }
  }

  /** After deduplication everybody who submitted a passing strategy carries together
      exactly the reward of its one evaluation. */
  lemma CohortRewardConserved(t: Setting, cache: Cache, subs: seq<Submission>, s: Submission)
    requires DistinctMiners(subs) && s in subs && Passing(Credit(t, cache, s))
    ensures var obs := Credits(t, cache, SortedSubmissions(subs));
            && Deduplicate(obs).Ok?
            && GroupReward(Deduplicate(obs).value, KeyOf(Credit(t, cache, s)))
               == cache(StrategyDigest(t.h, s.bundle)).reward
  {
    hide *;
    var sorted := SortedSubmissions(subs);
    var obs, key := Credits(t, cache, sorted), KeyOf(Credit(t, cache, s));
    CohortPassesDeduplication(t, cache, subs);
    SortedMembers(subs);
    CreditListed(t, cache, sorted, s);
    FirstOfGroup(obs, Credit(t, cache, s));
    var first := Group(obs, key)[0];
    CreditMeans(t, cache, sorted, first);
    var x :| x in sorted && first == Credit(t, cache, x);
    SameStrategySameEvidence(t, cache, x, s);
    CreditReward(t, cache, s);
    DeduplicationConserves(obs, key);
  }

  lemma CreditListed(t: Setting, cache: Cache, subs: seq<Submission>, s: Submission)
    requires s in subs
    ensures Credit(t, cache, s) in Credits(t, cache, subs)
  {
    hide Credit;
    var i :| 0 <= i < |subs| && subs[i] == s;
    assert Credits(t, cache, subs)[i] == Credit(t, cache, s);
  }

  lemma FirstOfGroup(obs: seq<Observation>, o: Observation)
    requires o in obs && Passing(o)
    ensures Group(obs, KeyOf(o)) != []
    ensures var first := Group(obs, KeyOf(o))[0]; first in obs && first.strategyDigest == o.strategyDigest
  {
    hide Group;
    assert o in Group(obs, KeyOf(o));
    assert Group(obs, KeyOf(o))[0] in Group(obs, KeyOf(o));
  }

  lemma CreditReward(t: Setting, cache: Cache, s: Submission)
    ensures Credit(t, cache, s).reward == cache(StrategyDigest(t.h, s.bundle)).reward
  {
    hide StrategyDigest, EvidenceDigest;
  }
}
