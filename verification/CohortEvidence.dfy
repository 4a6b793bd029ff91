/** What the evaluate-once cache may change for a miner. Query plans carry the names of the
    candidate's indexes, a name hashes the index with its atoms in submitted order
    (planrace/models_v2.py:276-282), and the evidence digest keeps plans and names
    (planrace/evaluation_v2.py:444-470) while the strategy digest sorts the atoms. */
module CohortEvidence {
  import opened Wrappers
  import opened Json
  import opened Hashing
  import opened Indexes
  import opened Commitment
  import opened Deduplication
  import opened Cohort
  import IndexSql
  import Responses
  import OracleLaws

  // ----- what the evidence digest binds --------------------------------------

  /** Equal but for artifact identifiers. */
  ghost predicate SameOutcome(a: Evaluation, b: Evaluation) {
    && a.(artifactDigest := b.artifactDigest, fixtures := b.fixtures) == b
    && SameFixtures(a.fixtures, b.fixtures)
  }

  ghost predicate SameFixtures(a: seq<FixtureOutcome>, b: seq<FixtureOutcome>) {
    |a| == |b| && forall i :: 0 <= i < |a| ==> a[i].(artifactDigest := b[i].artifactDigest) == b[i]
  }

  lemma ResultIff(a: FixtureOutcome, b: FixtureOutcome)
    ensures ResultJson(a) == ResultJson(b) <==>
            a.candidatePlan == b.candidatePlan && a.measured == b.measured && a.usedIndexNames == b.usedIndexNames
  {
    hide Texts;
    var u, v := ResultJson(a).fields, ResultJson(b).fields;
    if u == v {
      assert u[0] == v[0] && u[1] == v[1] && u[2] == v[2];
      TextsInjective(a.candidatePlan, b.candidatePlan);
      TextsInjective(a.usedIndexNames, b.usedIndexNames);
    }
  }

  lemma OutcomeIff(a: FixtureOutcome, b: FixtureOutcome)
    ensures OutcomeJson(a) == OutcomeJson(b) <==> a.(artifactDigest := b.artifactDigest) == b
  {
    hide ResultJson;
    ResultIff(a, b);
    var u, v := OutcomeJson(a).fields, OutcomeJson(b).fields;
    if u == v { assert u[0] == v[0] && u[1] == v[1] && u[2] == v[2]; }
  }

  lemma OutcomesIff(a: seq<FixtureOutcome>, b: seq<FixtureOutcome>)
    ensures OutcomesJson(a) == OutcomesJson(b) <==> SameFixtures(a, b)
  {
    hide OutcomeJson;
    var f := (o: FixtureOutcome) => OutcomeJson(o);
    var x, y := Mapped(f, a), Mapped(f, b);
    assert OutcomesJson(a) == JArray(x) && OutcomesJson(b) == JArray(y);
    assert |x| == |a| && |y| == |b|;
    forall i | 0 <= i < |a| && i < |b|
      ensures x[i] == y[i] <==> a[i].(artifactDigest := b[i].artifactDigest) == b[i]
    {
      assert x[i] == OutcomeJson(a[i]) && y[i] == OutcomeJson(b[i]);
      OutcomeIff(a[i], b[i]);
    }
    hide Mapped;
    if SameFixtures(a, b) { assert forall i :: 0 <= i < |x| ==> x[i] == y[i]; }
  }

  lemma EvidenceFields(numberText: real -> string, a: Evaluation, b: Evaluation)
    requires EvidenceJson(numberText, a) == EvidenceJson(numberText, b)
    ensures a.(artifactDigest := b.artifactDigest, fixtures := b.fixtures, reward := b.reward) == b
    ensures OutcomesJson(a.fixtures) == OutcomesJson(b.fixtures) && numberText(a.reward) == numberText(b.reward)
  {
    hide OutcomesJson;
    var x, y := EvidenceJson(numberText, a).fields, EvidenceJson(numberText, b).fields;
    assert x[0] == y[0] && x[1] == y[1] && x[2] == y[2] && x[3] == y[3] && x[4] == y[4] && x[5] == y[5];
    assert x[6] == y[6] && x[7] == y[7] && x[8] == y[8] && x[9] == y[9] && x[10] == y[10];
  }

  /** The evidence digest forgets artifact identifiers, and, when numbers have distinct
      texts, nothing else. */
  lemma EvidenceDigestIff(t: Setting, a: Evaluation, b: Evaluation)
    requires Ideal(t.h) && (t.numberText(a.reward) == t.numberText(b.reward) ==> a.reward == b.reward)
    ensures EvidenceDigest(t, a) == EvidenceDigest(t, b) <==> SameOutcome(a, b)
  {
    OutcomesIff(a.fixtures, b.fixtures);
    var p, q := EvidenceJson(t.numberText, a), EvidenceJson(t.numberText, b);
    if SameOutcome(a, b) {
      hide Ideal, OutcomesJson;
      assert p == q;
    }
    if EvidenceDigest(t, a) == EvidenceDigest(t, b) {
      assert t.h(EVIDENCE_DOMAIN, p) == t.h(EVIDENCE_DOMAIN, q);
      hide Ideal, OutcomesJson;
      SameDigest(t.h, EVIDENCE_DOMAIN, p, EVIDENCE_DOMAIN, q);
      EvidenceFields(t.numberText, a, b);
    }
  }

  // ----- outcomes up to index names ------------------------------------------

  /** A plan detail with holes for the names of the candidate's indexes. */
  datatype PlanPart = Verbatim(text: string) | IndexAt(position: nat)

  datatype FixtureTemplate = FixtureTemplate(
    fixtureId: string, plan: seq<seq<PlanPart>>, measured: Json, used: seq<nat>, score: Json)

  /** An evaluation that does not say what the candidate's indexes are called. */
  datatype Template = Template(
    taskId: string,
    taskCommitment: string,
    familyId: string,
    exactPassed: bool,
    compliant: bool,
    eligible: bool,
    reward: real,
    failureCode: Option<string>,
    fixtures: seq<FixtureTemplate>)

  type Names = nat -> string

  /** The validator-owned names of a bundle's indexes. */
  function NamesOf(h: Digester, indexes: seq<IndexSpec>): Names {
    (k: nat) => if k < |indexes| then IndexSql.IndexName(h, indexes[k]) else ""
  }

  /** `_VALIDATOR_INDEX_NAME.sub`. */
  function Masks(): Names {
    (k: nat) => "planrace_<candidate>"
  }

  function Detail(names: Names, parts: seq<PlanPart>): string {
    if parts == [] then ""
    else (match parts[0] case Verbatim(s) => s case IndexAt(k) => names(k)) + Detail(names, parts[1..])
  }

  function Details(names: Names, plan: seq<seq<PlanPart>>): (r: seq<string>)
    ensures |r| == |plan| && forall i :: 0 <= i < |r| ==> r[i] == Detail(names, plan[i])
  {
    if plan == [] then [] else [Detail(names, plan[0])] + Details(names, plan[1..])
  }

  function Named(names: Names, used: seq<nat>): (r: seq<string>)
    ensures |r| == |used| && forall i :: 0 <= i < |r| ==> r[i] == names(used[i])
  {
    if used == [] then [] else [names(used[0])] + Named(names, used[1..])
  }

  function Outcome(names: Names, artifact: string, f: FixtureTemplate): FixtureOutcome {
    FixtureOutcome(f.fixtureId, artifact, Details(names, f.plan), f.measured, Named(names, f.used), f.score)
  }

  function Outcomes(names: Names, artifact: string, fixtures: seq<FixtureTemplate>): (r: seq<FixtureOutcome>)
    ensures |r| == |fixtures| && forall i :: 0 <= i < |r| ==> r[i] == Outcome(names, artifact, fixtures[i])
  {
    if fixtures == [] then [] else [Outcome(names, artifact, fixtures[0])] + Outcomes(names, artifact, fixtures[1..])
  }

  function PlanJson(f: FixtureTemplate): Json {
    JObject([
      Field("candidate_plan", Texts(Details(Masks(), f.plan))),
      Field("fixture_id", JString(f.fixtureId)),
      Field("used_index_count", JInt(|f.used|))])
  }

  /** `holdout_behavior_digest`: the plans with every name masked. */
  function BehaviorDigest(h: Digester, fixtures: seq<FixtureTemplate>): string {
    h("planrace/2:holdout-plan-behavior",
      JObject([Field("plans", JArray(Mapped((f: FixtureTemplate) => PlanJson(f), fixtures)))]))
  }

  /** The evaluation of a bundle, its names filled in. */
  function Rendered(h: Digester, b: Bundle, x: Template): Evaluation {
    var artifact := Responses.BundleDigest(h, b);
    Evaluation(
      x.taskId, x.taskCommitment, artifact, StrategyDigest(h, b), BehaviorDigest(h, x.fixtures), x.familyId,
      x.exactPassed, x.compliant, x.eligible, x.reward, x.failureCode,
      Outcomes(NamesOf(h, b.indexes), artifact, x.fixtures))
  }

  /** The executable strategy determines the outcome, up to the names of the indexes. */
  ghost predicate UpToNames(t: Setting, template: Bundle -> Template) {
    && (forall a: Bundle, b: Bundle :: SameStrategy(a, b) ==> template(a) == template(b))
    && (forall b: Bundle :: t.evaluate(b) == Rendered(t.h, b, template(b)))
  }

  ghost predicate MentionsUsed(f: FixtureTemplate) {
    forall j, k :: 0 <= j < |f.plan| && 0 <= k < |f.plan[j]| && f.plan[j][k].IndexAt? ==>
      f.plan[j][k].position in f.used
  }

  /** Plans mention used indexes only: used are those whose name occurs in the plan. */
  ghost predicate Referenced(x: Template) {
    forall i :: 0 <= i < |x.fixtures| ==> MentionsUsed(x.fixtures[i])
  }

  /** The two bundles' names agree at every index that the plans use. */
  ghost predicate NamesAgree(m: Names, n: Names, x: Template) {
    forall i, k :: 0 <= i < |x.fixtures| && k in x.fixtures[i].used ==> m(k) == n(k)
  }

  /** What a miner would get if its own bundle were evaluated. */
  function Alone(t: Setting, s: Submission): Observation {
    Observe(t, t.evaluate(s.bundle), StrategyDigest(t.h, s.bundle), s.minerId)
  }

  lemma {:induction false} DetailAgrees(m: Names, n: Names, parts: seq<PlanPart>, used: seq<nat>)
    requires forall k :: k in used ==> m(k) == n(k)
    requires forall k :: 0 <= k < |parts| && parts[k].IndexAt? ==> parts[k].position in used
    ensures Detail(m, parts) == Detail(n, parts)
  {
    if parts != [] {
      assert forall k :: 0 <= k < |parts| - 1 ==> parts[1..][k] == parts[k + 1];
      DetailAgrees(m, n, parts[1..], used);
      assert parts[0].IndexAt? ==> parts[0].position in used;
    }
  }

  lemma OutcomeAgrees(m: Names, n: Names, a: string, b: string, f: FixtureTemplate)
    requires MentionsUsed(f)
    ensures Outcome(m, a, f).(artifactDigest := b) == Outcome(n, b, f) <==> forall k :: k in f.used ==> m(k) == n(k)
  {
    var x, y := Named(m, f.used), Named(n, f.used);
    if x == y {
      forall k | k in f.used ensures m(k) == n(k) {
        var i :| 0 <= i < |f.used| && f.used[i] == k;
        assert x[i] == m(k) && y[i] == n(k);
      }
    }
    if forall k :: k in f.used ==> m(k) == n(k) {
      assert x == y;
      var p, q := Details(m, f.plan), Details(n, f.plan);
      forall j | 0 <= j < |f.plan| ensures p[j] == q[j] {
        DetailAgrees(m, n, f.plan[j], f.used);
      }
      assert p == q;
    }
  }

  lemma OutcomesAgree(m: Names, n: Names, a: string, b: string, x: Template)
    requires Referenced(x)
    ensures SameFixtures(Outcomes(m, a, x.fixtures), Outcomes(n, b, x.fixtures)) <==> NamesAgree(m, n, x)
  {
    var u, v := Outcomes(m, a, x.fixtures), Outcomes(n, b, x.fixtures);
    hide Outcome;
    forall i | 0 <= i < |x.fixtures|
      ensures u[i].(artifactDigest := v[i].artifactDigest) == v[i] <==>
              forall k :: k in x.fixtures[i].used ==> m(k) == n(k)
    {
      var f := x.fixtures[i];
      assert u[i] == Outcome(m, a, f) && v[i] == Outcome(n, b, f);
      OutcomeArtifact(n, b, f);
      OutcomeAgrees(m, n, a, b, f);
    }
    hide Outcomes;
    if SameFixtures(u, v) {
      forall i, k | 0 <= i < |x.fixtures| && k in x.fixtures[i].used ensures m(k) == n(k) {
        assert u[i].(artifactDigest := v[i].artifactDigest) == v[i];
      }
    }
  }

  lemma OutcomeArtifact(n: Names, b: string, f: FixtureTemplate)
    ensures Outcome(n, b, f).artifactDigest == b
  {
  }

  lemma SharedTemplate(t: Setting, template: Bundle -> Template, a: Bundle, b: Bundle)
    requires Ideal(t.h) && UpToNames(t, template) && StrategyDigest(t.h, a) == StrategyDigest(t.h, b)
    ensures template(a) == template(b)
    ensures t.evaluate(a) == Rendered(t.h, a, template(a)) && t.evaluate(b) == Rendered(t.h, b, template(a))
  {
    hide StrategyDigest, Rendered, Ideal, SameStrategy;
    StrategyDigestIff(t.h, a, b);
    assert SameStrategy(a, b);
  }

  /** Under an ideal hash and an outcome determined up to names, the cached evaluation of a
      bundle with the same strategy digest gives a miner what its own evaluation would
      give, in everything but the evidence digest. */
  lemma CachedUpToEvidence(t: Setting, template: Bundle -> Template, canonical: Bundle, s: Submission)
    requires Ideal(t.h) && UpToNames(t, template)
    requires StrategyDigest(t.h, canonical) == StrategyDigest(t.h, s.bundle)
    ensures var cached := Observe(t, t.evaluate(canonical), StrategyDigest(t.h, canonical), s.minerId);
            cached.(evidenceDigest := Alone(t, s).evidenceDigest) == Alone(t, s)
  {
    SharedTemplate(t, template, canonical, s.bundle);
    hide StrategyDigest, Ideal, UpToNames, EvidenceDigest, BehaviorDigest, Outcomes, NamesOf, Responses.BundleDigest;
  }

  /** The evidence digest agrees too exactly when the names of the used indexes do. */
  lemma CachedEvidenceIff(t: Setting, template: Bundle -> Template, canonical: Bundle, s: Submission)
    requires Ideal(t.h) && UpToNames(t, template) && Referenced(template(canonical))
    requires StrategyDigest(t.h, canonical) == StrategyDigest(t.h, s.bundle)
    ensures EvidenceDigest(t, t.evaluate(canonical)) == EvidenceDigest(t, t.evaluate(s.bundle)) <==>
            NamesAgree(NamesOf(t.h, canonical.indexes), NamesOf(t.h, s.bundle.indexes), template(canonical))
  {
    var a, b, x := canonical, s.bundle, template(canonical);
    SharedTemplate(t, template, a, b);
    hide StrategyDigest, Ideal, UpToNames, EvidenceDigest, BehaviorDigest, Outcomes, NamesOf,
         Responses.BundleDigest, SameFixtures, Referenced;
    EvidenceDigestIff(t, t.evaluate(a), t.evaluate(b));
    OutcomesAgree(NamesOf(t.h, a.indexes), NamesOf(t.h, b.indexes),
                  Responses.BundleDigest(t.h, a), Responses.BundleDigest(t.h, b), x);
  }

  /** The cohort against everybody alone: each observation is what the miner's own
      evaluation would give, in everything but the evidence digest, and in that too
      exactly when its used indexes are called like those of the evaluated bundle. */
  lemma CohortUpToEvidence(t: Setting, template: Bundle -> Template, subs: seq<Submission>, i: nat)
    requires Ideal(t.h) && UpToNames(t, template) && i < |subs|
    ensures |CohortObservations(t, subs)| == |SortedSubmissions(subs)| == |subs|
    ensures var sorted, got := SortedSubmissions(subs), CohortObservations(t, subs)[i];
            var s := sorted[i];
            var canonical := Canonical(t.h, sorted, StrategyDigest(t.h, s.bundle));
            && got.(evidenceDigest := Alone(t, s).evidenceDigest) == Alone(t, s)
            && (Referenced(template(canonical)) ==>
                  (got == Alone(t, s) <==>
                     NamesAgree(NamesOf(t.h, canonical.indexes), NamesOf(t.h, s.bundle.indexes), template(canonical))))
  {
    SortedMembers(subs);
    var sorted := SortedSubmissions(subs);
    var cache, s := CacheOf(t, sorted), sorted[i];
    var d := StrategyDigest(t.h, s.bundle);
    var canonical := Canonical(t.h, sorted, d);
    CanonicalDigest(t.h, sorted, s);
    assert CohortObservations(t, subs)[i] == Credit(t, cache, s);
    CreditIs(t, cache, s);
    assert cache(d) == t.evaluate(canonical);
    hide *;
    CachedUpToEvidence(t, template, canonical, s);
    if Referenced(template(canonical)) {
      CachedEvidenceIff(t, template, canonical, s);
      EvidenceOf(t, t.evaluate(canonical), d, s.minerId);
      EvidenceOf(t, t.evaluate(s.bundle), d, s.minerId);
      AloneIs(t, s);
    }
  }

  lemma EvidenceOf(t: Setting, e: Evaluation, d: string, minerId: string)
    ensures Observe(t, e, d, minerId).evidenceDigest == EvidenceDigest(t, e)
  {
    hide EvidenceDigest;
  }

  lemma AloneIs(t: Setting, s: Submission)
    ensures Alone(t, s) == Observe(t, t.evaluate(s.bundle), StrategyDigest(t.h, s.bundle), s.minerId)
  {
  }

  lemma CanonicalDigest(h: Digester, subs: seq<Submission>, s: Submission)
    requires s in subs
    ensures StrategyDigest(h, Canonical(h, subs, StrategyDigest(h, s.bundle))) == StrategyDigest(h, s.bundle)
  {
    var d := StrategyDigest(h, s.bundle);
    hide StrategyDigest;
    assert s in WithDigest(h, subs, d);
    var first := WithDigest(h, subs, d)[0];
    assert first in WithDigest(h, subs, d);
  }

  // ----- permuted atoms ------------------------------------------------------

  const P := Atom("p", IsNull, NullLiteral)
  const Q := Atom("q", IsNull, NullLiteral)

  function PartialIndex(atoms: seq<Atom>): IndexSpec {
    IndexSpec("t", [IndexColumn("c", Asc)], [], false, Some(atoms))
  }

  function OneIndex(atoms: seq<Atom>): Bundle {
    Bundle("", "", [PartialIndex(atoms)], "s", "filter", "")
  }

  lemma PermutedStrategy()
    ensures SameStrategy(OneIndex([P, Q]), OneIndex([Q, P]))
    ensures IndexJson(PartialIndex([P, Q])) != IndexJson(PartialIndex([Q, P]))
  {
    assert multiset([P, Q]) == multiset([Q, P]);
    assert [P, Q][0] != [Q, P][0] by { assert "p"[0] != "q"[0]; }
    if IndexJson(PartialIndex([P, Q])) == IndexJson(PartialIndex([Q, P])) {
      IndexInjective(PartialIndex([P, Q]), PartialIndex([Q, P]));
    }
  }

  /** Two orders of the atoms: one strategy digest, two name digests under any ideal hash,
      and two evidence digests whenever the names differ and some plan uses the index. */
  lemma PermutedAtomsDiffer(t: Setting, template: Bundle -> Template, i: nat)
    requires Ideal(t.h) && UpToNames(t, template) && Referenced(template(OneIndex([P, Q])))
    requires i < |template(OneIndex([P, Q])).fixtures| && 0 in template(OneIndex([P, Q])).fixtures[i].used
    requires IndexSql.IndexName(t.h, PartialIndex([P, Q])) != IndexSql.IndexName(t.h, PartialIndex([Q, P]))
    ensures StrategyDigest(t.h, OneIndex([P, Q])) == StrategyDigest(t.h, OneIndex([Q, P]))
    ensures EvidenceDigest(t, t.evaluate(OneIndex([P, Q]))) != EvidenceDigest(t, t.evaluate(OneIndex([Q, P])))
  {
    var a, b := OneIndex([P, Q]), OneIndex([Q, P]);
    var m, n := NamesOf(t.h, a.indexes), NamesOf(t.h, b.indexes);
    assert m(0) != n(0);
    hide EvidenceDigest, UpToNames, Ideal, StrategyDigest, SameStrategy, IndexSql.IndexName;
    PermutedStrategy();
    StrategyDigestIff(t.h, a, b);
    CachedEvidenceIff(t, template, a, Submission("", b));
  }

  lemma NameDigestsDiffer(h: Digester)
    requires Ideal(h)
    ensures h(IndexSql.INDEX_NAME_DOMAIN, IndexJson(PartialIndex([P, Q])))
         != h(IndexSql.INDEX_NAME_DOMAIN, IndexJson(PartialIndex([Q, P])))
  {
    hide Ideal, IndexJson;
    PermutedStrategy();
    var u, v := IndexJson(PartialIndex([P, Q])), IndexJson(PartialIndex([Q, P]));
    if h(IndexSql.INDEX_NAME_DOMAIN, u) == h(IndexSql.INDEX_NAME_DOMAIN, v) {
      SameDigest(h, IndexSql.INDEX_NAME_DOMAIN, u, IndexSql.INDEX_NAME_DOMAIN, v);
    }
  }

  // ----- the premises hold somewhere -----------------------------------------

  /** An ideal digest that starts with whether the value is `j`. */
  function Marking(j: Json): Digester {
    (domain: string, v: Json) => (if v == j then "A" else "B") + (Print(v) + ("\n" + domain))
  }

  lemma MarkingIsIdeal(j: Json)
    ensures Ideal(Marking(j))
  {
    var h := Marking(j);
    hide Print;
    forall d: string, a: Json, e: string, b: Json | h(d, a) == h(e, b) && Domain(d) && Domain(e)
      ensures d == e && a == b
    {
      var x, y := Print(a) + ("\n" + d), Print(b) + ("\n" + e);
      SameLengthSplit(if a == j then "A" else "B", if b == j then "A" else "B", x, y);
      PrintOneLine(a);
      PrintOneLine(b);
      OracleLaws.LineSplit(Print(a), Print(b), d, e);
      PrintInjective(a, b);
    }
  }

  /** A plan that uses the first index, whatever it is called. */
  const SEARCH := Template(
    "", "", "", true, true, true, 1.0, None,
    [FixtureTemplate("f", [[Verbatim("SEARCH t USING INDEX "), IndexAt(0)]], JNull, [0], JNull)])

  const NO_TASK := PublicTask(
    "",
    TaskSpec("", "", "", "", "", "", "", TrainingFixture("", "", "", 0), [], PublishedStatistics(0, 0, 0, 0, []),
             ArtifactBudget(0, 0, 0, 0), ArtifactGrammar([], false, false), 0),
    0, "")

  function Searching(h: Digester): Setting {
    Setting(h, (x: real) => "", (b: Bundle) => Rendered(h, b, SEARCH),
            NO_TASK, 0, 1)
  }

  /** A setting in which outcomes are determined up to names and the cache still changes
      the evidence digest of a miner that lists the same atoms in another order. */
  lemma CacheChangesEvidence()
    ensures var t := Searching(Marking(IndexJson(PartialIndex([P, Q]))));
            && Ideal(t.h) && UpToNames(t, (b: Bundle) => SEARCH)
            && StrategyDigest(t.h, OneIndex([P, Q])) == StrategyDigest(t.h, OneIndex([Q, P]))
            && EvidenceDigest(t, t.evaluate(OneIndex([P, Q]))) != EvidenceDigest(t, t.evaluate(OneIndex([Q, P])))
  {
    var j := IndexJson(PartialIndex([P, Q]));
    var t := Searching(Marking(j));
    var template := (b: Bundle) => SEARCH;
    assert SEARCH.fixtures[0].plan[0][0].Verbatim?;
    assert Referenced(SEARCH) && |SEARCH.fixtures| == 1 && 0 in SEARCH.fixtures[0].used;
    assert t.h == Marking(j);
    assert UpToNames(t, template) by { hide Rendered, SameStrategy; }
    hide *;
    MarkingIsIdeal(j);
    MarkedNamesDiffer();
    PermutedStrategy();
    StrategyDigestIff(t.h, OneIndex([P, Q]), OneIndex([Q, P]));
    PermutedAtomsDiffer(t, template, 0);
  }

  /** The cache is what makes the checks pass: evaluated alone, two miners of that setting
      are refused by the deduplicator; credited from the cache, they are accepted. */
  lemma CacheMakesChecksPass()
    ensures var t := Searching(Marking(IndexJson(PartialIndex([P, Q]))));
            var subs := [Submission("a", OneIndex([P, Q])), Submission("b", OneIndex([Q, P]))];
            && Deduplicate([Alone(t, subs[0]), Alone(t, subs[1])]).Err?
            && Deduplicate(CohortObservations(t, subs)).Ok?
  {
    var t := Searching(Marking(IndexJson(PartialIndex([P, Q]))));
    var subs := [Submission("a", OneIndex([P, Q])), Submission("b", OneIndex([Q, P]))];
    assert DistinctMiners(subs) by { assert "a"[0] != "b"[0]; }
    CacheChangesEvidence();
    SearchPasses(t.h, subs[0]);
    SearchPasses(t.h, subs[1]);
    CohortPassesDeduplication(t, CacheOf(t, SortedSubmissions(subs)), subs);
    CohortIs(t, subs);
    EvidenceOf(t, t.evaluate(subs[0].bundle), StrategyDigest(t.h, subs[0].bundle), "a");
    EvidenceOf(t, t.evaluate(subs[1].bundle), StrategyDigest(t.h, subs[1].bundle), "b");
    hide *;
    AloneIs(t, subs[0]);
    AloneIs(t, subs[1]);
    OtherEvidenceRejected(Alone(t, subs[0]), Alone(t, subs[1]));
  }

  lemma SearchPasses(h: Digester, s: Submission)
    ensures var o := Alone(Searching(h), s);
            Passing(o) && o.strategyDigest == StrategyDigest(h, s.bundle) && o.taskCommitment == NO_TASK.commitment
  {
    hide StrategyDigest, EvidenceDigest, BehaviorDigest, Outcomes, Responses.BundleDigest;
  }

  lemma CohortIs(t: Setting, subs: seq<Submission>)
    ensures CohortObservations(t, subs) == Credits(t, CacheOf(t, SortedSubmissions(subs)), SortedSubmissions(subs))
  {
  }

  lemma OtherEvidenceRejected(a: Observation, b: Observation)
    requires Passing(a) && Passing(b) && KeyOf(a) == KeyOf(b) && a.evidenceDigest != b.evidenceDigest
    ensures Deduplicate([a, b]).Err?
  {
    DeduplicateAccepts([a, b]);
    hide Deduplicate;
    assert a in [a, b] && b in [a, b];
    var group := Group([a, b], KeyOf(a));
    assert a in group && b in group;
  }

  lemma MarkedNamesDiffer()
    ensures var h := Marking(IndexJson(PartialIndex([P, Q])));
            IndexSql.IndexName(h, PartialIndex([P, Q])) != IndexSql.IndexName(h, PartialIndex([Q, P]))
  {
    PermutedStrategy();
    var u, v := IndexJson(PartialIndex([P, Q])), IndexJson(PartialIndex([Q, P]));
    var h := Marking(u);
    var domain := IndexSql.INDEX_NAME_DOMAIN;
    var a, b := h(domain, u), h(domain, v);
    hide IndexJson, Print;
    assert a[0] == 'A' && b[0] == 'B';
    SuffixKeepsFirst(a);
    SuffixKeepsFirst(b);
    var x, y := IndexSql.IndexName(h, PartialIndex([P, Q])), IndexSql.IndexName(h, PartialIndex([Q, P]));
    assert x == "planrace_" + IndexSql.Suffix(a) && y == "planrace_" + IndexSql.Suffix(b);
    assert x[9] == 'A' && y[9] == 'B';
  }

  lemma SuffixKeepsFirst(digest: string)
    requires digest != [] && digest[0] != 's'
    ensures IndexSql.Suffix(digest) != [] && IndexSql.Suffix(digest)[0] == digest[0]
  {
    assert |digest| >= 7 ==> digest[..7][0] == digest[0];
  }
}
