/** Task commitments and their audit (planrace/taskgen_v2.py:86-272): a created task
    passes its audit, and one commitment admits at most one task with one reveal. */
module Commitment {
  import opened Wrappers
  import opened Json
  import opened Hashing
  import opened Merkle

  // ----- what a task publishes -----------------------------------------------

  datatype TrainingFixture = TrainingFixture(
    fixtureId: string, generatorSeedHex: string, contentDigest: string, rowCount: nat)

  datatype Endpoint = IntegerEnd(number: int) | TextEnd(text: string) | BooleanEnd(truth: bool)

  datatype ParameterRange = ParameterRange(
    name: string, valueType: string, minimum: Endpoint, maximum: Endpoint, distribution: string)

  datatype PublishedStatistics = PublishedStatistics(
    rowCountMin: nat, rowCountMax: nat, selectivityMinBps: nat, selectivityMaxBps: nat, dataProfiles: seq<string>)

  datatype ArtifactBudget = ArtifactBudget(
    maxIndexes: nat, maxColumnsPerIndex: nat, maxPredicatesPerIndex: nat, maxBundleBytes: nat)

  datatype ArtifactGrammar = ArtifactGrammar(
    allowedPredicateOperators: seq<string>, allowsUnique: bool, allowsPartial: bool)

  /** Everything a task fixes before its fixtures are drawn. */
  datatype TaskSpec = TaskSpec(
    validatorHotkey: string,
    engineImageDigest: string,
    generatorSourceDigest: string,
    benchmarkPolicyDigest: string,
    benchmarkFamilyId: string,
    schemaSql: string,
    referenceSql: string,
    trainingFixture: TrainingFixture,
    parameterRanges: seq<ParameterRange>,
    statistics: PublishedStatistics,
    budget: ArtifactBudget,
    grammar: ArtifactGrammar,
    deadlineUnixMs: int)

  datatype PublicTask = PublicTask(taskId: string, spec: TaskSpec, hiddenHoldoutCount: nat, commitment: string)

  datatype Reveal = Reveal(
    taskId: string,
    secretSeedHex: string,
    saltHex: string,
    hiddenFixtures: seq<Fixture>,
    hiddenFixtureMerkleRoot: string)
  {
    predicate Valid() {
      2 <= |hiddenFixtures| <= 64
    }
  }

  datatype PrivateTask = PrivateTask(public: PublicTask, opening: Reveal)

  // ----- canonical payloads --------------------------------------------------

  const PROTOCOL_VERSION := "planrace/2"
  const COMMITMENT_DOMAIN := "planrace/2:task-commitment"
  const ARTIFACT_TYPE := "structured-index-spec-v1"

  function TrainingFixtureJson(f: TrainingFixture): Json {
    JObject([
      Field("content_digest", JString(f.contentDigest)),
      Field("fixture_id", JString(f.fixtureId)),
      Field("generator_seed_hex", JString(f.generatorSeedHex)),
      Field("row_count", JInt(f.rowCount))])
  }

  function EndpointJson(e: Endpoint): Json {
    match e
    case IntegerEnd(n) => JInt(n)
    case TextEnd(s) => JString(s)
    case BooleanEnd(b) => JBool(b)
  }

  function RangeJson(r: ParameterRange): Json {
    JObject([
      Field("distribution", JString(r.distribution)),
      Field("maximum", EndpointJson(r.maximum)),
      Field("minimum", EndpointJson(r.minimum)),
      Field("name", JString(r.name)),
      Field("value_type", JString(r.valueType))])
  }

  function Texts(items: seq<string>): Json {
    JArray(Mapped((s: string) => JString(s), items))
  }

  function RangesJson(ranges: seq<ParameterRange>): Json {
    JArray(Mapped((r: ParameterRange) => RangeJson(r), ranges))
  }

  function StatisticsJson(s: PublishedStatistics): Json {
    JObject([
      Field("data_profiles", Texts(s.dataProfiles)),
      Field("row_count_max", JInt(s.rowCountMax)),
      Field("row_count_min", JInt(s.rowCountMin)),
      Field("selectivity_max_bps", JInt(s.selectivityMaxBps)),
      Field("selectivity_min_bps", JInt(s.selectivityMinBps))])
  }

  function BudgetJson(b: ArtifactBudget): Json {
    JObject([
      Field("max_bundle_bytes", JInt(b.maxBundleBytes)),
      Field("max_columns_per_index", JInt(b.maxColumnsPerIndex)),
      Field("max_indexes", JInt(b.maxIndexes)),
      Field("max_predicates_per_index", JInt(b.maxPredicatesPerIndex))])
  }

  function GrammarJson(g: ArtifactGrammar): Json {
    JObject([
      Field("allowed_predicate_operators", Texts(g.allowedPredicateOperators)),
      Field("allows_partial", JBool(g.allowsPartial)),
      Field("allows_raw_sql", JBool(false)),
      Field("allows_unique", JBool(g.allowsUnique)),
      Field("artifact_type", JString(ARTIFACT_TYPE)),
      Field("miner_controls_index_name", JBool(false))])
  }

  /** `_commitment_payload`, fields in key order. */
  function PayloadJson(taskId: string, spec: TaskSpec, r: Reveal): Json {
    JObject([
      Field("artifact_budget", BudgetJson(spec.budget)),
      Field("artifact_grammar", GrammarJson(spec.grammar)),
      Field("benchmark_family_id", JString(spec.benchmarkFamilyId)),
      Field("benchmark_policy_digest", JString(spec.benchmarkPolicyDigest)),
      Field("deadline_unix_ms", JInt(spec.deadlineUnixMs)),
      Field("engine_image_digest", JString(spec.engineImageDigest)),
      Field("generator_source_digest", JString(spec.generatorSourceDigest)),
      Field("hidden_fixture_merkle_root", JString(r.hiddenFixtureMerkleRoot)),
      Field("parameter_ranges", RangesJson(spec.parameterRanges)),
      Field("protocol_version", JString(PROTOCOL_VERSION)),
      Field("public_training_fixture", TrainingFixtureJson(spec.trainingFixture)),
      Field("published_statistics", StatisticsJson(spec.statistics)),
      Field("reference_sql", JString(spec.referenceSql)),
      Field("salt_hex", JString(r.saltHex)),
      Field("schema_sql", JString(spec.schemaSql)),
      Field("secret_seed_hex", JString(r.secretSeedHex)),
      Field("task_id", JString(taskId)),
      Field("validator_hotkey", JString(spec.validatorHotkey))])
  }

  function CommitTo(h: Digester, taskId: string, spec: TaskSpec, r: Reveal): string {
    h(COMMITMENT_DOMAIN, PayloadJson(taskId, spec, r))
  }

  // ----- hexadecimal ---------------------------------------------------------

  /** `bytes.hex()`. */
  function ToHex(b: seq<Byte>): (s: string)
    ensures |s| == 2 * |b|
  {
    if b == [] then [] else [HEX[b[0] / 16], HEX[b[0] % 16]] + ToHex(b[1..])
  }

  function HexValue(c: char): (v: nat)
    ensures v < 16
  {
    if '0' <= c <= '9' then c as int - '0' as int
    else if 'a' <= c <= 'f' then c as int - 'a' as int + 10
    else 0
  }

  /** `bytes.fromhex` on lower-case digits. */
  function FromHex(s: string): seq<Byte> {
    if |s| < 2 then [] else [16 * HexValue(s[0]) + HexValue(s[1])] + FromHex(s[2..])
  }

  lemma HexValueOf(n: nat)
    requires n < 16
    ensures HexValue(HEX[n]) == n
  {
  }

  lemma {:induction false} HexRoundTrip(b: seq<Byte>)
    ensures FromHex(ToHex(b)) == b
  {
    if b != [] {
      HexValueOf(b[0] / 16);
      HexValueOf(b[0] % 16);
      HexRoundTrip(b[1..]);
      assert ToHex(b)[2..] == ToHex(b[1..]);
    }
  }

  // ----- operations ----------------------------------------------------------

  type FixtureFactory = seq<Byte> -> seq<Fixture>

  /** What the entropy source hands out for the three draws. */
  datatype Draws = Draws(taskId: seq<Byte>, seed: seq<Byte>, salt: seq<Byte>)

  datatype CreateError =
    | BadEntropy
    | RepeatedSeed
    | TooFewFixtures
    | DuplicateFixtureIds
    | TooManyFixtures

  predicate UniqueFixtureIds(fixtures: seq<Fixture>) {
    forall i, j :: 0 <= i < j < |fixtures| ==> fixtures[i].fixtureId != fixtures[j].fixtureId
  }

  /** `create_task_v2`. */
  function CreateTask(h: Digester, spec: TaskSpec, draws: Draws, factory: FixtureFactory)
    : Result<PrivateTask, CreateError>
  {
    if |draws.taskId| != 16 || |draws.seed| != 32 || |draws.salt| != 32 then Err(BadEntropy)
    else if draws.salt == draws.seed then Err(RepeatedSeed)
    else
      var fixtures := factory(draws.seed);
      if |fixtures| < 2 then Err(TooFewFixtures)
      else if !UniqueFixtureIds(fixtures) then Err(DuplicateFixtureIds)
      else if |fixtures| > 64 then Err(TooManyFixtures)
      else
        var taskId := ToHex(draws.taskId);
        var opening := Reveal(taskId, ToHex(draws.seed), ToHex(draws.salt), fixtures, MerkleRoot(h, fixtures));
        Ok(PrivateTask(PublicTask(taskId, spec, |fixtures|, CommitTo(h, taskId, spec, opening)), opening))
  }

  /** `audit_task_reveal`, with or without regeneration of the fixtures. */
  predicate Audit(h: Digester, p: PublicTask, r: Reveal, regenerate: Option<FixtureFactory>)
    requires r.Valid()
  {
    && p.taskId == r.taskId
    && p.hiddenHoldoutCount == |r.hiddenFixtures|
    && MerkleRoot(h, r.hiddenFixtures) == r.hiddenFixtureMerkleRoot
    && (regenerate.Some? ==> regenerate.value(FromHex(r.secretSeedHex)) == r.hiddenFixtures)
    && p.commitment == CommitTo(h, p.taskId, p.spec, r)
  }

  /** Whatever the entropy and the factory, a created task passes its audit, and it still
      does when the fixtures are regenerated from the revealed seed. */
  lemma CreatedTasksPass(h: Digester, spec: TaskSpec, draws: Draws, factory: FixtureFactory)
    requires CreateTask(h, spec, draws, factory).Ok?
    ensures var t := CreateTask(h, spec, draws, factory).value;
            && t.opening.Valid()
            && Audit(h, t.public, t.opening, None)
            && Audit(h, t.public, t.opening, Some(factory))
  {
    hide CommitTo, MerkleRoot;
    HexRoundTrip(draws.seed);
  }

  // ----- binding -------------------------------------------------------------

  lemma EndpointInjective(a: Endpoint, b: Endpoint)
    requires EndpointJson(a) == EndpointJson(b)
    ensures a == b
  {
  }

  lemma RangeInjective(a: ParameterRange, b: ParameterRange)
    requires RangeJson(a) == RangeJson(b)
    ensures a == b
  {
    var x, y := RangeJson(a).fields, RangeJson(b).fields;
    assert x[0] == y[0] && x[1] == y[1] && x[2] == y[2] && x[3] == y[3] && x[4] == y[4];
    EndpointInjective(a.minimum, b.minimum);
    EndpointInjective(a.maximum, b.maximum);
  }

  lemma RangesInjective(a: seq<ParameterRange>, b: seq<ParameterRange>)
    requires RangesJson(a) == RangesJson(b)
    ensures a == b
  {
    hide RangeJson;
    var x, y := RangesJson(a).items, RangesJson(b).items;
    assert |x| == |a| && |y| == |b|;
    forall i | 0 <= i < |a| ensures a[i] == b[i] {
      assert x[i] == RangeJson(a[i]) && y[i] == RangeJson(b[i]);
      RangeInjective(a[i], b[i]);
    }
  }

  lemma TextsInjective(a: seq<string>, b: seq<string>)
    requires Texts(a) == Texts(b)
    ensures a == b
  {
    var x, y := Texts(a).items, Texts(b).items;
    assert |x| == |a| && |y| == |b|;
    forall i | 0 <= i < |a| ensures a[i] == b[i] {
      assert x[i] == JString(a[i]) && y[i] == JString(b[i]);
    }
  }

  lemma TrainingFixtureInjective(a: TrainingFixture, b: TrainingFixture)
    requires TrainingFixtureJson(a) == TrainingFixtureJson(b)
    ensures a == b
  {
    var x, y := TrainingFixtureJson(a).fields, TrainingFixtureJson(b).fields;
    assert x[0] == y[0] && x[1] == y[1] && x[2] == y[2] && x[3] == y[3];
  }

  lemma StatisticsInjective(a: PublishedStatistics, b: PublishedStatistics)
    requires StatisticsJson(a) == StatisticsJson(b)
    ensures a == b
  {
    hide Texts;
    var x, y := StatisticsJson(a).fields, StatisticsJson(b).fields;
    assert x[0] == y[0] && x[1] == y[1] && x[2] == y[2] && x[3] == y[3] && x[4] == y[4];
    TextsInjective(a.dataProfiles, b.dataProfiles);
  }

  lemma BudgetInjective(a: ArtifactBudget, b: ArtifactBudget)
    requires BudgetJson(a) == BudgetJson(b)
    ensures a == b
  {
    var x, y := BudgetJson(a).fields, BudgetJson(b).fields;
    assert x[0] == y[0] && x[1] == y[1] && x[2] == y[2] && x[3] == y[3];
  }

  lemma GrammarInjective(a: ArtifactGrammar, b: ArtifactGrammar)
    requires GrammarJson(a) == GrammarJson(b)
    ensures a == b
  {
    hide Texts;
    var x, y := GrammarJson(a).fields, GrammarJson(b).fields;
    assert x[0] == y[0] && x[1] == y[1] && x[3] == y[3];
    TextsInjective(a.allowedPredicateOperators, b.allowedPredicateOperators);
  }

  /** The payload determines every field of the task and the revealed secrets. */
  lemma PayloadInjective(id: string, s: TaskSpec, r: Reveal, id': string, s': TaskSpec, r': Reveal)
    requires PayloadJson(id, s, r) == PayloadJson(id', s', r')
    ensures id == id' && s == s'
    ensures r.secretSeedHex == r'.secretSeedHex && r.saltHex == r'.saltHex
    ensures r.hiddenFixtureMerkleRoot == r'.hiddenFixtureMerkleRoot
  {
    hide BudgetJson, GrammarJson, RangesJson, TrainingFixtureJson, StatisticsJson;
    var x, y := PayloadJson(id, s, r).fields, PayloadJson(id', s', r').fields;
    assert x[0] == y[0] && x[1] == y[1] && x[2] == y[2] && x[3] == y[3] && x[4] == y[4] && x[5] == y[5];
    assert x[6] == y[6] && x[7] == y[7] && x[8] == y[8] && x[10] == y[10] && x[11] == y[11];
    assert x[12] == y[12] && x[13] == y[13] && x[14] == y[14] && x[15] == y[15] && x[16] == y[16] && x[17] == y[17];
    BudgetInjective(s.budget, s'.budget);
    GrammarInjective(s.grammar, s'.grammar);
    RangesInjective(s.parameterRanges, s'.parameterRanges);
    TrainingFixtureInjective(s.trainingFixture, s'.trainingFixture);
    StatisticsInjective(s.statistics, s'.statistics);
  }

  /** Binding: for one commitment at most one public task and one reveal pass the audit,
      whether or not the auditors regenerate the fixtures. */
  lemma CommitmentBinds(
      h: Digester, p: PublicTask, r: Reveal, g: Option<FixtureFactory>,
      p': PublicTask, r': Reveal, g': Option<FixtureFactory>)
    requires Ideal(h) && r.Valid() && r'.Valid()
    requires Audit(h, p, r, g) && Audit(h, p', r', g') && p.commitment == p'.commitment
    ensures p == p' && r == r'
  {
    hide MerkleRoot, PayloadJson, Ideal;
    SameDigest(h, COMMITMENT_DOMAIN, PayloadJson(p.taskId, p.spec, r),
               COMMITMENT_DOMAIN, PayloadJson(p'.taskId, p'.spec, r'));
    PayloadInjective(p.taskId, p.spec, r, p'.taskId, p'.spec, r');
    MerkleRootBinds(h, r.hiddenFixtures, r'.hiddenFixtures);
  }
}
