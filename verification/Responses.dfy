/** Signed optimisation responses (planrace/models_v2.py:445-505,
    planrace/auth_v2.py:138-239): what a signature covers, what a request digest binds,
    and the chain of checks a response passes before it is stored. */
module Responses {
  import opened Wrappers
  import opened Json
  import opened Hashing
  import opened Indexes
  import opened Commitment
  import opened Replay

  datatype Request = Request(
    requestId: string,
    task: PublicTask,
    validatorHotkey: string,
    minerHotkey: string,
    requestNonce: nat,
    issuedAt: int,
    expiresAt: int)

  datatype Response = Response(
    requestId: string,
    taskId: string,
    requestDigest: string,
    validatorHotkey: string,
    minerHotkey: string,
    requestNonce: nat,
    issuedAt: int,
    expiresAt: int,
    artifactDigest: string,
    artifact: Bundle,
    signature: string)

  /** The digest function, and `verify(hotkey, message, signature)`; a malformed key or
      signature is one that does not verify. */
  datatype Crypto = Crypto(digest: Digester, verify: (string, seq<Byte>, string) -> bool)

  // ----- canonical values ----------------------------------------------------

  const ARTIFACT_DOMAIN := "planrace/2:optimization-bundle"
  const REQUEST_DOMAIN := "planrace/2:optimization-request"
  const RESPONSE_DOMAIN := "planrace/2:optimization-response"
  const VERSION := "planrace/2"

  function IndexesJson(indexes: seq<IndexSpec>): Json {
    JArray(Mapped((s: IndexSpec) => IndexJson(s), indexes))
  }

  function MetadataJson(b: Bundle): Json {
    JObject([
      Field("estimated_intent", JString(b.estimatedIntent)),
      Field("rationale", JString(b.rationale)),
      Field("strategy", JString(b.strategyLabel))])
  }

  function BundleFields(b: Bundle): seq<Field> {
    [Field("engine_image_digest", JString(b.engineImageDigest)),
     Field("indexes", IndexesJson(b.indexes)),
     Field("metadata", MetadataJson(b)),
     Field("protocol_version", JString(VERSION)),
     Field("task_id", JString(b.taskId))]
  }

  /** `optimization_bundle_digest`. */
  function BundleDigest(h: Digester, b: Bundle): string {
    h(ARTIFACT_DOMAIN, JObject(BundleFields(b)))
  }

  function BundleJson(b: Bundle, digest: string): Json {
    JObject([Field("artifact_digest", JString(digest))] + BundleFields(b))
  }

  function PublicTaskJson(p: PublicTask): Json {
    JObject([
      Field("artifact_budget", BudgetJson(p.spec.budget)),
      Field("artifact_grammar", GrammarJson(p.spec.grammar)),
      Field("benchmark_family_id", JString(p.spec.benchmarkFamilyId)),
      Field("benchmark_policy_digest", JString(p.spec.benchmarkPolicyDigest)),
      Field("commitment", JString(p.commitment)),
      Field("deadline_unix_ms", JInt(p.spec.deadlineUnixMs)),
      Field("engine_image_digest", JString(p.spec.engineImageDigest)),
      Field("generator_source_digest", JString(p.spec.generatorSourceDigest)),
      Field("hidden_holdout_count", JInt(p.hiddenHoldoutCount)),
      Field("parameter_ranges", RangesJson(p.spec.parameterRanges)),
      Field("protocol_version", JString(VERSION)),
      Field("public_training_fixture", TrainingFixtureJson(p.spec.trainingFixture)),
      Field("published_statistics", StatisticsJson(p.spec.statistics)),
      Field("reference_sql", JString(p.spec.referenceSql)),
      Field("schema_sql", JString(p.spec.schemaSql)),
      Field("task_id", JString(p.taskId)),
      Field("validator_hotkey", JString(p.spec.validatorHotkey))])
  }

  function RequestJson(r: Request): Json {
    JObject([
      Field("expires_at_unix_ms", JInt(r.expiresAt)),
      Field("issued_at_unix_ms", JInt(r.issuedAt)),
      Field("miner_hotkey", JString(r.minerHotkey)),
      Field("protocol_version", JString(VERSION)),
      Field("request_id", JString(r.requestId)),
      Field("request_nonce", JInt(r.requestNonce)),
      Field("task", PublicTaskJson(r.task)),
      Field("validator_hotkey", JString(r.validatorHotkey))])
  }

  /** `optimization_request_digest`. */
  function RequestDigest(h: Digester, r: Request): string {
    h(REQUEST_DOMAIN, RequestJson(r))
  }

  /** Everything but the signature. */
  function ResponseJson(r: Response): Json {
    JObject([
      Field("artifact", BundleJson(r.artifact, r.artifactDigest)),
      Field("artifact_digest", JString(r.artifactDigest)),
      Field("expires_at_unix_ms", JInt(r.expiresAt)),
      Field("issued_at_unix_ms", JInt(r.issuedAt)),
      Field("miner_hotkey", JString(r.minerHotkey)),
      Field("protocol_version", JString(VERSION)),
      Field("request_digest", JString(r.requestDigest)),
      Field("request_id", JString(r.requestId)),
      Field("request_nonce", JInt(r.requestNonce)),
      Field("task_id", JString(r.taskId)),
      Field("validator_hotkey", JString(r.validatorHotkey))])
  }

  /** `optimization_response_signing_bytes`. */
  function SigningBytes(r: Response): seq<Byte> {
    Frame(RESPONSE_DOMAIN, Utf8(Print(ResponseJson(r))))
  }

  // ----- signing -------------------------------------------------------------

  datatype Signer = Signer(address: string, sign: seq<Byte> -> seq<Byte>)

  datatype SignError =
    | WrongSigner
    | OtherTask
    | OtherEngine
    | PredatesRequest
    | OutlivesRequest
    | EmptyLifetime
    | BadSigner

  function Unsigned(h: Digester, request: Request, artifact: Bundle, issuedAt: int, expiresAt: int): Response {
    Response(
      request.requestId, request.task.taskId, RequestDigest(h, request), request.validatorHotkey,
      request.minerHotkey, request.requestNonce, issuedAt, expiresAt, BundleDigest(h, artifact), artifact, "")
  }

  /** `sign_optimization_response`. */
  function Sign(h: Digester, request: Request, artifact: Bundle, signer: Signer, issuedAt: int, expiresAt: int)
    : Result<Response, SignError>
  {
    if signer.address != request.minerHotkey then Err(WrongSigner)
    else if artifact.taskId != request.task.taskId then Err(OtherTask)
    else if artifact.engineImageDigest != request.task.spec.engineImageDigest then Err(OtherEngine)
    else if issuedAt < request.issuedAt then Err(PredatesRequest)
    else if expiresAt > request.expiresAt then Err(OutlivesRequest)
    else if expiresAt <= issuedAt then Err(EmptyLifetime)
    else
      var placeholder := Unsigned(h, request, artifact, issuedAt, expiresAt);
      var signature := signer.sign(SigningBytes(placeholder));
      if |signature| != 64 then Err(BadSigner) else Ok(placeholder.(signature := ToHex(signature)))
  }

  // ----- verification --------------------------------------------------------

  datatype VerifyError =
    | MetagraphIdentityMismatch
    | WrongMiner
    | WrongReceiver
    | WrongRequest
    | WrongTask
    | WrongNonce
    | RequestDigestMismatch
    | EngineDigestMismatch
    | ArtifactDigestMismatch
    | ResponsePredatesRequest
    | ResponseFromFuture
    | ResponseOutlivesRequest
    | ResponseExpired
    | BadSignature
    | ResponseReplayed

  /** Who is asking, and when. */
  datatype Context = Context(minerUid: int, metagraph: map<int, string>, now: int, maxClockSkew: nat)

  /** The checks before the replay store is consulted, in order. */
  function Checks(crypto: Crypto, response: Response, request: Request, c: Context): Option<VerifyError> {
    if c.minerUid !in c.metagraph || c.metagraph[c.minerUid] != request.minerHotkey
      then Some(MetagraphIdentityMismatch)
    else if response.minerHotkey != request.minerHotkey then Some(WrongMiner)
    else if response.validatorHotkey != request.validatorHotkey then Some(WrongReceiver)
    else if response.requestId != request.requestId then Some(WrongRequest)
    else if response.taskId != request.task.taskId then Some(WrongTask)
    else if response.requestNonce != request.requestNonce then Some(WrongNonce)
    else if response.requestDigest != RequestDigest(crypto.digest, request) then Some(RequestDigestMismatch)
    else if response.artifact.engineImageDigest != request.task.spec.engineImageDigest
      then Some(EngineDigestMismatch)
    else if response.artifactDigest != BundleDigest(crypto.digest, response.artifact)
      then Some(ArtifactDigestMismatch)
    else if response.issuedAt < request.issuedAt - c.maxClockSkew then Some(ResponsePredatesRequest)
    else if response.issuedAt > c.now + c.maxClockSkew then Some(ResponseFromFuture)
    else if response.expiresAt > request.expiresAt then Some(ResponseOutlivesRequest)
    else if response.expiresAt < c.now then Some(ResponseExpired)
    else if !crypto.verify(response.minerHotkey, SigningBytes(response), response.signature) then Some(BadSignature)
    else None
  }

  function KeyOf(r: Response): ResponseKey {
    ResponseKey(r.minerHotkey, r.requestNonce, r.requestId)
  }

  /** `verify_signed_response` against an in-memory store: outcome and new store. */
  function Verify(
      crypto: Crypto, keys: set<ResponseKey>, maxEntries: nat, response: Response, request: Request, c: Context)
    : (Result<Bundle, VerifyError>, set<ResponseKey>)
  {
    match Checks(crypto, response, request, c)
    case Some(e) => (Err(e), keys)
    case None =>
      var (keys', admitted) := MemoryStep(keys, KeyOf(response), maxEntries);
      (if admitted then Ok(response.artifact) else Err(ResponseReplayed), keys')
  }

  method VerifySignedResponse(
      crypto: Crypto, store: MemoryResponseReplayStore, response: Response, request: Request, c: Context)
    returns (r: Result<Bundle, VerifyError>)
    modifies store
    ensures (r, store.keys) == Verify(crypto, old(store.keys), store.maxEntries, response, request, c)
  {
    hide Checks;
    var failed := Checks(crypto, response, request, c);
    if failed.Some? { return Err(failed.value); }
    var admitted := store.CheckAndStore(KeyOf(response), response.expiresAt);
    if !admitted { return Err(ResponseReplayed); }
    r := Ok(response.artifact);
  }

  /** The same against the persistent store, whose purge samples a clock of its own. */
  method VerifyAgainstPersistentStore(
      crypto: Crypto, store: SqliteResponseReplayStore, response: Response, request: Request, c: Context, clock: int)
    returns (r: Result<Bundle, VerifyError>)
    modifies store
    ensures match Checks(crypto, response, request, c)
            case Some(e) => r == Err(e) && store.rows == old(store.rows)
            case None =>
              var call := Call(KeyOf(response), response.expiresAt, clock);
              && store.rows == Step(old(store.rows), call, store.maxEntries).0
              && r == if Step(old(store.rows), call, store.maxEntries).1 then Ok(response.artifact)
                      else Err(ResponseReplayed)
  {
    hide Checks, Step;
    var failed := Checks(crypto, response, request, c);
    if failed.Some? { return Err(failed.value); }
    var admitted := store.CheckAndStore(KeyOf(response), response.expiresAt, clock);
    if !admitted { return Err(ResponseReplayed); }
    r := Ok(response.artifact);
  }

  /** A refused response leaves the in-memory store as it was. */
  lemma RefusalKeepsStore(
      crypto: Crypto, keys: set<ResponseKey>, maxEntries: nat, response: Response, request: Request, c: Context)
    ensures var (r, keys') := Verify(crypto, keys, maxEntries, response, request, c);
            && (r.Err? ==> keys' == keys)
            && (r.Ok? ==> keys' == keys + {KeyOf(response)} && KeyOf(response) !in keys
                          && Checks(crypto, response, request, c) == None)
  {
    hide Checks;
  }

  // ----- honest responses verify ---------------------------------------------

  lemma SigningIgnoresSignature(r: Response, signature: string)
    ensures SigningBytes(r.(signature := signature)) == SigningBytes(r)
  {
    assert ResponseJson(r.(signature := signature)) == ResponseJson(r);
    hide Frame, Utf8, Print, ResponseJson;
  }

  /** A response is signed exactly by the miner that was asked, for the task and the engine of
      the request, with a lifetime within the request's, when the signer returns 64 bytes. */
  lemma SignSucceedsIff(
      h: Digester, request: Request, artifact: Bundle, signer: Signer, issuedAt: int, expiresAt: int)
    ensures Sign(h, request, artifact, signer, issuedAt, expiresAt).Ok? <==>
              && signer.address == request.minerHotkey
              && artifact.taskId == request.task.taskId
              && artifact.engineImageDigest == request.task.spec.engineImageDigest
              && request.issuedAt <= issuedAt < expiresAt <= request.expiresAt
              && |signer.sign(SigningBytes(Unsigned(h, request, artifact, issuedAt, expiresAt)))| == 64
  {
    hide SigningBytes, Unsigned, ToHex;
  }

  /** What an honest miner signs passes every check for the request it answers, exactly
      while the metagraph names the miner and the clock lies within the response's
      lifetime, give or take the admitted skew at its start. */
  lemma SignedResponsesVerify(
      crypto: Crypto, request: Request, artifact: Bundle, signer: Signer, issuedAt: int, expiresAt: int, c: Context)
    requires forall m: seq<Byte> :: crypto.verify(signer.address, m, ToHex(signer.sign(m)))
    requires Sign(crypto.digest, request, artifact, signer, issuedAt, expiresAt).Ok?
    ensures var r := Sign(crypto.digest, request, artifact, signer, issuedAt, expiresAt).value;
            Checks(crypto, r, request, c) == None <==>
              && c.minerUid in c.metagraph && c.metagraph[c.minerUid] == request.minerHotkey
              && issuedAt <= c.now + c.maxClockSkew
              && c.now <= expiresAt
  {
    hide *;
    var h := crypto.digest;
    SignedIs(h, request, artifact, signer, issuedAt, expiresAt);
    var r := Sign(h, request, artifact, signer, issuedAt, expiresAt).value;
    var placeholder := Unsigned(h, request, artifact, issuedAt, expiresAt);
    var message := SigningBytes(placeholder);
    SigningIgnoresSignature(placeholder, ToHex(signer.sign(message)));
    assert crypto.verify(signer.address, message, ToHex(signer.sign(message)));
    ChecksPassIff(crypto, r, request, c);
  }

  lemma SignedIs(h: Digester, request: Request, artifact: Bundle, signer: Signer, issuedAt: int, expiresAt: int)
    requires Sign(h, request, artifact, signer, issuedAt, expiresAt).Ok?
    ensures var r := Sign(h, request, artifact, signer, issuedAt, expiresAt).value;
            var placeholder := Unsigned(h, request, artifact, issuedAt, expiresAt);
            && r == placeholder.(signature := ToHex(signer.sign(SigningBytes(placeholder))))
            && Matches(h, r, request) && signer.address == r.minerHotkey
            && request.issuedAt <= r.issuedAt && r.expiresAt <= request.expiresAt
            && r.issuedAt == issuedAt && r.expiresAt == expiresAt
  {
    hide SigningBytes, RequestDigest, BundleDigest, ToHex;
  }

  /** The response carries what the request asks for. */
  ghost predicate Matches(h: Digester, r: Response, request: Request) {
    && r.minerHotkey == request.minerHotkey && r.validatorHotkey == request.validatorHotkey
    && r.requestId == request.requestId && r.taskId == request.task.taskId
    && r.requestNonce == request.requestNonce && r.requestDigest == RequestDigest(h, request)
    && r.artifact.engineImageDigest == request.task.spec.engineImageDigest
    && r.artifactDigest == BundleDigest(h, r.artifact)
  }

  /** Whatever their order, the checks pass exactly when the metagraph knows the miner, the
      response answers this very request with intact digests, its times fit the request's
      and the clock's, skew admitted at the start only, and its signature verifies. */
  lemma ChecksPassIff(crypto: Crypto, r: Response, request: Request, c: Context)
    ensures Checks(crypto, r, request, c) == None <==>
              && c.minerUid in c.metagraph && c.metagraph[c.minerUid] == request.minerHotkey
              && Matches(crypto.digest, r, request)
              && request.issuedAt - c.maxClockSkew <= r.issuedAt <= c.now + c.maxClockSkew
              && c.now <= r.expiresAt <= request.expiresAt
              && crypto.verify(r.minerHotkey, SigningBytes(r), r.signature)
  {
    hide SigningBytes, RequestDigest, BundleDigest;
  }

  // ----- binding -------------------------------------------------------------

  lemma PublicTaskInjective(p: PublicTask, q: PublicTask)
    requires PublicTaskJson(p) == PublicTaskJson(q)
    ensures p == q
  {
    hide BudgetJson, GrammarJson, RangesJson, TrainingFixtureJson, StatisticsJson;
    var s, t := p.spec, q.spec;
    var x, y := PublicTaskJson(p).fields, PublicTaskJson(q).fields;
    assert x[0] == y[0] && x[1] == y[1] && x[2] == y[2] && x[3] == y[3] && x[4] == y[4] && x[5] == y[5];
    assert x[6] == y[6] && x[7] == y[7] && x[8] == y[8] && x[9] == y[9] && x[11] == y[11] && x[12] == y[12];
    assert x[13] == y[13] && x[14] == y[14] && x[15] == y[15] && x[16] == y[16];
    BudgetInjective(s.budget, t.budget);
    GrammarInjective(s.grammar, t.grammar);
    RangesInjective(s.parameterRanges, t.parameterRanges);
    TrainingFixtureInjective(s.trainingFixture, t.trainingFixture);
    StatisticsInjective(s.statistics, t.statistics);
  }

  lemma RequestInjective(a: Request, b: Request)
    requires RequestJson(a) == RequestJson(b)
    ensures a == b
  {
    hide PublicTaskJson;
    var x, y := RequestJson(a).fields, RequestJson(b).fields;
    assert x[0] == y[0] && x[1] == y[1] && x[2] == y[2] && x[4] == y[4] && x[5] == y[5] && x[6] == y[6] && x[7] == y[7];
    PublicTaskInjective(a.task, b.task);
  }

  /** A response verifies for at most one request, the whole public task included. */
  lemma ResponseBindsRequest(crypto: Crypto, response: Response, a: Request, c: Context, b: Request, d: Context)
    requires Ideal(crypto.digest)
    requires Checks(crypto, response, a, c) == None && Checks(crypto, response, b, d) == None
    ensures a == b
  {
    var h := crypto.digest;
    assert RequestDigest(h, a) == RequestDigest(h, b) by { hide RequestDigest, BundleDigest, SigningBytes; }
    hide Checks, Ideal, RequestJson;
    SameDigest(h, REQUEST_DOMAIN, RequestJson(a), REQUEST_DOMAIN, RequestJson(b));
    RequestInjective(a, b);
  }

  lemma IndexesInjective(a: seq<IndexSpec>, b: seq<IndexSpec>)
    requires IndexesJson(a) == IndexesJson(b)
    ensures a == b
  {
    hide IndexJson;
    var f := (s: IndexSpec) => IndexJson(s);
    forall u: IndexSpec, v: IndexSpec | f(u) == f(v) ensures u == v { IndexInjective(u, v); }
    assert IndexesJson(a).items == Mapped(f, a) && IndexesJson(b).items == Mapped(f, b);
    MappedInjective(f, a, b);
  }

  lemma MetadataInjective(a: Bundle, b: Bundle)
    requires MetadataJson(a) == MetadataJson(b)
    ensures a.strategyLabel == b.strategyLabel && a.estimatedIntent == b.estimatedIntent && a.rationale == b.rationale
  {
    var x, y := MetadataJson(a).fields, MetadataJson(b).fields;
    assert x[0] == y[0] && x[1] == y[1] && x[2] == y[2];
  }

  lemma BundleInjective(a: Bundle, b: Bundle)
    requires BundleFields(a) == BundleFields(b)
    ensures a == b
  {
    hide IndexesJson, MetadataJson;
    var x, y := BundleFields(a), BundleFields(b);
    assert x[0] == y[0] && x[1] == y[1] && x[2] == y[2] && x[4] == y[4];
    IndexesInjective(a.indexes, b.indexes);
    MetadataInjective(a, b);
  }

  lemma BundleJsonInjective(a: Bundle, d: string, b: Bundle, e: string)
    requires BundleJson(a, d) == BundleJson(b, e)
    ensures a == b && d == e
  {
    hide BundleFields;
    var x, y := BundleJson(a, d).fields, BundleJson(b, e).fields;
    assert x[0] == y[0];
    assert x[1..] == BundleFields(a) && y[1..] == BundleFields(b);
    BundleInjective(a, b);
  }

  lemma ResponseInjective(a: Response, b: Response)
    requires ResponseJson(a) == ResponseJson(b)
    ensures a == b.(signature := a.signature)
  {
    hide BundleJson;
    var x, y := ResponseJson(a).fields, ResponseJson(b).fields;
    assert x[0] == y[0] && x[1] == y[1] && x[2] == y[2] && x[3] == y[3] && x[4] == y[4];
    assert x[6] == y[6] && x[7] == y[7] && x[8] == y[8] && x[9] == y[9] && x[10] == y[10];
    BundleJsonInjective(a.artifact, a.artifactDigest, b.artifact, b.artifactDigest);
  }

  /** A signature covers every field of the response: no two responses that differ in
      anything but the signature share their signing bytes. */
  lemma SignatureCoversResponse(a: Response, b: Response)
    ensures SigningBytes(a) == SigningBytes(b) <==> a == b.(signature := a.signature)
  {
    hide *;
    if SigningBytes(a) == SigningBytes(b) {
      SigningBytesSplit(a, b);
      ResponseInjective(a, b);
    }
    if a == b.(signature := a.signature) { SigningIgnoresSignature(b, a.signature); }
  }

  lemma SigningBytesSplit(a: Response, b: Response)
    requires SigningBytes(a) == SigningBytes(b)
    ensures ResponseJson(a) == ResponseJson(b)
  {
    hide Frame, Utf8, Print, ResponseJson;
    FrameInjective(RESPONSE_DOMAIN, Utf8(Print(ResponseJson(a))), RESPONSE_DOMAIN, Utf8(Print(ResponseJson(b))));
    Utf8Injective(Print(ResponseJson(a)), Print(ResponseJson(b)));
    PrintInjective(ResponseJson(a), ResponseJson(b));
  }

  /** The artifact digest determines the artifact. */
  lemma ArtifactDigestBinds(h: Digester, a: Bundle, b: Bundle)
    requires Ideal(h) && BundleDigest(h, a) == BundleDigest(h, b)
    ensures a == b
  {
    hide BundleFields, Ideal;
    SameDigest(h, ARTIFACT_DOMAIN, JObject(BundleFields(a)), ARTIFACT_DOMAIN, JObject(BundleFields(b)));
    BundleInjective(a, b);
  }

  // ----- one response, presented twice ---------------------------------------

  /** With the persistent store and one clock for both, a response that passed once and
      still passes every other check is admitted a second time exactly at the instant of
      its expiry: verification accepts that instant, and the purge already removes it. */
  lemma SecondPresentationIff(
      crypto: Crypto, rows: map<ResponseKey, int>, maxEntries: nat, response: Response, request: Request,
      first: Context, second: Context)
    requires |rows| <= maxEntries
    requires Checks(crypto, response, request, first) == None && Checks(crypto, response, request, second) == None
    requires Step(rows, Call(KeyOf(response), response.expiresAt, first.now), maxEntries).1
    ensures var after := Step(rows, Call(KeyOf(response), response.expiresAt, first.now), maxEntries).0;
            Step(after, Call(KeyOf(response), response.expiresAt, second.now), maxEntries).1
            <==> second.now == response.expiresAt
  {
    assert second.now <= response.expiresAt by { hide RequestDigest, BundleDigest, SigningBytes; }
    hide Checks, Step;
    SecondAdmissionIff(rows, Call(KeyOf(response), response.expiresAt, first.now),
                       Call(KeyOf(response), response.expiresAt, second.now), maxEntries);
  }

  /** One honestly signed response, twice admitted by an initially empty persistent store:
      first inside its lifetime, then at the instant it expires. */
  lemma AdmittedAgainAtExpiry(
      crypto: Crypto, request: Request, artifact: Bundle, signer: Signer, issuedAt: int, expiresAt: int,
      metagraph: map<int, string>, uid: int, skew: nat, now: int, maxEntries: nat)
    requires forall m: seq<Byte> :: crypto.verify(signer.address, m, ToHex(signer.sign(m)))
    requires Sign(crypto.digest, request, artifact, signer, issuedAt, expiresAt).Ok?
    requires uid in metagraph && metagraph[uid] == request.minerHotkey
    requires issuedAt <= now < expiresAt && maxEntries >= 1
    ensures var r := Sign(crypto.digest, request, artifact, signer, issuedAt, expiresAt).value;
            var first, second := Context(uid, metagraph, now, skew), Context(uid, metagraph, expiresAt, skew);
            var call, again := Call(KeyOf(r), r.expiresAt, now), Call(KeyOf(r), r.expiresAt, expiresAt);
            && Checks(crypto, r, request, first) == None && Checks(crypto, r, request, second) == None
            && Step(map[], call, maxEntries).1
            && Step(Step(map[], call, maxEntries).0, again, maxEntries).1
  {
    hide *;
    var r := Sign(crypto.digest, request, artifact, signer, issuedAt, expiresAt).value;
    var first, second := Context(uid, metagraph, now, skew), Context(uid, metagraph, expiresAt, skew);
    SignedIs(crypto.digest, request, artifact, signer, issuedAt, expiresAt);
    SignedResponsesVerify(crypto, request, artifact, signer, issuedAt, expiresAt, first);
    SignedResponsesVerify(crypto, request, artifact, signer, issuedAt, expiresAt, second);
    EmptyAdmits(Call(KeyOf(r), r.expiresAt, now), maxEntries);
    SecondPresentationIff(crypto, map[], maxEntries, r, request, first, second);
  }

  lemma EmptyAdmits(call: Call<ResponseKey>, maxEntries: nat)
    requires maxEntries >= 1
    ensures Step(map[], call, maxEntries).1
  {
    assert Purged<ResponseKey>(map[], call.clock) == map[];
  }
}
