/** The index AST and its strategy digest (planrace/models_v2.py:114-192, 247-273):
    a normal form up to the order of predicate atoms. */
module Indexes {
  import opened Wrappers
  import opened Json
  import opened Hashing
  import Sorting

  datatype Literal =
    | IntegerLiteral(number: int)
    | TextLiteral(text: string)
    | BooleanLiteral(truth: bool)
    | NullLiteral

  datatype Operator = Eq | Ne | Lt | Lte | Gt | Gte | IsNull | IsNotNull

  datatype Atom = Atom(column: string, operator: Operator, value: Literal)
  {
    /** NULL literals go with the IS NULL operators, and only with them. */
    predicate Valid() {
      value.NullLiteral? <==> (operator.IsNull? || operator.IsNotNull?)
    }
  }

  datatype Direction = Asc | Desc

  datatype IndexColumn = IndexColumn(column: string, direction: Direction)

  /** `predicate` is a non-empty conjunction when present. */
  datatype IndexSpec = IndexSpec(
    table: string,
    keyColumns: seq<IndexColumn>,
    includeColumns: seq<string>,
    unique: bool,
    condition: Option<seq<Atom>>)

  datatype Bundle = Bundle(
    taskId: string,
    engineImageDigest: string,
    indexes: seq<IndexSpec>,
    strategyLabel: string,
    estimatedIntent: string,
    rationale: string)

  // ----- canonical values ----------------------------------------------------

  function LiteralJson(v: Literal): Json {
    match v
    case IntegerLiteral(n) => JObject([Field("kind", JString("integer")), Field("value", JInt(n))])
    case TextLiteral(s) => JObject([Field("kind", JString("text")), Field("value", JString(s))])
    case BooleanLiteral(b) => JObject([Field("kind", JString("boolean")), Field("value", JBool(b))])
    case NullLiteral => JObject([Field("kind", JString("null"))])
  }

  function OperatorName(op: Operator): string {
    match op
    case Eq => "eq" case Ne => "ne" case Lt => "lt" case Lte => "lte" case Gt => "gt" case Gte => "gte"
    case IsNull => "is_null" case IsNotNull => "is_not_null"
  }

  function AtomJson(a: Atom): Json {
    JObject([
      Field("column", JString(a.column)),
      Field("operator", JString(OperatorName(a.operator))),
      Field("value", LiteralJson(a.value))])
  }

  function ColumnJson(c: IndexColumn): Json {
    JObject([
      Field("column", JString(c.column)),
      Field("direction", JString(if c.direction.Asc? then "asc" else "desc"))])
  }

  function ConditionJson(c: Option<seq<Atom>>): Json {
    match c
    case None => JNull
    case Some(atoms) =>
      JObject([Field("atoms", JArray(Mapped((a: Atom) => AtomJson(a), atoms))), Field("conjunction", JString("and"))])
  }

  function IndexJson(s: IndexSpec): Json {
    JObject([
      Field("include_columns", JArray(Mapped((c: string) => JString(c), s.includeColumns))),
      Field("key_columns", JArray(Mapped((c: IndexColumn) => ColumnJson(c), s.keyColumns))),
      Field("predicate", ConditionJson(s.condition)),
      Field("table", JString(s.table)),
      Field("unique", JBool(s.unique))])
  }

  // ----- the strategy digest -------------------------------------------------

  const STRATEGY_DOMAIN := "planrace/2:executable-strategy"
  const PROTOCOL_VERSION := "planrace/2"

  /** The canonical encoding that atoms are sorted by. */
  function AtomKey(): Atom -> string {
    (a: Atom) => Print(AtomJson(a))
  }

  function Normal(s: IndexSpec): IndexSpec {
    s.(condition := match s.condition case None => None case Some(atoms) => Some(Sorting.SortBy(AtomKey(), atoms)))
  }

  function NormalJson(s: IndexSpec): Json {
    IndexJson(Normal(s))
  }

  function StrategyJson(b: Bundle): Json {
    JObject([
      Field("engine_image_digest", JString(b.engineImageDigest)),
      Field("indexes", JArray(Mapped((s: IndexSpec) => NormalJson(s), b.indexes))),
      Field("protocol_version", JString(PROTOCOL_VERSION))])
  }

  function StrategyDigest(h: Digester, b: Bundle): string {
    h(STRATEGY_DOMAIN, StrategyJson(b))
  }

  /** `optimization_strategy_digest`, with its loop over the indexes. */
  method OptimizationStrategyDigest(h: Digester, b: Bundle) returns (digest: string)
    ensures digest == StrategyDigest(h, b)
  {
    hide NormalJson;
    var normalized: seq<Json> := [];
    for i := 0 to |b.indexes|
      invariant |normalized| == i && forall j :: 0 <= j < i ==> normalized[j] == NormalJson(b.indexes[j])
    {
      normalized := normalized + [NormalJson(b.indexes[i])];
    }
    assert normalized == Mapped((s: IndexSpec) => NormalJson(s), b.indexes);
    digest := h(STRATEGY_DOMAIN, JObject([
      Field("engine_image_digest", JString(b.engineImageDigest)),
      Field("indexes", JArray(normalized)),
      Field("protocol_version", JString(PROTOCOL_VERSION))]));
  }

  // ----- injectivity ---------------------------------------------------------

  lemma OperatorInjective(a: Operator, b: Operator)
    requires OperatorName(a) == OperatorName(b)
    ensures a == b
  {
    var x, y := OperatorName(a), OperatorName(b);
    assert x[0] == y[0] && x[|x| - 1] == y[|y| - 1] && |x| == |y|;
  }

  lemma KindsDiffer()
    ensures "integer" != "text" && "integer" != "boolean" && "text" != "boolean"
  {
    assert |"integer"| == 7 && |"text"| == 4 && "integer"[0] != "boolean"[0];
  }

  lemma LiteralInjective(a: Literal, b: Literal)
    requires LiteralJson(a) == LiteralJson(b)
    ensures a == b
  {
    KindsDiffer();
    var x, y := LiteralJson(a).fields, LiteralJson(b).fields;
    assert |x| == |y| && x[0] == y[0];
    if |x| == 2 { assert x[1] == y[1]; }
  }

  lemma AtomInjective(a: Atom, b: Atom)
    requires AtomJson(a) == AtomJson(b)
    ensures a == b
  {
    hide LiteralJson, OperatorName;
    var x, y := AtomJson(a).fields, AtomJson(b).fields;
    assert x[0] == y[0] && x[1] == y[1] && x[2] == y[2];
    OperatorInjective(a.operator, b.operator);
    LiteralInjective(a.value, b.value);
  }

  lemma ColumnInjective(a: IndexColumn, b: IndexColumn)
    requires ColumnJson(a) == ColumnJson(b)
    ensures a == b
  {
    assert |"asc"| != |"desc"|;
    var x, y := ColumnJson(a).fields, ColumnJson(b).fields;
    assert x[0] == y[0] && x[1] == y[1];
  }

  lemma AtomKeySeparates()
    ensures Sorting.Separates(AtomKey())
  {
    hide AtomJson, Print;
    forall a: Atom, b: Atom | AtomKey()(a) == AtomKey()(b) ensures a == b {
      PrintInjective(AtomJson(a), AtomJson(b));
      AtomInjective(a, b);
    }
  }

  lemma ConditionInjective(a: Option<seq<Atom>>, b: Option<seq<Atom>>)
    requires ConditionJson(a) == ConditionJson(b)
    ensures a == b
  {
    hide AtomJson;
    if a.Some? && b.Some? {
      var x, y := ConditionJson(a).fields, ConditionJson(b).fields;
      assert x[0] == y[0];
      var f := (u: Atom) => AtomJson(u);
      forall u: Atom, v: Atom | f(u) == f(v) ensures u == v { AtomInjective(u, v); }
      MappedInjective(f, a.value, b.value);
    }
  }

  lemma IndexInjective(a: IndexSpec, b: IndexSpec)
    requires IndexJson(a) == IndexJson(b)
    ensures a == b
  {
    hide ColumnJson, ConditionJson;
    var x, y := IndexJson(a).fields, IndexJson(b).fields;
    assert x[0] == y[0] && x[1] == y[1] && x[2] == y[2] && x[3] == y[3] && x[4] == y[4];
    var f, g := (c: IndexColumn) => ColumnJson(c), (c: string) => JString(c);
    forall u: IndexColumn, v: IndexColumn | f(u) == f(v) ensures u == v { ColumnInjective(u, v); }
    MappedInjective(f, a.keyColumns, b.keyColumns);
    forall u: string, v: string | g(u) == g(v) ensures u == v { assert JString(u) == JString(v); }
    MappedInjective(g, a.includeColumns, b.includeColumns);
    ConditionInjective(a.condition, b.condition);
  }

  // ----- the normal form -----------------------------------------------------

  /** Equal but for the order of the predicate's atoms. */
  ghost predicate SameUpToOrder(a: IndexSpec, b: IndexSpec) {
    && a.table == b.table && a.keyColumns == b.keyColumns && a.includeColumns == b.includeColumns
    && a.unique == b.unique
    && a.condition.Some? == b.condition.Some?
    && (a.condition.Some? ==> multiset(a.condition.value) == multiset(b.condition.value))
  }

  lemma NormalIff(a: IndexSpec, b: IndexSpec)
    ensures Normal(a) == Normal(b) <==> SameUpToOrder(a, b)
  {
    hide AtomKey;
    AtomKeySeparates();
    if a.condition.Some? && b.condition.Some? {
      Sorting.SortIsNormalForm(AtomKey(), a.condition.value, b.condition.value);
    }
  }

  ghost predicate SameStrategy(a: Bundle, b: Bundle) {
    && a.engineImageDigest == b.engineImageDigest
    && |a.indexes| == |b.indexes|
    && forall i :: 0 <= i < |a.indexes| ==> SameUpToOrder(a.indexes[i], b.indexes[i])
  }

  lemma StrategyJsonIff(a: Bundle, b: Bundle)
    ensures StrategyJson(a) == StrategyJson(b) <==> SameStrategy(a, b)
  {
    hide IndexJson, Normal, SameUpToOrder;
    var f := (s: IndexSpec) => NormalJson(s);
    var x, y := StrategyJson(a).fields, StrategyJson(b).fields;
    if x == y {
      assert x[0] == y[0] && x[1] == y[1];
      assert Mapped(f, a.indexes) == Mapped(f, b.indexes);
      assert |Mapped(f, a.indexes)| == |a.indexes| && |Mapped(f, b.indexes)| == |b.indexes|;
      forall i | 0 <= i < |a.indexes| ensures SameUpToOrder(a.indexes[i], b.indexes[i]) {
        assert Mapped(f, a.indexes)[i] == f(a.indexes[i]) && Mapped(f, b.indexes)[i] == f(b.indexes[i]);
        IndexInjective(Normal(a.indexes[i]), Normal(b.indexes[i]));
        NormalIff(a.indexes[i], b.indexes[i]);
      }
    }
    if SameStrategy(a, b) {
      forall i | 0 <= i < |a.indexes| ensures f(a.indexes[i]) == f(b.indexes[i]) {
        NormalIff(a.indexes[i], b.indexes[i]);
      }
      assert Mapped(f, a.indexes) == Mapped(f, b.indexes);
    }
  }

  /** Under an ideal hash two bundles share a strategy digest exactly when they name the
      same engine and the same indexes in the same order, up to the order of the atoms of
      each predicate; task, label, intent and rationale play no part. */
  lemma StrategyDigestIff(h: Digester, a: Bundle, b: Bundle)
    requires Ideal(h)
    ensures StrategyDigest(h, a) == StrategyDigest(h, b) <==> SameStrategy(a, b)
  {
    StrategyJsonIff(a, b);
    hide StrategyJson, Ideal, SameStrategy;
    if StrategyDigest(h, a) == StrategyDigest(h, b) {
      SameDigest(h, STRATEGY_DOMAIN, StrategyJson(a), STRATEGY_DOMAIN, StrategyJson(b));
    }
  }
}
