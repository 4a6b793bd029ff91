/** The exact-result oracle (planrace/oracle_v2.py:36-233): one canonical text per result,
    hashed. Its digests agree exactly when the results do. */
module Oracle {
  import opened Wrappers
  import opened Json
  import opened Hashing
  import Base64
  import Sorting

  /** What an adapter may hand over. A float stands for its exact text: its hexadecimal
      form, a signed infinity or `nan`. */
  datatype Value =
    | NoneValue
    | BoolValue(truth: bool)
    | IntValue(number: int)
    | StrValue(text: string)
    | BytesValue(bytes: seq<Byte>)
    | FloatValue(hex: string)
    | OtherValue

  /** SQLite's storage classes: there is no Boolean among them. */
  datatype Stored =
    | StoredNull
    | StoredInteger(number: int)
    | StoredFloat(hex: string)
    | StoredText(text: string)
    | StoredBlob(bytes: seq<Byte>)

  type Row = seq<Value>

  datatype ResultPolicy = ResultPolicy(
    ordered: bool, collation: string, maxRows: nat, maxCells: nat, maxOutputBytes: nat)

  datatype OracleError =
    | NegativeProjection
    | ProjectionDisagrees
    | UnknownColumns
    | InconsistentColumns
    | UnsupportedType
    | RowLimit
    | CellLimit
    | OutputLimit

  datatype CanonicalResult = CanonicalResult(
    digest: string, rowCount: nat, columnCount: nat, cellCount: nat, text: string)

  const ENGINE := "sqlite-3.46.1"
  const RESULT_DOMAIN := "planrace/2:exact-result"

  // ----- cells and rows ------------------------------------------------------

  predicate Supported(row: Row) {
    forall i :: 0 <= i < |row| ==> !row[i].OtherValue?
  }

  /** A Boolean is stored as the integer 0 or 1. */
  function Store(v: Value): Stored {
    match v
    case NoneValue => StoredNull
    case BoolValue(b) => StoredInteger(if b then 1 else 0)
    case IntValue(n) => StoredInteger(n)
    case StrValue(s) => StoredText(s)
    case BytesValue(b) => StoredBlob(b)
    case FloatValue(x) => StoredFloat(x)
    case OtherValue => StoredNull
  }

  function StoreRow(row: Row): (r: seq<Stored>)
    ensures |r| == |row| && forall i :: 0 <= i < |r| ==> r[i] == Store(row[i])
  {
    if row == [] then [] else [Store(row[0])] + StoreRow(row[1..])
  }

  function StoreRows(rows: seq<Row>): (r: seq<seq<Stored>>)
    ensures |r| == |rows| && forall i :: 0 <= i < |r| ==> r[i] == StoreRow(rows[i])
  {
    if rows == [] then [] else [StoreRow(rows[0])] + StoreRows(rows[1..])
  }

  function Tagged(tag: string, payload: string): Json {
    JArray([JString(tag), JString(payload)])
  }

  /** `_encode_cell`. */
  function CellJson(c: Stored): Json {
    match c
    case StoredNull => Tagged("null", "")
    case StoredInteger(n) => Tagged("integer", Integer(n))
    case StoredFloat(x) => Tagged("float64", x)
    case StoredText(s) => Tagged("string", s)
    case StoredBlob(b) => Tagged("blob-base64", Base64.Encode(b))
  }

  function RowJson(row: seq<Stored>): Json {
    JArray(Mapped((c: Stored) => CellJson(c), row))
  }

  function RowText(): seq<Stored> -> string {
    (row: seq<Stored>) => Print(RowJson(row))
  }

  function RowTexts(rows: seq<seq<Stored>>): (r: seq<string>)
    ensures |r| == |rows| && forall i :: 0 <= i < |r| ==> r[i] == RowText()(rows[i])
  {
    if rows == [] then [] else [RowText()(rows[0])] + RowTexts(rows[1..])
  }

  // ----- the canonical text --------------------------------------------------

  function HeaderJson(policy: ResultPolicy, columns: nat, rows: nat): Json {
    JObject([
      Field("collation", JString(policy.collation)),
      Field("column_count", JInt(columns)),
      Field("engine", JString(ENGINE)),
      Field("order", JString(if policy.ordered then "ordered" else "multiset")),
      Field("protocol", JString("planrace/2")),
      Field("row_count", JInt(rows))])
  }

  /** `"\n".join(lines)`. */
  function JoinLines(lines: seq<string>): string {
    if lines == [] then ""
    else if |lines| == 1 then lines[0]
    else lines[0] + ("\n" + JoinLines(lines[1..]))
  }

  /** Sorting by the text itself; in UTF-8 the byte order is the code-point order
      (section 1 of RFC 3629). */
  function ItsText(): string -> string {
    (s: string) => s
  }

  function Arranged(policy: ResultPolicy, lines: seq<string>): (r: seq<string>)
    ensures |r| == |lines|
  {
    if policy.ordered then lines else Sorting.SortBy(ItsText(), lines)
  }

  function CanonicalText(policy: ResultPolicy, columns: nat, lines: seq<string>): string {
    Print(HeaderJson(policy, columns, |lines|)) + ("\n" + JoinLines(Arranged(policy, lines)))
  }

  function ResultDigest(h: Hash, text: string): string {
    h(Frame(RESULT_DOMAIN, Utf8(text)))
  }

  // ----- canonicalisation ----------------------------------------------------

  /** The column count known before any row is read. */
  function KnownColumns(projection: Option<int>, cursor: Option<nat>, policy: ResultPolicy)
    : Result<Option<nat>, OracleError>
  {
    match projection
    case None => Ok(cursor)
    case Some(n) =>
      if n < 0 then Err(NegativeProjection)
      else if n > policy.maxCells then Err(CellLimit)
      else if cursor.Some? && cursor.value != n then Err(ProjectionDisagrees)
      else Ok(Some(n))
  }

  /** What the loop over the rows carries along. */
  datatype Progress = Progress(lines: seq<string>, columns: Option<nat>, cells: nat, size: nat)

  function AddRow(p: Progress, row: Row, policy: ResultPolicy): Result<Progress, OracleError> {
    if |p.lines| + 1 > policy.maxRows then Err(RowLimit)
    else if p.columns.Some? && |row| != p.columns.value then Err(InconsistentColumns)
    else if p.cells + |row| > policy.maxCells then Err(CellLimit)
    else if !Supported(row) then Err(UnsupportedType)
    else
      var line := RowText()(StoreRow(row));
      var size := p.size + |Utf8(line)|;
      if size > policy.maxOutputBytes then Err(OutputLimit)
      else Ok(Progress(p.lines + [line], Some(|row|), p.cells + |row|, size))
  }

  function AddRows(p: Progress, rows: seq<Row>, policy: ResultPolicy): Result<Progress, OracleError>
    decreases |rows|
  {
    if rows == [] then Ok(p)
    else match AddRow(p, rows[0], policy)
      case Err(e) => Err(e)
      case Ok(q) => AddRows(q, rows[1..], policy)
  }

  function Finish(h: Hash, p: Progress, policy: ResultPolicy): Result<CanonicalResult, OracleError> {
    if p.columns.None? then Err(UnknownColumns)
    else
      var text := CanonicalText(policy, p.columns.value, p.lines);
      if |Utf8(text)| > policy.maxOutputBytes then Err(OutputLimit)
      else Ok(CanonicalResult(ResultDigest(h, text), |p.lines|, p.columns.value, p.cells, text))
  }

  /** The specification of `canonicalize_result`. */
  function Canonicalize(h: Hash, rows: seq<Row>, policy: ResultPolicy, projection: Option<int>, cursor: Option<nat>)
    : Result<CanonicalResult, OracleError>
  {
    match KnownColumns(projection, cursor, policy)
    case Err(e) => Err(e)
    case Ok(columns) =>
      match AddRows(Progress([], columns, 0, 0), rows, policy)
      case Err(e) => Err(e)
      case Ok(p) => Finish(h, p, policy)
  }

  lemma AddRowsFrom(p: Progress, rows: seq<Row>, i: nat, policy: ResultPolicy)
    requires i < |rows|
    ensures AddRows(p, rows[i..], policy)
         == match AddRow(p, rows[i], policy) case Err(e) => Err(e) case Ok(q) => AddRows(q, rows[i + 1..], policy)
  {
    hide AddRow;
    assert rows[i..][0] == rows[i] && rows[i..][1..] == rows[i + 1..];
  }

  lemma AddNoRows(p: Progress, rows: seq<Row>, policy: ResultPolicy)
    requires rows == []
    ensures AddRows(p, rows, policy) == Ok(p)
  {
  }

  /** The body of the loop over the rows. */
  method ReadRow(p: Progress, row: Row, policy: ResultPolicy) returns (r: Result<Progress, OracleError>)
    ensures r == AddRow(p, row, policy)
  {
    hide Utf8, RowText, StoreRow, Supported;
    var lines, columns, cells, size := p.lines, p.columns, p.cells, p.size;
    if |lines| + 1 > policy.maxRows { return Err(RowLimit); }
    if columns.None? {
      columns := Some(|row|);
    } else if |row| != columns.value {
      return Err(InconsistentColumns);
    }
    cells := cells + |row|;
    if cells > policy.maxCells { return Err(CellLimit); }
    if !Supported(row) { return Err(UnsupportedType); }
    var line := RowText()(StoreRow(row));
    size := size + |Utf8(line)|;
    if size > policy.maxOutputBytes { return Err(OutputLimit); }
    r := Ok(Progress(lines + [line], columns, cells, size));
  }

  /** The loop over the rows. */
  method ReadRows(rows: seq<Row>, policy: ResultPolicy, known: Option<nat>) returns (r: Result<Progress, OracleError>)
    ensures r == AddRows(Progress([], known, 0, 0), rows, policy)
  {
    hide AddRow, AddRows;
    var p := Progress([], known, 0, 0);
    assert rows[0..] == rows;
    for i := 0 to |rows|
      invariant AddRows(Progress([], known, 0, 0), rows, policy) == AddRows(p, rows[i..], policy)
    {
      AddRowsFrom(p, rows, i, policy);
      var next := ReadRow(p, rows[i], policy);
      if next.Err? { return Err(next.error); }
      p := next.value;
    }
    AddNoRows(p, rows[|rows|..], policy);
    r := Ok(p);
  }

  /** `canonicalize_result`. */
  method CanonicalizeResult(
      h: Hash, rows: seq<Row>, policy: ResultPolicy, projection: Option<int>, cursor: Option<nat>)
    returns (r: Result<CanonicalResult, OracleError>)
    ensures r == Canonicalize(h, rows, policy, projection, cursor)
  {
    hide AddRows, Utf8, CanonicalText, ResultDigest, KnownColumns;
    var known := KnownColumns(projection, cursor, policy);
    if known.Err? { return Err(known.error); }
    var read := ReadRows(rows, policy, known.value);
    if read.Err? { return Err(read.error); }
    var p := read.value;
    if p.columns.None? { return Err(UnknownColumns); }
    var text := CanonicalText(policy, p.columns.value, p.lines);
    if |Utf8(text)| > policy.maxOutputBytes { return Err(OutputLimit); }
    r := Ok(CanonicalResult(ResultDigest(h, text), |p.lines|, p.columns.value, p.cells, text));
  }

  /** `exact_results_equal`; an error of either side is the error of the comparison. */
  function ExactResultsEqual(
      h: Hash, reference: seq<Row>, candidate: seq<Row>, policy: ResultPolicy, projection: Option<int>,
      referenceCursor: Option<nat>, candidateCursor: Option<nat>): Result<bool, OracleError>
  {
    match Canonicalize(h, reference, policy, projection, referenceCursor)
    case Err(e) => Err(e)
    case Ok(a) =>
      match Canonicalize(h, candidate, policy, projection, candidateCursor)
      case Err(e) => Err(e)
      case Ok(b) => Ok(a.digest == b.digest)
  }
}
