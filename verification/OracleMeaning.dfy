/** What a canonical result says (planrace/oracle_v2.py:72-233), cell by cell and field by
    field: which values count as equal, what the counts are, which text is hashed, which limit
    a refusal names; and that a digest binds the policy. */
module OracleMeaning {
  import opened Wrappers
  import opened Json
  import opened Hashing
  import opened Oracle
  import opened OracleLaws
  import Base64
  import FormatExamples
  import Sorting
  import Text

  // ----- cells ---------------------------------------------------------------

  /** SQLite has no Boolean: true is the integer one and false the integer zero. */
  ghost predicate SameCell(a: Value, b: Value) {
    || a == b
    || (a == BoolValue(true) && b == IntValue(1)) || (a == IntValue(1) && b == BoolValue(true))
    || (a == BoolValue(false) && b == IntValue(0)) || (a == IntValue(0) && b == BoolValue(false))
  }

  lemma StoreIff(a: Value, b: Value)
    requires !a.OtherValue? && !b.OtherValue?
    ensures Store(a) == Store(b) <==> SameCell(a, b)
  {
  }

  /** Two results have the same cells in the same places. */
  ghost predicate SameCells(a: seq<Row>, b: seq<Row>) {
    && |a| == |b|
    && forall i :: 0 <= i < |a| ==>
         |a[i]| == |b[i]| && forall j :: 0 <= j < |a[i]| ==> SameCell(a[i][j], b[i][j])
  }

  lemma StoredRowsIff(a: Row, b: Row)
    requires Supported(a) && Supported(b)
    ensures StoreRow(a) == StoreRow(b) <==>
            |a| == |b| && forall j :: 0 <= j < |a| ==> SameCell(a[j], b[j])
  {
    hide Store, SameCell;
    if |a| == |b| {
      forall j | 0 <= j < |a| ensures StoreRow(a)[j] == StoreRow(b)[j] <==> SameCell(a[j], b[j]) {
        StoreIff(a[j], b[j]);
      }
    }
  }

  lemma StoredIff(a: seq<Row>, b: seq<Row>)
    requires forall i :: 0 <= i < |a| ==> Supported(a[i])
    requires forall i :: 0 <= i < |b| ==> Supported(b[i])
    ensures StoreRows(a) == StoreRows(b) <==> SameCells(a, b)
  {
    hide StoreRow, SameCell, Supported;
    if |a| == |b| {
      forall i | 0 <= i < |a|
        ensures StoreRows(a)[i] == StoreRows(b)[i] <==>
                |a[i]| == |b[i]| && forall j :: 0 <= j < |a[i]| ==> SameCell(a[i][j], b[i][j])
      {
        StoredRowsIff(a[i], b[i]);
      }
    }
  }

  /** Under an ordered policy, accepted results of the same width have equal digests exactly
      when they have the same cells in the same places. */
  lemma OrderedDigestsAgreeIff(
      h: Hash, a: seq<Row>, b: seq<Row>, policy: ResultPolicy,
      projection: Option<int>, cursor: Option<nat>, projection': Option<int>, cursor': Option<nat>)
    requires CollisionFree(h) && policy.ordered
    requires Canonicalize(h, a, policy, projection, cursor).Ok?
    requires Canonicalize(h, b, policy, projection', cursor').Ok?
    ensures var x := Canonicalize(h, a, policy, projection, cursor).value;
            var y := Canonicalize(h, b, policy, projection', cursor').value;
            x.digest == y.digest <==> x.columnCount == y.columnCount && SameCells(a, b)
  {
    DigestsAgreeIff(h, a, b, policy, projection, cursor, projection', cursor');
    CanonicalizeResultIs(h, a, policy, projection, cursor);
    CanonicalizeResultIs(h, b, policy, projection', cursor');
    hide Canonicalize, SameCells, CollisionFree, StoreRows, Supported, CanonicalText, ResultDigest, RowTexts;
    StoredIff(a, b);
  }

  // ----- the policy ----------------------------------------------------------

  lemma HeadersDiffer(p: ResultPolicy, c: nat, n: nat, q: ResultPolicy, d: nat, m: nat)
    requires HeaderJson(p, c, n) == HeaderJson(q, d, m)
    ensures p.collation == q.collation && p.ordered == q.ordered && c == d && n == m
  {
    var x, y := HeaderJson(p, c, n).fields, HeaderJson(q, d, m).fields;
    assert x[0] == y[0] && x[1] == y[1] && x[3] == y[3] && x[5] == y[5];
    assert "ordered"[0] != "multiset"[0];
  }

  /** Results canonicalised under policies of different order or collation have different
      digests. */
  lemma DigestBindsPolicy(
      h: Hash, a: seq<Row>, b: seq<Row>, p: ResultPolicy, q: ResultPolicy,
      projection: Option<int>, cursor: Option<nat>, projection': Option<int>, cursor': Option<nat>)
    requires CollisionFree(h)
    requires Canonicalize(h, a, p, projection, cursor).Ok? && Canonicalize(h, b, q, projection', cursor').Ok?
    requires Canonicalize(h, a, p, projection, cursor).value.digest
          == Canonicalize(h, b, q, projection', cursor').value.digest
    ensures p.collation == q.collation && p.ordered == q.ordered
  {
    var x := Canonicalize(h, a, p, projection, cursor).value;
    var y := Canonicalize(h, b, q, projection', cursor').value;
    CanonicalizeResultIs(h, a, p, projection, cursor);
    CanonicalizeResultIs(h, b, q, projection', cursor');
    assert x.text == CanonicalText(p, x.columnCount, RowTexts(StoreRows(a)));
    assert y.text == CanonicalText(q, y.columnCount, RowTexts(StoreRows(b)));
    assert x.digest == ResultDigest(h, x.text) && y.digest == ResultDigest(h, y.text);
    hide *;
    DigestIff(h, x.text, y.text);
    TextBindsPolicy(p, x.columnCount, RowTexts(StoreRows(a)), q, y.columnCount, RowTexts(StoreRows(b)));
  }

  lemma TextBindsPolicy(
      p: ResultPolicy, c: nat, a: seq<string>, q: ResultPolicy, d: nat, b: seq<string>)
    requires CanonicalText(p, c, a) == CanonicalText(q, d, b)
    ensures p.collation == q.collation && p.ordered == q.ordered
  {
    var u, v := HeaderJson(p, c, |a|), HeaderJson(q, d, |b|);
    var x, y := JoinLines(Arranged(p, a)), JoinLines(Arranged(q, b));
    assert Print(u) + ("\n" + x) == Print(v) + ("\n" + y);
    hide *;
    PrintOneLine(u);
    PrintOneLine(v);
    LineSplit(Print(u), Print(v), x, y);
    PrintInjective(u, v);
    HeadersDiffer(p, c, |a|, q, d, |b|);
  }

  // ----- the fields ----------------------------------------------------------

  /** The number of columns that a result has: what the caller says, else what the cursor
      says, else the width of the first row. */
  ghost predicate ColumnsOf(n: int, rows: seq<Row>, projection: Option<int>, cursor: Option<nat>) {
    if projection.Some? then n == projection.value
    else if cursor.Some? then n == cursor.value
    else rows != [] && n == |rows[0]|
  }

  /** The text that is hashed: a header of one line, then a line per row, sorted unless the
      order counts. */
  ghost predicate TextOf(text: string, rows: seq<Row>, columns: nat, policy: ResultPolicy) {
    exists lines: seq<string> ::
      && text == Print(JObject([
           Field("collation", JString(policy.collation)),
           Field("column_count", JInt(columns)),
           Field("engine", JString("sqlite-3.46.1")),
           Field("order", JString(if policy.ordered then "ordered" else "multiset")),
           Field("protocol", JString("planrace/2")),
           Field("row_count", JInt(|rows|))])) + ("\n" + JoinLines(lines))
      && LinesOf(lines, rows, policy)
  }

  ghost predicate LinesOf(lines: seq<string>, rows: seq<Row>, policy: ResultPolicy) {
    var each := seq(|rows|, i requires 0 <= i < |rows| => Print(RowJson(StoreRow(rows[i]))));
    if policy.ordered then lines == each
    else multiset(lines) == multiset(each)
         && forall i, j :: 0 <= i < j < |lines| ==> Text.LessEq(lines[i], lines[j])
  }

  lemma LinesAre(rows: seq<Row>, policy: ResultPolicy)
    ensures LinesOf(Arranged(policy, RowTexts(StoreRows(rows))), rows, policy)
  {
    var texts := RowTexts(StoreRows(rows));
    var each := seq(|rows|, i requires 0 <= i < |rows| => Print(RowJson(StoreRow(rows[i]))));
    assert texts == each;
    hide RowTexts, StoreRows, Print, RowJson, StoreRow;
    if !policy.ordered {
      Sorting.SortMultiset(ItsText(), texts);
      Sorting.SortSorted(ItsText(), texts);
      var lines := Sorting.SortBy(ItsText(), texts);
      forall i, j | 0 <= i < j < |lines| ensures Text.LessEq(lines[i], lines[j]) {
        assert Text.LessEq(ItsText()(lines[i]), ItsText()(lines[j]));
      }
    }
  }

  lemma TextIs(rows: seq<Row>, columns: nat, policy: ResultPolicy)
    ensures TextOf(CanonicalText(policy, columns, RowTexts(StoreRows(rows))), rows, columns, policy)
  {
    LinesAre(rows, policy);
    var lines := Arranged(policy, RowTexts(StoreRows(rows)));
    assert |RowTexts(StoreRows(rows))| == |rows|;
    hide Print, LinesOf, Arranged, RowTexts, StoreRows;
    assert CanonicalText(policy, columns, RowTexts(StoreRows(rows)))
        == Print(HeaderJson(policy, columns, |rows|)) + ("\n" + JoinLines(lines));
  }

  /** The counts and the text of an accepted result. */
  lemma ResultMeans(h: Hash, rows: seq<Row>, policy: ResultPolicy, projection: Option<int>, cursor: Option<nat>)
    requires Canonicalize(h, rows, policy, projection, cursor).Ok?
    ensures var r := Canonicalize(h, rows, policy, projection, cursor).value;
            && r.rowCount == |rows|
            && ColumnsOf(r.columnCount, rows, projection, cursor)
            && r.cellCount == |rows| * r.columnCount
            && TextOf(r.text, rows, r.columnCount, policy)
            && r.digest == h(Frame("planrace/2:exact-result", Utf8(r.text)))
  {
    var r := Canonicalize(h, rows, policy, projection, cursor).value;
    CanonicalizeResultIs(h, rows, policy, projection, cursor);
    TextIs(rows, r.columnCount, policy);
    CountsAre(h, rows, policy, projection, cursor);
    hide Canonicalize, CanonicalText, RowTexts, StoreRows, TextOf, Frame, Utf8, Uniform;
  }

  lemma {:induction false} CellsAdded(p: Progress, rows: seq<Row>, policy: ResultPolicy)
    requires AddRows(p, rows, policy).Ok?
    ensures var q := AddRows(p, rows, policy).value;
            && q.columns == WidthOf(p.columns, rows)
            && (rows != [] ==> q.columns.Some? && q.cells == p.cells + |rows| * q.columns.value)
            && (rows == [] ==> q.cells == p.cells)
    decreases |rows|
  {
    hide Supported, RowText, StoreRow, Utf8;
    if rows != [] {
      var next := AddRow(p, rows[0], policy).value;
      CellsAdded(next, rows[1..], policy);
      CellsCons(|rows|, |rows[0]|);
      hide AddRow;
    }
  }

  lemma CountsAre(h: Hash, rows: seq<Row>, policy: ResultPolicy, projection: Option<int>, cursor: Option<nat>)
    requires Canonicalize(h, rows, policy, projection, cursor).Ok?
    ensures var r := Canonicalize(h, rows, policy, projection, cursor).value;
            ColumnsOf(r.columnCount, rows, projection, cursor) && r.cellCount == |rows| * r.columnCount
  {
    hide *;
    CanonicalizeSteps(h, rows, policy, projection, cursor);
    var columns := KnownColumns(projection, cursor, policy).value;
    var q := AddRows(Progress([], columns, 0, 0), rows, policy).value;
    CellsAdded(Progress([], columns, 0, 0), rows, policy);
    FinishCells(h, q, policy);
    KnownWidth(rows, projection, cursor, policy, q.columns.value);
    if rows == [] { NoCells(q.columns.value); }
  }

  lemma NoCells(n: nat)
    ensures 0 * n == 0
  {
  }

  lemma KnownWidth(rows: seq<Row>, projection: Option<int>, cursor: Option<nat>, policy: ResultPolicy, n: nat)
    requires KnownColumns(projection, cursor, policy).Ok?
    requires WidthOf(KnownColumns(projection, cursor, policy).value, rows) == Some(n)
    ensures ColumnsOf(n, rows, projection, cursor)
  {
  }

  lemma FinishCells(h: Hash, p: Progress, policy: ResultPolicy)
    requires Finish(h, p, policy).Ok?
    ensures p.columns.Some? && Finish(h, p, policy).value.columnCount == p.columns.value
    ensures Finish(h, p, policy).value.cellCount == p.cells
  {
    hide CanonicalText, ResultDigest, Utf8;
  }

  /** Why a column count from outside is refused. */
  lemma ColumnsRefusedIff(projection: Option<int>, cursor: Option<nat>, policy: ResultPolicy)
    ensures var r := KnownColumns(projection, cursor, policy);
            && (r == Err(NegativeProjection) <==> projection.Some? && projection.value < 0)
            && (r == Err(CellLimit) <==> projection.Some? && projection.value > policy.maxCells)
            && (r == Err(ProjectionDisagrees) <==>
                  projection.Some? && 0 <= projection.value <= policy.maxCells
                  && cursor.Some? && cursor.value != projection.value)
  {
  }

  // ----- an example ----------------------------------------------------------

  /** A cell of every kind. */
  lemma CellsExample()
    ensures CellJson(Store(NoneValue)) == JArray([JString("null"), JString("")])
    ensures CellJson(Store(BoolValue(true))) == JArray([JString("integer"), JString("1")])
    ensures CellJson(Store(IntValue(-305))) == JArray([JString("integer"), JString("-305")])
    ensures CellJson(Store(FloatValue("0x1.8p+0"))) == JArray([JString("float64"), JString("0x1.8p+0")])
    ensures CellJson(Store(StrValue("x"))) == JArray([JString("string"), JString("x")])
    ensures CellJson(Store(BytesValue([102, 111, 111, 98]))) == JArray([JString("blob-base64"), JString("Zm9vYg==")])
  {
    FormatExamples.ScalarsExample();
    FormatExamples.Base64Example();
    assert Integer(1) == "1" && Integer(-305) == "-305";
    hide Integer, Base64.Encode;
  }
}
