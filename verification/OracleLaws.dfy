/** Soundness and completeness of the exact-result oracle. */
module OracleLaws {
  import opened Wrappers
  import opened Json
  import opened Hashing
  import opened Oracle
  import Base64
  import Sorting
  import Text

  // ----- rows ----------------------------------------------------------------

  lemma CellInjective(a: Stored, b: Stored)
    requires CellJson(a) == CellJson(b)
    ensures a == b
  {
    var x, y := CellJson(a).items, CellJson(b).items;
    assert x[0] == y[0] && x[1] == y[1];
    assert |"null"| == 4 && |"integer"| == 7 && |"float64"| == 7 && |"string"| == 6 && |"blob-base64"| == 11;
    assert "integer"[0] == 'i' && "float64"[0] == 'f';
    hide Integer, Base64.Encode;
    if a.StoredInteger? && b.StoredInteger? {
      assert Integer(a.number) + [] == Integer(b.number) + [];
      IntegerSplit(a.number, b.number, [], []);
    } else if a.StoredBlob? && b.StoredBlob? {
      Base64.EncodeInjective(a.bytes, b.bytes);
    }
  }

  lemma RowJsonInjective(a: seq<Stored>, b: seq<Stored>)
    requires RowJson(a) == RowJson(b)
    ensures a == b
  {
    hide CellJson;
    var f := (c: Stored) => CellJson(c);
    forall u: Stored, v: Stored | f(u) == f(v) ensures u == v { CellInjective(u, v); }
    assert RowJson(a).items == Mapped(f, a) && RowJson(b).items == Mapped(f, b);
    MappedInjective(f, a, b);
  }

  lemma RowTextSeparates()
    ensures Sorting.Separates(RowText())
  {
    hide RowJson, Print;
    forall a: seq<Stored>, b: seq<Stored> | RowText()(a) == RowText()(b) ensures a == b {
      PrintInjective(RowJson(a), RowJson(b));
      RowJsonInjective(a, b);
    }
  }

  lemma RowTextsInjective(a: seq<seq<Stored>>, b: seq<seq<Stored>>)
    requires RowTexts(a) == RowTexts(b)
    ensures a == b
  {
    RowTextSeparates();
    hide RowText;
    assert |RowTexts(a)| == |a| && |RowTexts(b)| == |b|;
    forall i | 0 <= i < |a| ensures a[i] == b[i] {
      assert RowTexts(a)[i] == RowText()(a[i]) && RowTexts(b)[i] == RowText()(b[i]);
    }
  }

  // ----- sorting rows or their texts -----------------------------------------

  lemma {:induction false} InsertText(row: seq<Stored>, rows: seq<seq<Stored>>)
    ensures Sorting.Insert(ItsText(), RowText()(row), RowTexts(rows))
         == RowTexts(Sorting.Insert(RowText(), row, rows))
  {
    hide RowText;
    var lines := RowTexts(rows);
    if rows == [] {
      assert RowTexts([row]) == [RowText()(row)] + RowTexts([]);
    } else {
      assert lines[0] == RowText()(rows[0]) && lines[1..] == RowTexts(rows[1..]);
      if Text.LessEq(RowText()(row), lines[0]) {
        assert ([row] + rows)[1..] == rows;
      } else {
        InsertText(row, rows[1..]);
        var rest := Sorting.Insert(RowText(), row, rows[1..]);
        assert ([rows[0]] + rest)[1..] == rest;
      }
    }
  }

  lemma {:induction false} SortTexts(rows: seq<seq<Stored>>)
    ensures Sorting.SortBy(ItsText(), RowTexts(rows)) == RowTexts(Sorting.SortBy(RowText(), rows))
  {
    hide RowText;
    if rows != [] {
      var lines := RowTexts(rows);
      assert lines[0] == RowText()(rows[0]) && lines[1..] == RowTexts(rows[1..]);
      SortTexts(rows[1..]);
      InsertText(rows[0], Sorting.SortBy(RowText(), rows[1..]));
    }
  }

  /** Equality of results: same sequence when ordered, same multiset when not. */
  ghost predicate SameRows(policy: ResultPolicy, a: seq<seq<Stored>>, b: seq<seq<Stored>>) {
    if policy.ordered then a == b else multiset(a) == multiset(b)
  }

  lemma ArrangedIff(policy: ResultPolicy, a: seq<seq<Stored>>, b: seq<seq<Stored>>)
    ensures Arranged(policy, RowTexts(a)) == Arranged(policy, RowTexts(b)) <==> SameRows(policy, a, b)
  {
    hide RowText;
    if policy.ordered {
      if RowTexts(a) == RowTexts(b) { RowTextsInjective(a, b); }
    } else {
      RowTextSeparates();
      SortTexts(a);
      SortTexts(b);
      var x, y := Sorting.SortBy(RowText(), a), Sorting.SortBy(RowText(), b);
      if RowTexts(x) == RowTexts(y) { RowTextsInjective(x, y); }
      Sorting.SortIsNormalForm(RowText(), a, b);
    }
  }

  // ----- lines ---------------------------------------------------------------

  lemma LineSplit(a: string, b: string, x: string, y: string)
    requires OneLine(a) && OneLine(b) && a + ("\n" + x) == b + ("\n" + y)
    ensures a == b && x == y
  {
    if |a| < |b| {
      NewlineAt(a, b, x, y);
      assert false;
    } else if |b| < |a| {
      NewlineAt(b, a, y, x);
      assert false;
    } else {
      SameLengthSplit(a, b, "\n" + x, "\n" + y);
      SameLengthSplit("\n", "\n", x, y);
    }
  }

  lemma NewlineAt(a: string, b: string, x: string, y: string)
    requires |a| < |b| && a + ("\n" + x) == b + ("\n" + y)
    ensures b[|a|] == '\n'
  {
    assert (a + ("\n" + x))[|a|] == '\n' && (b + ("\n" + y))[|a|] == b[|a|];
  }

  ghost predicate Lines(lines: seq<string>) {
    forall i :: 0 <= i < |lines| ==> OneLine(lines[i])
  }

  lemma {:induction false} JoinSplit(a: seq<string>, b: seq<string>)
    requires |a| == |b| && Lines(a) && Lines(b) && JoinLines(a) == JoinLines(b)
    ensures a == b
  {
    if |a| == 1 {
      assert a == [a[0]] && b == [b[0]];
    } else if |a| > 1 {
      LineSplit(a[0], b[0], JoinLines(a[1..]), JoinLines(b[1..]));
      JoinSplit(a[1..], b[1..]);
      assert a == [a[0]] + a[1..] && b == [b[0]] + b[1..];
    }
  }

  lemma RowTextsAreLines(rows: seq<seq<Stored>>)
    ensures Lines(RowTexts(rows))
  {
    hide Print, OneLine;
    forall i | 0 <= i < |rows| ensures OneLine(RowTexts(rows)[i]) {
      PrintOneLine(RowJson(rows[i]));
    }
  }

  lemma ArrangedLines(policy: ResultPolicy, rows: seq<seq<Stored>>)
    ensures Lines(Arranged(policy, RowTexts(rows)))
  {
    if policy.ordered {
      RowTextsAreLines(rows);
    } else {
      SortTexts(rows);
      RowTextsAreLines(Sorting.SortBy(RowText(), rows));
    }
  }

  lemma HeaderInjective(policy: ResultPolicy, c: nat, n: nat, c': nat, n': nat)
    requires HeaderJson(policy, c, n) == HeaderJson(policy, c', n')
    ensures c == c' && n == n'
  {
    var x, y := HeaderJson(policy, c, n).fields, HeaderJson(policy, c', n').fields;
    assert x[1] == y[1] && x[5] == y[5];
  }

  lemma CanonicalTextIff(policy: ResultPolicy, c: nat, a: seq<seq<Stored>>, c': nat, b: seq<seq<Stored>>)
    ensures CanonicalText(policy, c, RowTexts(a)) == CanonicalText(policy, c', RowTexts(b))
       <==> c == c' && SameRows(policy, a, b)
  {
    var x, y := Arranged(policy, RowTexts(a)), Arranged(policy, RowTexts(b));
    var u, v := HeaderJson(policy, c, |a|), HeaderJson(policy, c', |b|);
    assert CanonicalText(policy, c, RowTexts(a)) == Print(u) + ("\n" + JoinLines(x));
    assert CanonicalText(policy, c', RowTexts(b)) == Print(v) + ("\n" + JoinLines(y));
    assert |x| == |a| && |y| == |b|;
    hide *;
    ArrangedIff(policy, a, b);
    ArrangedLines(policy, a);
    ArrangedLines(policy, b);
    PrintOneLine(u);
    PrintOneLine(v);
    if Print(u) + ("\n" + JoinLines(x)) == Print(v) + ("\n" + JoinLines(y)) {
      LineSplit(Print(u), Print(v), JoinLines(x), JoinLines(y));
      PrintInjective(u, v);
      HeaderInjective(policy, c, |a|, c', |b|);
      JoinSplit(x, y);
    }
  }

  lemma DigestIff(h: Hash, x: string, y: string)
    requires CollisionFree(h)
    ensures ResultDigest(h, x) == ResultDigest(h, y) <==> x == y
  {
    hide Frame, Utf8;
    if ResultDigest(h, x) == ResultDigest(h, y) {
      assert Frame(RESULT_DOMAIN, Utf8(x)) == Frame(RESULT_DOMAIN, Utf8(y));
      FrameInjective(RESULT_DOMAIN, Utf8(x), RESULT_DOMAIN, Utf8(y));
      Utf8Injective(x, y);
    }
  }

  // ----- what the loop accepts -----------------------------------------------

  ghost predicate Uniform(rows: seq<Row>, columns: nat) {
    forall i :: 0 <= i < |rows| ==> |rows[i]| == columns && Supported(rows[i])
  }

  function TotalSize(lines: seq<string>): nat {
    if lines == [] then 0 else |Utf8(lines[0])| + TotalSize(lines[1..])
  }

  /** The width every row must have. */
  function WidthOf(columns: Option<nat>, rows: seq<Row>): Option<nat> {
    if columns.Some? || rows == [] then columns else Some(|rows[0]|)
  }

  /** `q` is `p` after reading `rows`. */
  ghost predicate Read(p: Progress, rows: seq<Row>, q: Progress) {
    var w := WidthOf(p.columns, rows);
    && (rows != [] ==> w.Some? && Uniform(rows, w.value))
    && q.lines == p.lines + RowTexts(StoreRows(rows))
    && q.columns == w
  }

  lemma ReadNothing(p: Progress, rows: seq<Row>)
    requires rows == []
    ensures Read(p, rows, p)
  {
    assert p.lines + [] == p.lines;
  }

  lemma ReadCons(p: Progress, rows: seq<Row>, next: Progress, q: Progress)
    requires rows != [] && Supported(rows[0])
    requires next.lines == p.lines + [RowText()(StoreRow(rows[0]))] && next.columns == Some(|rows[0]|)
    requires p.columns.Some? ==> p.columns == Some(|rows[0]|)
    requires Read(next, rows[1..], q)
    ensures Read(p, rows, q)
  {
    var rest, width := rows[1..], |rows[0]|;
    assert WidthOf(next.columns, rest) == Some(width) && WidthOf(p.columns, rows) == Some(width);
    assert rest != [] ==> Uniform(rest, width);
    assert q.columns == Some(width) && q.lines == next.lines + RowTexts(StoreRows(rest));
    hide *;
    LinesCons(p.lines, rows);
    UniformCons(rows);
    ReadFrom(p, rows, q, width);
  }

  lemma LinesCons(lines: seq<string>, rows: seq<Row>)
    requires rows != []
    ensures (lines + [RowText()(StoreRow(rows[0]))]) + RowTexts(StoreRows(rows[1..]))
         == lines + RowTexts(StoreRows(rows))
  {
    RowTextsCons(rows);
  }

  lemma ReadFrom(p: Progress, rows: seq<Row>, q: Progress, width: nat)
    requires WidthOf(p.columns, rows) == Some(width) && Uniform(rows, width)
    requires q.columns == Some(width) && q.lines == p.lines + RowTexts(StoreRows(rows))
    ensures Read(p, rows, q)
  {
    hide WidthOf, Uniform, RowTexts, StoreRows;
  }

  lemma AddRowsStep(p: Progress, rows: seq<Row>, policy: ResultPolicy)
    requires rows != [] && AddRows(p, rows, policy).Ok?
    ensures AddRow(p, rows[0], policy).Ok?
    ensures AddRows(p, rows, policy) == AddRows(AddRow(p, rows[0], policy).value, rows[1..], policy)
  {
    hide AddRow;
  }

  lemma {:induction false} AddRowsResult(p: Progress, rows: seq<Row>, policy: ResultPolicy)
    requires AddRows(p, rows, policy).Ok?
    ensures Read(p, rows, AddRows(p, rows, policy).value)
    decreases |rows|
  {
    if rows == [] {
      assert AddRows(p, rows, policy).value == p;
      hide *;
      ReadNothing(p, rows);
    } else {
      hide *;
      AddRowsStep(p, rows, policy);
      var next := AddRow(p, rows[0], policy).value;
      AddRowResult(p, rows[0], policy);
      AddRowsResult(next, rows[1..], policy);
      ReadCons(p, rows, next, AddRows(next, rows[1..], policy).value);
    }
  }

  lemma AddRowResult(p: Progress, row: Row, policy: ResultPolicy)
    requires AddRow(p, row, policy).Ok?
    ensures var q := AddRow(p, row, policy).value;
            && q.lines == p.lines + [RowText()(StoreRow(row))] && q.columns == Some(|row|)
            && (p.columns.Some? ==> p.columns == Some(|row|)) && Supported(row)
  {
    hide RowText, StoreRow, Supported, Utf8;
  }

  lemma RowTextsCons(rows: seq<Row>)
    requires rows != []
    ensures RowTexts(StoreRows(rows)) == [RowText()(StoreRow(rows[0]))] + RowTexts(StoreRows(rows[1..]))
  {
    hide RowText, StoreRow;
    assert StoreRows(rows)[1..] == StoreRows(rows[1..]);
  }

  lemma UniformCons(rows: seq<Row>)
    requires rows != [] && Supported(rows[0]) && (rows[1..] != [] ==> Uniform(rows[1..], |rows[0]|))
    ensures Uniform(rows, |rows[0]|)
  {
    hide Supported;
    forall i | 0 <= i < |rows| ensures |rows[i]| == |rows[0]| && Supported(rows[i]) {
      if i > 0 { assert rows[i] == rows[1..][i - 1]; }
    }
  }

  /** What an accepted result consists of. */
  ghost predicate Describes(h: Hash, r: CanonicalResult, rows: seq<Row>, policy: ResultPolicy) {
    && r.text == CanonicalText(policy, r.columnCount, RowTexts(StoreRows(rows)))
    && r.digest == ResultDigest(h, r.text)
    && r.rowCount == |rows| && Uniform(rows, r.columnCount)
  }

  lemma CanonicalizeResultIs(
      h: Hash, rows: seq<Row>, policy: ResultPolicy, projection: Option<int>, cursor: Option<nat>)
    requires Canonicalize(h, rows, policy, projection, cursor).Ok?
    ensures Describes(h, Canonicalize(h, rows, policy, projection, cursor).value, rows, policy)
  {
    hide *;
    CanonicalizeSteps(h, rows, policy, projection, cursor);
    var start := Progress([], KnownColumns(projection, cursor, policy).value, 0, 0);
    AddRowsResult(start, rows, policy);
    FinishDescribes(h, start, rows, AddRows(start, rows, policy).value, policy);
  }

  lemma FinishDescribes(h: Hash, start: Progress, rows: seq<Row>, p: Progress, policy: ResultPolicy)
    requires start.lines == [] && Read(start, rows, p) && Finish(h, p, policy).Ok?
    ensures Describes(h, Finish(h, p, policy).value, rows, policy)
  {
    FinishIs(h, p, policy);
    RowCount(rows);
    hide Finish, CanonicalText, ResultDigest, RowTexts, StoreRows, Uniform;
    assert p.lines == RowTexts(StoreRows(rows)) by {
      assert [] + RowTexts(StoreRows(rows)) == RowTexts(StoreRows(rows));
    }
    if rows == [] { EmptyUniform(rows, p.columns); }
  }

  lemma EmptyUniform(rows: seq<Row>, columns: Option<nat>)
    requires rows == []
    ensures columns.Some? ==> Uniform(rows, columns.value)
  {
  }

  lemma RowCount(rows: seq<Row>)
    ensures |RowTexts(StoreRows(rows))| == |rows|
  {
  }

  lemma CanonicalizeSteps(h: Hash, rows: seq<Row>, policy: ResultPolicy, projection: Option<int>, cursor: Option<nat>)
    requires Canonicalize(h, rows, policy, projection, cursor).Ok?
    ensures KnownColumns(projection, cursor, policy).Ok?
    ensures var added := AddRows(Progress([], KnownColumns(projection, cursor, policy).value, 0, 0), rows, policy);
            added.Ok? && Finish(h, added.value, policy) == Canonicalize(h, rows, policy, projection, cursor)
  {
    hide KnownColumns, AddRows, Finish;
  }

  lemma FinishIs(h: Hash, p: Progress, policy: ResultPolicy)
    requires Finish(h, p, policy).Ok?
    ensures p.columns.Some?
    ensures var r := Finish(h, p, policy).value;
            && r.columnCount == p.columns.value && r.rowCount == |p.lines|
            && r.text == CanonicalText(policy, r.columnCount, p.lines) && r.digest == ResultDigest(h, r.text)
  {
    hide CanonicalText, ResultDigest, Utf8;
  }

  lemma FinishIff(h: Hash, p: Progress, policy: ResultPolicy)
    ensures Finish(h, p, policy).Ok? <==>
            p.columns.Some? && |Utf8(CanonicalText(policy, p.columns.value, p.lines))| <= policy.maxOutputBytes
  {
    hide CanonicalText, ResultDigest, Utf8;
  }

  /** Two accepted results have equal digests exactly when they have the same number of
      columns and the same rows, in order or as multisets, after storing Booleans as
      integers; duplicates count. */
  lemma DigestsAgreeIff(
      h: Hash, a: seq<Row>, b: seq<Row>, policy: ResultPolicy,
      projection: Option<int>, cursor: Option<nat>, projection': Option<int>, cursor': Option<nat>)
    requires CollisionFree(h)
    requires Canonicalize(h, a, policy, projection, cursor).Ok?
    requires Canonicalize(h, b, policy, projection', cursor').Ok?
    ensures var x := Canonicalize(h, a, policy, projection, cursor).value;
            var y := Canonicalize(h, b, policy, projection', cursor').value;
            x.digest == y.digest <==>
              x.columnCount == y.columnCount && SameRows(policy, StoreRows(a), StoreRows(b))
  {
    CanonicalizeResultIs(h, a, policy, projection, cursor);
    CanonicalizeResultIs(h, b, policy, projection', cursor');
    hide Canonicalize, CanonicalText, ResultDigest, RowTexts, StoreRows, Uniform, SameRows, CollisionFree;
    var x := Canonicalize(h, a, policy, projection, cursor).value;
    var y := Canonicalize(h, b, policy, projection', cursor').value;
    DigestIff(h, x.text, y.text);
    CanonicalTextIff(policy, x.columnCount, StoreRows(a), y.columnCount, StoreRows(b));
  }

  /** `exact_results_equal` decides equality of results. */
  lemma ExactResultsEqualIff(
      h: Hash, reference: seq<Row>, candidate: seq<Row>, policy: ResultPolicy, projection: Option<int>,
      referenceCursor: Option<nat>, candidateCursor: Option<nat>)
    requires CollisionFree(h)
    requires ExactResultsEqual(h, reference, candidate, policy, projection, referenceCursor, candidateCursor).Ok?
    ensures var x := Canonicalize(h, reference, policy, projection, referenceCursor);
            var y := Canonicalize(h, candidate, policy, projection, candidateCursor);
            && x.Ok? && y.Ok?
            && (ExactResultsEqual(h, reference, candidate, policy, projection, referenceCursor, candidateCursor).value
                <==> x.value.columnCount == y.value.columnCount
                     && SameRows(policy, StoreRows(reference), StoreRows(candidate)))
  {
    hide Canonicalize, CollisionFree, SameRows, StoreRows;
    DigestsAgreeIff(h, reference, candidate, policy, projection, referenceCursor, projection, candidateCursor);
  }

  // ----- exactly the results within the limits -------------------------------

  lemma Utf8Cons(c: char, s: string)
    ensures Utf8([c] + s) == Utf8Char(c) + Utf8(s)
  {
    hide Utf8Char;
    assert ([c] + s)[1..] == s;
  }

  lemma {:induction false} Utf8Append(s: string, t: string)
    ensures Utf8(s + t) == Utf8(s) + Utf8(t)
  {
    if s == [] {
      assert Utf8(s) == [];
      hide *;
      assert s + t == t;
      assert [] + Utf8(t) == Utf8(t);
    } else {
      hide *;
      var rest := s[1..];
      assert s == [s[0]] + rest && s + t == [s[0]] + (rest + t);
      Utf8Cons(s[0], rest);
      Utf8Cons(s[0], rest + t);
      Utf8Append(rest, t);
      assert Utf8Char(s[0]) + (Utf8(rest) + Utf8(t)) == (Utf8Char(s[0]) + Utf8(rest)) + Utf8(t);
    }
  }

  lemma {:induction false} JoinedSize(lines: seq<string>)
    ensures TotalSize(lines) <= |Utf8(JoinLines(lines))|
  {
    hide Utf8;
    if |lines| == 1 {
      assert TotalSize(lines[1..]) == 0;
    } else if |lines| > 1 {
      JoinedSize(lines[1..]);
      Utf8Append(lines[0], "\n" + JoinLines(lines[1..]));
      Utf8Append("\n", JoinLines(lines[1..]));
    }
  }

  lemma {:induction false} InsertedSize(line: string, lines: seq<string>)
    ensures TotalSize(Sorting.Insert(ItsText(), line, lines)) == |Utf8(line)| + TotalSize(lines)
  {
    hide Utf8;
    if lines == [] || Text.LessEq(line, lines[0]) {
      assert ([line] + lines)[1..] == lines;
    } else {
      InsertedSize(line, lines[1..]);
      var rest := Sorting.Insert(ItsText(), line, lines[1..]);
      assert ([lines[0]] + rest)[1..] == rest;
    }
  }

  lemma {:induction false} SortedSize(lines: seq<string>)
    ensures TotalSize(Sorting.SortBy(ItsText(), lines)) == TotalSize(lines)
  {
    hide Utf8;
    if lines != [] {
      SortedSize(lines[1..]);
      InsertedSize(lines[0], Sorting.SortBy(ItsText(), lines[1..]));
    }
  }

  lemma CanonicalSize(policy: ResultPolicy, columns: nat, lines: seq<string>)
    ensures TotalSize(lines) <= |Utf8(CanonicalText(policy, columns, lines))|
  {
    var header, body := Print(HeaderJson(policy, columns, |lines|)), JoinLines(Arranged(policy, lines));
    assert CanonicalText(policy, columns, lines) == header + ("\n" + body);
    assert TotalSize(Arranged(policy, lines)) == TotalSize(lines) by {
      if !policy.ordered { SortedSize(lines); }
    }
    hide *;
    Utf8Append(header, "\n" + body);
    Utf8Append("\n", body);
    JoinedSize(Arranged(policy, lines));
  }

  /** When the remaining rows pass every check of the loop. */
  ghost predicate Fits(p: Progress, rows: seq<Row>, policy: ResultPolicy) {
    rows != [] ==>
      var w := WidthOf(p.columns, rows);
      && w.Some? && Uniform(rows, w.value)
      && |p.lines| + |rows| <= policy.maxRows
      && p.cells + |rows| * w.value <= policy.maxCells
      && p.size + TotalSize(RowTexts(StoreRows(rows))) <= policy.maxOutputBytes
  }

  lemma FitsCons(p: Progress, rows: seq<Row>, policy: ResultPolicy)
    requires rows != []
    ensures Fits(p, rows, policy) <==>
            AddRow(p, rows[0], policy).Ok? && Fits(AddRow(p, rows[0], policy).value, rows[1..], policy)
  {
    hide RowText, Supported, Utf8;
    var rest, w := rows[1..], |rows[0]|;
    var line := RowText()(StoreRow(rows[0]));
    assert RowTexts(StoreRows(rows)) == [line] + RowTexts(StoreRows(rest)) by {
      assert StoreRows(rows)[1..] == StoreRows(rest);
    }
    var lines := RowTexts(StoreRows(rows));
    assert lines[0] == line && lines[1..] == RowTexts(StoreRows(rest));
    assert TotalSize(lines) == |Utf8(line)| + TotalSize(RowTexts(StoreRows(rest)));
    hide RowTexts, StoreRows, StoreRow, TotalSize;
    if Fits(p, rows, policy) {
      assert |rows[0]| == w && Supported(rows[0]);
      CellsCons(|rows|, w);
      assert AddRow(p, rows[0], policy).Ok?;
      forall i | 0 <= i < |rest| ensures |rest[i]| == w && Supported(rest[i]) { assert rest[i] == rows[i + 1]; }
    }
    if AddRow(p, rows[0], policy).Ok? && Fits(AddRow(p, rows[0], policy).value, rest, policy) {
      CellsCons(|rows|, w);
      assert rest == [] ==> TotalSize(RowTexts(StoreRows(rest))) == 0 by {
        if rest == [] { NoLines(rest); }
      }
      forall i | 0 <= i < |rows| ensures |rows[i]| == w && Supported(rows[i]) {
        if i > 0 { assert rows[i] == rest[i - 1]; }
      }
    }
  }

  lemma NoLines(rows: seq<Row>)
    requires rows == []
    ensures TotalSize(RowTexts(StoreRows(rows))) == 0
  {
  }

  lemma CellsCons(n: nat, w: nat)
    requires n > 0
    ensures n * w == w + (n - 1) * w
    ensures n * w >= w
  {
    assert (n - 1) * w >= 0;
  }

  lemma {:induction false} AddRowsIff(p: Progress, rows: seq<Row>, policy: ResultPolicy)
    ensures AddRows(p, rows, policy).Ok? <==> Fits(p, rows, policy)
    decreases |rows|
  {
    if rows != [] {
      FitsCons(p, rows, policy);
      hide AddRow, Fits;
      if AddRow(p, rows[0], policy).Ok? { AddRowsIff(AddRow(p, rows[0], policy).value, rows[1..], policy); }
    }
  }

  /** What the policy admits, said without the order of the checks: a column count known
      from the caller, the cursor or the first row, uniform supported rows, and the three
      limits on rows, cells and bytes of the final text. */
  ghost predicate Admissible(rows: seq<Row>, policy: ResultPolicy, columns: Option<nat>) {
    var w := WidthOf(columns, rows);
    && w.Some? && Uniform(rows, w.value)
    && (rows != [] ==> |rows| <= policy.maxRows && |rows| * w.value <= policy.maxCells)
    && |Utf8(CanonicalText(policy, w.value, RowTexts(StoreRows(rows))))| <= policy.maxOutputBytes
  }

  /** The oracle accepts exactly the admissible results. */
  lemma AcceptsIff(h: Hash, rows: seq<Row>, policy: ResultPolicy, projection: Option<int>, cursor: Option<nat>)
    requires KnownColumns(projection, cursor, policy).Ok?
    ensures Canonicalize(h, rows, policy, projection, cursor).Ok? <==>
            Admissible(rows, policy, KnownColumns(projection, cursor, policy).value)
  {
    var columns := KnownColumns(projection, cursor, policy).value;
    var start := Progress([], columns, 0, 0);
    assert Canonicalize(h, rows, policy, projection, cursor).Ok? <==>
           AddRows(start, rows, policy).Ok? && Finish(h, AddRows(start, rows, policy).value, policy).Ok?;
    hide *;
    AddRowsIff(start, rows, policy);
    if AddRows(start, rows, policy).Ok? {
      AddRowsResult(start, rows, policy);
      ReadAdmissible(h, start, rows, AddRows(start, rows, policy).value, policy);
    } else if Admissible(rows, policy, start.columns) {
      AdmissibleFits(start, rows, policy);
    }
  }

  lemma ReadAdmissible(h: Hash, start: Progress, rows: seq<Row>, p: Progress, policy: ResultPolicy)
    requires start.lines == [] && start.cells == 0 && start.size == 0
    requires Fits(start, rows, policy) && Read(start, rows, p)
    ensures Finish(h, p, policy).Ok? <==> Admissible(rows, policy, start.columns)
  {
    var lines := RowTexts(StoreRows(rows));
    hide RowTexts, CanonicalText, Utf8, StoreRows, TotalSize, Finish;
    FinishIff(h, p, policy);
    assert [] + lines == lines;
  }

  lemma AdmissibleFits(start: Progress, rows: seq<Row>, policy: ResultPolicy)
    requires start.lines == [] && start.cells == 0 && start.size == 0
    requires Admissible(rows, policy, start.columns)
    ensures Fits(start, rows, policy)
  {
    hide RowTexts, CanonicalText, Utf8, StoreRows, TotalSize;
    var w := WidthOf(start.columns, rows).value;
    CanonicalSize(policy, w, RowTexts(StoreRows(rows)));
  }
}
