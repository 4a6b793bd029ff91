/** The DDL that `compile_index_sql` emits (planrace/models_v2.py:276-328), and a parser
    that reads every part of it back. */
module IndexSql {
  import opened Wrappers
  import opened Json
  import opened Hashing
  import opened Indexes

  // ----- well-formed specifications ------------------------------------------

  predicate IsWord(c: char) {
    'a' <= c <= 'z' || 'A' <= c <= 'Z' || '0' <= c <= '9' || c == '_'
  }

  /** The ASCII identifier grammar; the index name may be longer than 63 letters. */
  predicate Identifier(s: string) {
    s != [] && !IsDigit(s[0]) && forall i :: 0 <= i < |s| ==> IsWord(s[i])
  }

  predicate DistinctNames(names: seq<string>) {
    forall i, j :: 0 <= i < j < |names| ==> names[i] != names[j]
  }

  function KeyNames(keys: seq<IndexColumn>): (r: seq<string>)
    ensures |r| == |keys|
  {
    if keys == [] then [] else [keys[0].column] + KeyNames(keys[1..])
  }

  predicate ValidAtoms(atoms: seq<Atom>) {
    forall a :: a in atoms ==> a.Valid() && Identifier(a.column)
  }

  /** What the constructors of the AST enforce. */
  predicate ValidSpec(s: IndexSpec) {
    && Identifier(s.table)
    && 1 <= |s.keyColumns| <= 8 && |s.includeColumns| <= 8
    && (forall c :: c in s.keyColumns ==> Identifier(c.column))
    && (forall c :: c in s.includeColumns ==> Identifier(c))
    && DistinctNames(KeyNames(s.keyColumns) + s.includeColumns)
    && (s.unique ==> s.includeColumns == [])
    && (s.condition.Some? ==> 1 <= |s.condition.value| <= 8 && ValidAtoms(s.condition.value))
  }

  // ----- the compiler --------------------------------------------------------

  function QuoteIdentifier(s: string): string {
    "\"" + (s + "\"")
  }

  function DoubleQuotes(s: string): string {
    if s == [] then [] else (if s[0] == '\'' then "''" else [s[0]]) + DoubleQuotes(s[1..])
  }

  function CompileLiteral(v: Literal): string
    requires !v.NullLiteral?
  {
    match v
    case IntegerLiteral(n) => Integer(n)
    case BooleanLiteral(b) => if b then "1" else "0"
    case TextLiteral(s) => "'" + (DoubleQuotes(s) + "'")
  }

  function OperatorText(op: Operator): string {
    match op
    case Eq => " = " case Ne => " != " case Lt => " < " case Lte => " <= " case Gt => " > " case Gte => " >= "
    case IsNull => " IS NULL" case IsNotNull => " IS NOT NULL"
  }

  function OperandText(a: Atom): string
    requires a.Valid()
  {
    if a.value.NullLiteral? then "" else CompileLiteral(a.value)
  }

  function CompilePredicate(a: Atom): string
    requires a.Valid()
  {
    QuoteIdentifier(a.column) + (OperatorText(a.operator) + OperandText(a))
  }

  /** The atoms joined with `AND`. */
  function CompileAtoms(atoms: seq<Atom>): string
    requires atoms != [] && ValidAtoms(atoms)
  {
    assert atoms[0] in atoms;
    CompilePredicate(atoms[0]) + (if |atoms| == 1 then "" else " AND " + CompileAtoms(atoms[1..]))
  }

  /** One entry of the column list; covering columns carry no direction. */
  datatype Column = Column(name: string, direction: Option<Direction>)

  function KeyEntries(keys: seq<IndexColumn>): (r: seq<Column>)
    ensures |r| == |keys|
  {
    if keys == [] then [] else [Column(keys[0].column, Some(keys[0].direction))] + KeyEntries(keys[1..])
  }

  function CoveringEntries(names: seq<string>): (r: seq<Column>)
    ensures |r| == |names|
  {
    if names == [] then [] else [Column(names[0], None)] + CoveringEntries(names[1..])
  }

  function DirectionText(d: Option<Direction>): string {
    match d case None => "" case Some(Asc) => " ASC" case Some(Desc) => " DESC"
  }

  function CompileColumns(columns: seq<Column>): string
    requires columns != []
  {
    QuoteIdentifier(columns[0].name)
    + (DirectionText(columns[0].direction) + (if |columns| == 1 then ")" else ", " + CompileColumns(columns[1..])))
  }

  function ConditionText(c: Option<seq<Atom>>): string
    requires c.Some? ==> c.value != [] && ValidAtoms(c.value)
  {
    if c.None? then "" else " WHERE " + CompileAtoms(c.value)
  }

  const INDEX_NAME_DOMAIN := "planrace/2:index-name"

  /** `str.removeprefix`, then the first twenty characters. */
  function Suffix(digest: string): string {
    var plain := if |digest| >= 7 && digest[..7] == "sha256:" then digest[7..] else digest;
    if |plain| <= 20 then plain else plain[..20]
  }

  /** `validator_index_name`. */
  function IndexName(h: Digester, s: IndexSpec): string {
    "planrace_" + Suffix(h(INDEX_NAME_DOMAIN, IndexJson(s)))
  }

  /** The statement under a given index name. */
  function CompileNamed(name: string, s: IndexSpec): string
    requires ValidSpec(s)
  {
    "CREATE " + ((if s.unique then "UNIQUE " else "")
    + ("INDEX " + (QuoteIdentifier(name)
    + (" ON " + (QuoteIdentifier(s.table)
    + (" (" + (CompileColumns(KeyEntries(s.keyColumns) + CoveringEntries(s.includeColumns))
    + ConditionText(s.condition))))))))
  }

  /** `compile_index_sql`. */
  function CompileIndexSql(h: Digester, s: IndexSpec): string
    requires ValidSpec(s)
  {
    CompileNamed(IndexName(h, s), s)
  }

  // ----- the parser ----------------------------------------------------------

  datatype Parse<+T> = Fail | Got(value: T, rest: string)

  predicate StartsWith(s: string, prefix: string) {
    |prefix| <= |s| && s[..|prefix|] == prefix
  }

  function Skip(s: string, prefix: string): (r: Option<string>)
    ensures r.Some? ==> |r.value| + |prefix| == |s|
  {
    if StartsWith(s, prefix) then Some(s[|prefix|..]) else None
  }

  function UpToQuote(s: string): (p: Parse<string>)
    ensures p.Got? ==> |p.rest| < |s|
  {
    if s == [] then Fail
    else if s[0] == '"' then Got([], s[1..])
    else match UpToQuote(s[1..]) case Fail => Fail case Got(v, rest) => Got([s[0]] + v, rest)
  }

  function ParseIdentifier(s: string): (p: Parse<string>)
    ensures p.Got? ==> |p.rest| < |s|
  {
    if s == [] || s[0] != '"' then Fail else UpToQuote(s[1..])
  }

  /** The text up to its closing quote; a doubled quote stands for one. */
  function UpToEnd(s: string): (p: Parse<string>)
    ensures p.Got? ==> |p.rest| < |s|
  {
    if s == [] then Fail
    else if s[0] != '\'' then
      match UpToEnd(s[1..]) case Fail => Fail case Got(v, rest) => Got([s[0]] + v, rest)
    else if |s| >= 2 && s[1] == '\'' then
      match UpToEnd(s[2..]) case Fail => Fail case Got(v, rest) => Got(['\''] + v, rest)
    else Got([], s[1..])
  }

  function TakeDigits(s: string): (r: string)
    ensures |r| <= |s| && s[..|r|] == r && forall i :: 0 <= i < |r| ==> IsDigit(r[i])
  {
    if s == [] || !IsDigit(s[0]) then [] else [s[0]] + TakeDigits(s[1..])
  }

  function ParseNatural(s: string): (p: Parse<nat>)
    ensures p.Got? ==> |p.rest| < |s|
  {
    var digits := TakeDigits(s);
    if digits == [] then Fail else Got(DecimalValue(digits), s[|digits|..])
  }

  function ParseInteger(s: string): (p: Parse<int>)
    ensures p.Got? ==> |p.rest| < |s|
  {
    if s != [] && s[0] == '-' then
      match ParseNatural(s[1..]) case Fail => Fail case Got(n, rest) => Got(0 - (n as int), rest)
    else
      match ParseNatural(s) case Fail => Fail case Got(n, rest) => Got(n, rest)
  }

  function ParseLiteral(s: string): (p: Parse<Literal>)
    ensures p.Got? ==> |p.rest| < |s|
  {
    if s != [] && s[0] == '\'' then
      match UpToEnd(s[1..]) case Fail => Fail case Got(v, rest) => Got(TextLiteral(v), rest)
    else
      match ParseInteger(s) case Fail => Fail case Got(n, rest) => Got(IntegerLiteral(n), rest)
  }

  /** The SQL comparison tokens. */
  function ParseOperator(s: string): (p: Parse<Operator>)
    ensures p.Got? ==> |p.rest| < |s|
  {
    if StartsWith(s, " IS NULL") then Got(IsNull, s[8..])
    else if StartsWith(s, " IS NOT NULL") then Got(IsNotNull, s[12..])
    else if StartsWith(s, " = ") then Got(Eq, s[3..])
    else if StartsWith(s, " != ") then Got(Ne, s[4..])
    else if StartsWith(s, " < ") then Got(Lt, s[3..])
    else if StartsWith(s, " <= ") then Got(Lte, s[4..])
    else if StartsWith(s, " > ") then Got(Gt, s[3..])
    else if StartsWith(s, " >= ") then Got(Gte, s[4..])
    else Fail
  }

  function ParseAtom(s: string): (p: Parse<Atom>)
    ensures p.Got? ==> |p.rest| < |s|
  {
    match ParseIdentifier(s)
    case Fail => Fail
    case Got(column, afterColumn) =>
      match ParseOperator(afterColumn)
      case Fail => Fail
      case Got(op, afterOperator) =>
        if op.IsNull? || op.IsNotNull? then Got(Atom(column, op, NullLiteral), afterOperator)
        else match ParseLiteral(afterOperator)
          case Fail => Fail
          case Got(v, rest) => Got(Atom(column, op, v), rest)
  }

  function ParseAtoms(s: string): Option<seq<Atom>>
    decreases |s|
  {
    match ParseAtom(s)
    case Fail => None
    case Got(a, rest) =>
      if rest == [] then Some([a])
      else match Skip(rest, " AND ")
        case None => None
        case Some(more) =>
          match ParseAtoms(more) case None => None case Some(atoms) => Some([a] + atoms)
  }

  function ParseDirection(s: string): (p: Parse<Option<Direction>>)
    ensures p.Got? && |p.rest| <= |s|
  {
    match Skip(s, " ASC")
    case Some(rest) => Got(Some(Asc), rest)
    case None =>
      match Skip(s, " DESC")
      case Some(rest) => Got(Some(Desc), rest)
      case None => Got(None, s)
  }

  function ParseColumns(s: string): Parse<seq<Column>>
    decreases |s|
  {
    match ParseIdentifier(s)
    case Fail => Fail
    case Got(name, afterName) =>
      var Got(direction, rest) := ParseDirection(afterName);
      match Skip(rest, ")")
      case Some(done) => Got([Column(name, direction)], done)
      case None =>
        match Skip(rest, ", ")
        case None => Fail
        case Some(more) =>
          match ParseColumns(more)
          case Fail => Fail
          case Got(columns, end) => Got([Column(name, direction)] + columns, end)
  }

  function ParseCondition(s: string): Option<Option<seq<Atom>>> {
    if s == [] then Some(None)
    else match Skip(s, " WHERE ")
      case None => None
      case Some(rest) =>
        match ParseAtoms(rest) case None => None case Some(atoms) => Some(Some(atoms))
  }

  /** A parsed `CREATE INDEX` statement. */
  datatype Statement = Statement(
    name: string, table: string, unique: bool, columns: seq<Column>, condition: Option<seq<Atom>>)

  function ParseUnique(s: string): Parse<bool> {
    match Skip(s, "UNIQUE ") case Some(rest) => Got(true, rest) case None => Got(false, s)
  }

  function ParseBody(unique: bool, name: string, s: string): Option<Statement> {
    match Skip(s, " ON ")
    case None => None
    case Some(afterOn) =>
      match ParseIdentifier(afterOn)
      case Fail => None
      case Got(table, afterTable) =>
        match Skip(afterTable, " (")
        case None => None
        case Some(inside) =>
          match ParseColumns(inside)
          case Fail => None
          case Got(columns, rest) =>
            match ParseCondition(rest)
            case None => None
            case Some(condition) => Some(Statement(name, table, unique, columns, condition))
  }

  function ParseStatement(s: string): Option<Statement> {
    match Skip(s, "CREATE ")
    case None => None
    case Some(afterCreate) =>
      var Got(unique, afterUnique) := ParseUnique(afterCreate);
      match Skip(afterUnique, "INDEX ")
      case None => None
      case Some(afterIndex) =>
        match ParseIdentifier(afterIndex)
        case Fail => None
        case Got(name, rest) => ParseBody(unique, name, rest)
  }

  // ----- round trips ---------------------------------------------------------

  lemma SkipAppend(prefix: string, rest: string)
    ensures Skip(prefix + rest, prefix) == Some(rest)
  {
    assert (prefix + rest)[..|prefix|] == prefix && (prefix + rest)[|prefix|..] == rest;
  }

  lemma SkipOther(s: string, prefix: string, i: nat)
    requires i < |prefix| && (i < |s| ==> s[i] != prefix[i])
    ensures Skip(s, prefix) == None
  {
    assert |prefix| <= |s| ==> s[..|prefix|][i] == s[i];
  }

  lemma {:induction false} UpToQuoteReads(s: string, rest: string)
    requires forall i :: 0 <= i < |s| ==> s[i] != '"'
    ensures UpToQuote(s + ("\"" + rest)) == Got(s, rest)
  {
    var t := s + ("\"" + rest);
    if s == [] {
      assert t == "\"" + rest && t[1..] == rest;
    } else {
      UpToQuoteReads(s[1..], rest);
      assert t[1..] == s[1..] + ("\"" + rest);
      assert s == [s[0]] + s[1..];
    }
  }

  lemma IdentifierReads(s: string, rest: string)
    requires Identifier(s)
    ensures ParseIdentifier(QuoteIdentifier(s) + rest) == Got(s, rest)
  {
    UpToQuoteReads(s, rest);
    assert (QuoteIdentifier(s) + rest)[1..] == s + ("\"" + rest);
  }

  lemma {:induction false} TextReads(s: string, rest: string)
    requires rest == [] || rest[0] != '\''
    ensures UpToEnd(DoubleQuotes(s) + ("'" + rest)) == Got(s, rest)
  {
    if s == [] {
      assert DoubleQuotes(s) + ("'" + rest) == "'" + rest;
      LastQuote(rest);
    } else {
      var tail := DoubleQuotes(s[1..]) + ("'" + rest);
      TextReads(s[1..], rest);
      Reassociate(if s[0] == '\'' then "''" else [s[0]], DoubleQuotes(s[1..]), "'" + rest);
      hide DoubleQuotes, UpToEnd;
      FirstReads(s[0], tail, s[1..], rest);
      assert s == [s[0]] + s[1..];
    }
  }

  lemma LastQuote(rest: string)
    requires rest == [] || rest[0] != '\''
    ensures UpToEnd("'" + rest) == Got("", rest)
  {
    assert ("'" + rest)[1..] == rest;
  }

  lemma FirstReads(c: char, tail: string, s: string, rest: string)
    requires UpToEnd(tail) == Got(s, rest)
    ensures UpToEnd((if c == '\'' then "''" else [c]) + tail) == Got([c] + s, rest)
  {
    if c == '\'' {
      assert ("''" + tail)[2..] == tail;
    } else {
      assert ([c] + tail)[1..] == tail;
    }
  }

  lemma {:induction false} DigitsRead(s: string, rest: string)
    requires (forall i :: 0 <= i < |s| ==> IsDigit(s[i])) && Ends(rest)
    ensures TakeDigits(s + rest) == s
  {
    if s == [] {
      assert s + rest == rest;
    } else {
      DigitsRead(s[1..], rest);
      assert (s + rest)[1..] == s[1..] + rest;
    }
  }

  lemma NaturalReads(n: nat, rest: string)
    requires Ends(rest)
    ensures ParseNatural(Decimal(n) + rest) == Got(n, rest)
  {
    DecimalReadsBack(n);
    DigitsRead(Decimal(n), rest);
    hide Decimal, DecimalValue, TakeDigits;
    assert (Decimal(n) + rest)[|Decimal(n)|..] == rest;
  }

  lemma IntegerReads(n: int, rest: string)
    requires Ends(rest)
    ensures ParseInteger(Integer(n) + rest) == Got(n, rest)
  {
    var s := Decimal(if n < 0 then -n else n);
    NaturalReads(if n < 0 then -n else n, rest);
    assert IsDigit(s[0]);
    var t := Integer(n) + rest;
    assert Integer(n) == if n < 0 then "-" + s else s;
    hide Decimal, ParseNatural, Integer;
    if n < 0 {
      Reassociate("-", s, rest);
      assert t[0] == '-' && t[1..] == s + rest;
    } else {
      assert t[0] == s[0];
    }
  }

  /** Booleans come back as the integers they were compiled to. */
  function ReadBackLiteral(v: Literal): Literal {
    match v case BooleanLiteral(b) => IntegerLiteral(if b then 1 else 0) case _ => v
  }

  function ReadBack(a: Atom): Atom {
    a.(value := ReadBackLiteral(a.value))
  }

  function ReadBackAll(atoms: seq<Atom>): (r: seq<Atom>)
    ensures |r| == |atoms|
  {
    if atoms == [] then [] else [ReadBack(atoms[0])] + ReadBackAll(atoms[1..])
  }

  /** What may follow an operand: the end, or a further conjunct. */
  predicate Separated(rest: string) {
    rest == [] || rest[0] == ' '
  }

  lemma BooleanText(b: bool)
    ensures Integer(if b then 1 else 0) == if b then "1" else "0"
  {
  }

  lemma LiteralReads(v: Literal, rest: string)
    requires !v.NullLiteral? && Separated(rest)
    ensures ParseLiteral(CompileLiteral(v) + rest) == Got(ReadBackLiteral(v), rest)
  {
    match v
    case TextLiteral(s) =>
      TextReads(s, rest);
      assert (CompileLiteral(v) + rest)[1..] == DoubleQuotes(s) + ("'" + rest);
    case IntegerLiteral(n) => IntegerLiteralReads(n, rest);
    case BooleanLiteral(b) =>
      BooleanText(b);
      IntegerLiteralReads(if b then 1 else 0, rest);
    case NullLiteral =>
  }

  lemma IntegerLiteralReads(n: int, rest: string)
    requires Separated(rest)
    ensures ParseLiteral(Integer(n) + rest) == Got(IntegerLiteral(n), rest)
  {
    IntegerReads(n, rest);
    IntegerSign(n);
    assert (Integer(n) + rest)[0] == Integer(n)[0];
    assert n >= 0 ==> IsDigit(Integer(n)[0]);
    hide ParseInteger, Integer;
  }

  lemma StartsWithAt(s: string, prefix: string, i: nat)
    requires StartsWith(s, prefix) && i < |prefix|
    ensures s[i] == prefix[i]
  {
    assert s[..|prefix|][i] == s[i];
  }

  lemma StartsOther(s: string, prefix: string, i: nat)
    requires i < |prefix| && i < |s| && s[i] != prefix[i]
    ensures !StartsWith(s, prefix)
  {
    if StartsWith(s, prefix) { StartsWithAt(s, prefix, i); }
  }

  lemma StartsAppend(prefix: string, rest: string)
    ensures StartsWith(prefix + rest, prefix) && (prefix + rest)[|prefix|..] == rest
  {
  }

  lemma OperatorReads(op: Operator, rest: string)
    ensures ParseOperator(OperatorText(op) + rest) == Got(op, rest)
  {
    var s := OperatorText(op) + rest;
    StartsAppend(OperatorText(op), rest);
    hide StartsWith;
    if op.IsNotNull? {
      StartsOther(s, " IS NULL", 5);
    } else if !op.IsNull? {
      StartsOther(s, " IS NULL", 1);
      StartsOther(s, " IS NOT NULL", 1);
      if !op.Eq? { StartsOther(s, " = ", 1); }
      if !op.Eq? && !op.Ne? { StartsOther(s, " != ", 1); }
      if op.Lte? { StartsOther(s, " < ", 2); }
      if op.Gt? || op.Gte? {
        StartsOther(s, " < ", 1);
        StartsOther(s, " <= ", 1);
      }
      if op.Gte? { StartsOther(s, " > ", 2); }
    }
  }

  lemma AtomReads(a: Atom, rest: string)
    requires a.Valid() && Identifier(a.column) && Separated(rest)
    ensures ParseAtom(CompilePredicate(a) + rest) == Got(ReadBack(a), rest)
  {
    var op, operand := OperatorText(a.operator), OperandText(a);
    Reassociate(QuoteIdentifier(a.column), op + operand, rest);
    Reassociate(op, operand, rest);
    IdentifierReads(a.column, op + (operand + rest));
    OperatorReads(a.operator, operand + rest);
    if a.value.NullLiteral? {
      assert operand + rest == rest;
    } else {
      LiteralReads(a.value, rest);
    }
    hide OperatorText, ParseIdentifier, ParseOperator, ParseLiteral, QuoteIdentifier, CompileLiteral;
  }

  lemma {:induction false} AtomsRead(atoms: seq<Atom>)
    requires atoms != [] && ValidAtoms(atoms)
    ensures ParseAtoms(CompileAtoms(atoms)) == Some(ReadBackAll(atoms))
  {
    hide ParseAtom, CompilePredicate, ReadBack, Atom.Valid, Identifier;
    var a := atoms[0];
    assert a in atoms;
    if |atoms| == 1 {
      AtomReads(a, []);
      assert CompileAtoms(atoms) == CompilePredicate(a) + [];
      assert ReadBackAll(atoms) == [ReadBack(a)];
    } else {
      var more := CompileAtoms(atoms[1..]);
      assert ValidAtoms(atoms[1..]);
      AtomReads(a, " AND " + more);
      SkipAppend(" AND ", more);
      AtomsRead(atoms[1..]);
    }
  }

  lemma DirectionReads(d: Option<Direction>, rest: string)
    requires rest != [] && rest[0] != ' '
    ensures ParseDirection(DirectionText(d) + rest) == Got(d, rest)
  {
    var s := DirectionText(d) + rest;
    match d
    case Some(Asc) => SkipAppend(" ASC", rest);
    case Some(Desc) =>
      assert s[1] == 'D';
      SkipOther(s, " ASC", 1);
      SkipAppend(" DESC", rest);
    case None =>
      assert s == rest;
      SkipOther(s, " ASC", 0);
      SkipOther(s, " DESC", 0);
  }

  lemma {:induction false} ColumnsRead(columns: seq<Column>, rest: string)
    requires columns != [] && forall c :: c in columns ==> Identifier(c.name)
    ensures ParseColumns(CompileColumns(columns) + rest) == Got(columns, rest)
  {
    var c := columns[0];
    assert c in columns && columns == [c] + columns[1..];
    var tail := if |columns| == 1 then ")" else ", " + CompileColumns(columns[1..]);
    Reassociate(QuoteIdentifier(c.name), DirectionText(c.direction) + tail, rest);
    Reassociate(DirectionText(c.direction), tail, rest);
    IdentifierReads(c.name, DirectionText(c.direction) + (tail + rest));
    DirectionReads(c.direction, tail + rest);
    hide ParseIdentifier, ParseDirection, QuoteIdentifier, DirectionText, Identifier, Skip;
    if |columns| == 1 {
      SkipAppend(")", rest);
      assert columns == [Column(c.name, c.direction)];
      assert tail == ")";
    } else {
      var more := CompileColumns(columns[1..]);
      Reassociate(", ", more, rest);
      SkipAppend(", ", more + rest);
      SkipOther(tail + rest, ")", 0);
      ColumnsRead(columns[1..], rest);
    }
  }

  lemma {:induction false} KeyEntriesNamed(keys: seq<IndexColumn>, c: Column)
    requires c in KeyEntries(keys)
    ensures exists k :: k in keys && k.column == c.name
  {
    if c == KeyEntries(keys)[0] {
      assert keys[0] in keys;
    } else {
      KeyEntriesNamed(keys[1..], c);
    }
  }

  lemma {:induction false} CoveringEntriesNamed(names: seq<string>, c: Column)
    requires c in CoveringEntries(names)
    ensures c.name in names
  {
    if c != CoveringEntries(names)[0] { CoveringEntriesNamed(names[1..], c); }
  }

  /** The column list of a specification. */
  function Entries(s: IndexSpec): seq<Column> {
    KeyEntries(s.keyColumns) + CoveringEntries(s.includeColumns)
  }

  lemma EntriesIdentified(s: IndexSpec)
    requires ValidSpec(s)
    ensures Entries(s) != [] && forall c :: c in Entries(s) ==> Identifier(c.name)
  {
    hide Identifier;
    forall c | c in Entries(s) ensures Identifier(c.name) {
      if c in KeyEntries(s.keyColumns) {
        KeyEntriesNamed(s.keyColumns, c);
      } else {
        CoveringEntriesNamed(s.includeColumns, c);
      }
    }
  }

  lemma ConditionReads(c: Option<seq<Atom>>)
    requires c.Some? ==> c.value != [] && ValidAtoms(c.value)
    ensures ParseCondition(ConditionText(c))
         == match c case None => Some(None) case Some(atoms) => Some(Some(ReadBackAll(atoms)))
  {
    hide ParseAtoms, CompileAtoms, ValidAtoms, ReadBackAll, Skip;
    if c.Some? {
      SkipAppend(" WHERE ", CompileAtoms(c.value));
      AtomsRead(c.value);
    }
  }

  /** What a specification says, with its booleans as 0 and 1. */
  function Meaning(name: string, s: IndexSpec): Statement {
    Statement(name, s.table, s.unique, Entries(s),
              match s.condition case None => None case Some(atoms) => Some(ReadBackAll(atoms)))
  }

  lemma BodyReads(name: string, s: IndexSpec)
    requires ValidSpec(s)
    ensures ParseBody(s.unique, name,
              " ON " + (QuoteIdentifier(s.table) + (" (" + (CompileColumns(Entries(s)) + ConditionText(s.condition)))))
         == Some(Meaning(name, s))
  {
    EntriesIdentified(s);
    assert Identifier(s.table);
    assert s.condition.Some? ==> s.condition.value != [] && ValidAtoms(s.condition.value);
    hide ValidSpec, Identifier, ParseIdentifier, ParseColumns, ParseCondition, Skip, CompileColumns,
         ConditionText, QuoteIdentifier, Entries, ReadBackAll, ValidAtoms;
    var end := ConditionText(s.condition);
    var columns := CompileColumns(Entries(s)) + end;
    SkipAppend(" ON ", QuoteIdentifier(s.table) + (" (" + columns));
    IdentifierReads(s.table, " (" + columns);
    SkipAppend(" (", columns);
    ColumnsRead(Entries(s), end);
    ConditionReads(s.condition);
  }

  lemma UniqueReads(unique: bool, rest: string)
    requires StartsWith(rest, "INDEX ")
    ensures ParseUnique((if unique then "UNIQUE " else "") + rest) == Got(unique, rest)
  {
    if unique {
      SkipAppend("UNIQUE ", rest);
    } else {
      assert "" + rest == rest;
      assert rest[0] == rest[..6][0] == 'I';
      SkipOther(rest, "UNIQUE ", 0);
    }
  }

  /** Parsing the compiled statement recovers every part of the specification. */
  lemma CompiledReadsBack(name: string, s: IndexSpec)
    requires ValidSpec(s) && Identifier(name)
    ensures ParseStatement(CompileNamed(name, s)) == Some(Meaning(name, s))
  {
    EntriesShape(s);
    BodyReads(name, s);
    hide ValidSpec, Identifier, ParseIdentifier, ParseUnique, ParseBody, Skip, CompileColumns,
         ConditionText, QuoteIdentifier, Entries, Meaning, StartsWith;
    var columns := CompileColumns(Entries(s)) + ConditionText(s.condition);
    var body := " ON " + (QuoteIdentifier(s.table) + (" (" + columns));
    var afterIndex := QuoteIdentifier(name) + body;
    var afterUnique := "INDEX " + afterIndex;
    var afterCreate := (if s.unique then "UNIQUE " else "") + afterUnique;
    assert CompileNamed(name, s) == "CREATE " + afterCreate;
    SkipAppend("CREATE ", afterCreate);
    PrefixStarts("INDEX ", afterIndex);
    UniqueReads(s.unique, afterUnique);
    SkipAppend("INDEX ", afterIndex);
    IdentifierReads(name, body);
  }

  lemma PrefixStarts(prefix: string, rest: string)
    ensures StartsWith(prefix + rest, prefix)
  {
  }

  lemma EntriesShape(s: IndexSpec)
    ensures Entries(s) == KeyEntries(s.keyColumns) + CoveringEntries(s.includeColumns)
  {
  }

  // ----- the compiled name ---------------------------------------------------

  /** Digests look like digests: a scheme and lower-case hexadecimal digits. */
  ghost predicate Hexadecimal(h: Digester) {
    forall d: string, v: Json :: |h(d, v)| == 71 && h(d, v)[..7] == "sha256:"
      && forall i :: 7 <= i < 71 ==> IsDigit(h(d, v)[i]) || 'a' <= h(d, v)[i] <= 'f'
  }

  lemma IndexNameIsIdentifier(h: Digester, s: IndexSpec)
    requires Hexadecimal(h)
    ensures Identifier(IndexName(h, s)) && |IndexName(h, s)| == 29
    ensures IndexName(h, s) == "planrace_" + h(INDEX_NAME_DOMAIN, IndexJson(s))[7..27]
  {
    var digest := h(INDEX_NAME_DOMAIN, IndexJson(s));
    assert |digest| == 71;
    var suffix := Suffix(digest);
    assert |suffix| == 20;
    forall i | 0 <= i < 20 ensures IsWord(suffix[i]) {
      assert suffix[i] == digest[i + 7];
    }
    var name := IndexName(h, s);
    forall i | 0 <= i < |name| ensures IsWord(name[i]) {
      if i < 9 { assert name[i] == "planrace_"[i]; } else { assert name[i] == suffix[i - 9]; }
    }
  }

  /** The key columns of a parsed column list. */
  function KeysOf(columns: seq<Column>): seq<IndexColumn> {
    if columns == [] then []
    else (if columns[0].direction.Some? then [IndexColumn(columns[0].name, columns[0].direction.value)] else [])
         + KeysOf(columns[1..])
  }

  /** The covering columns of a parsed column list. */
  function CoveringOf(columns: seq<Column>): seq<string> {
    if columns == [] then []
    else (if columns[0].direction.None? then [columns[0].name] else []) + CoveringOf(columns[1..])
  }

  lemma {:induction false} CoveringSplit(names: seq<string>)
    ensures KeysOf(CoveringEntries(names)) == [] && CoveringOf(CoveringEntries(names)) == names
  {
    if names != [] {
      CoveringSplit(names[1..]);
      assert CoveringEntries(names)[1..] == CoveringEntries(names[1..]);
    }
  }

  lemma {:induction false} EntriesSplit(keys: seq<IndexColumn>, names: seq<string>)
    ensures KeysOf(KeyEntries(keys) + CoveringEntries(names)) == keys
    ensures CoveringOf(KeyEntries(keys) + CoveringEntries(names)) == names
  {
    var columns := KeyEntries(keys) + CoveringEntries(names);
    if keys == [] {
      assert columns == CoveringEntries(names);
      CoveringSplit(names);
    } else {
      EntriesSplit(keys[1..], names);
      assert columns[1..] == KeyEntries(keys[1..]) + CoveringEntries(names);
      assert columns[0] == Column(keys[0].column, Some(keys[0].direction));
      assert keys == [keys[0]] + keys[1..];
    }
  }

  /** Round trip of `compile_index_sql`, for every valid specification. */
  lemma CompileParses(h: Digester, s: IndexSpec)
    requires ValidSpec(s) && Hexadecimal(h)
    ensures ParseStatement(CompileIndexSql(h, s)).Some?
    ensures var read := ParseStatement(CompileIndexSql(h, s)).value;
            && read.name == IndexName(h, s) && read.table == s.table && read.unique == s.unique
            && KeysOf(read.columns) == s.keyColumns && CoveringOf(read.columns) == s.includeColumns
            && read.condition == match s.condition case None => None case Some(atoms) => Some(ReadBackAll(atoms))
  {
    EntriesSplit(s.keyColumns, s.includeColumns);
    hide ValidSpec, Hexadecimal, Identifier, IndexName, ParseStatement, CompileNamed, KeysOf, CoveringOf, ReadBackAll;
    IndexNameIsIdentifier(h, s);
    CompiledReadsBack(IndexName(h, s), s);
  }

  // ----- when two specifications compile alike -------------------------------

  /** Literals that read back alike: equal, or a Boolean against the integer 0 or 1. */
  predicate SameLiteral(v: Literal, w: Literal) {
    || v == w
    || (v.BooleanLiteral? && w == IntegerLiteral(if v.truth then 1 else 0))
    || (w.BooleanLiteral? && v == IntegerLiteral(if w.truth then 1 else 0))
  }

  predicate SameAtom(a: Atom, b: Atom) {
    a.column == b.column && a.operator == b.operator && SameLiteral(a.value, b.value)
  }

  predicate SameCondition(a: Option<seq<Atom>>, b: Option<seq<Atom>>) {
    match a
    case None => b.None?
    case Some(x) =>
      b.Some? && |x| == |b.value| && forall i :: 0 <= i < |x| ==> SameAtom(x[i], b.value[i])
  }

  lemma ReadBackIff(a: Atom, b: Atom)
    ensures ReadBack(a) == ReadBack(b) <==> SameAtom(a, b)
  {
  }

  lemma {:induction false} ReadBackAllIff(x: seq<Atom>, y: seq<Atom>)
    ensures ReadBackAll(x) == ReadBackAll(y) <==>
              |x| == |y| && forall i :: 0 <= i < |x| ==> SameAtom(x[i], y[i])
  {
    hide ReadBack, SameAtom;
    if x != [] && y != [] {
      ReadBackIff(x[0], y[0]);
      ReadBackAllIff(x[1..], y[1..]);
      var u, v := ReadBackAll(x), ReadBackAll(y);
      assert u[1..] == ReadBackAll(x[1..]) && v[1..] == ReadBackAll(y[1..]);
      if |x| == |y| && forall i :: 0 <= i < |x| ==> SameAtom(x[i], y[i]) {
        forall i | 0 <= i < |x| - 1 ensures SameAtom(x[1..][i], y[1..][i]) {
          assert x[1..][i] == x[i + 1] && y[1..][i] == y[i + 1];
        }
      }
      if u == v {
        forall i | 0 <= i < |x| ensures SameAtom(x[i], y[i]) {
          if i > 0 { assert x[1..][i - 1] == x[i] && y[1..][i - 1] == y[i]; }
        }
      }
    }
  }

  lemma SamePredicateText(a: Atom, b: Atom)
    requires a.Valid() && b.Valid() && SameAtom(a, b)
    ensures CompilePredicate(a) == CompilePredicate(b)
  {
    BooleanText(true);
    BooleanText(false);
  }

  lemma {:induction false} SameAtomsText(x: seq<Atom>, y: seq<Atom>)
    requires x != [] && |x| == |y| && ValidAtoms(x) && ValidAtoms(y)
    requires forall i :: 0 <= i < |x| ==> SameAtom(x[i], y[i])
    ensures CompileAtoms(x) == CompileAtoms(y)
  {
    hide CompilePredicate, SameAtom;
    assert x[0] in x && y[0] in y;
    SamePredicateText(x[0], y[0]);
    if |x| > 1 {
      assert forall i :: 0 <= i < |x| - 1 ==> x[1..][i] == x[i + 1] && y[1..][i] == y[i + 1];
      SameAtomsText(x[1..], y[1..]);
    }
  }

  /** Under one name two valid specifications compile to the same statement exactly when
      they agree in everything but Booleans against the integers 0 and 1. */
  lemma CompileSameIff(name: string, a: IndexSpec, b: IndexSpec)
    requires ValidSpec(a) && ValidSpec(b) && Identifier(name)
    ensures CompileNamed(name, a) == CompileNamed(name, b) <==>
              a.(condition := None) == b.(condition := None) && SameCondition(a.condition, b.condition)
  {
    if CompileNamed(name, a) == CompileNamed(name, b) {
      CompiledReadsBack(name, a);
      CompiledReadsBack(name, b);
      MeaningDetermines(name, a, b);
    }
    if a.(condition := None) == b.(condition := None) && SameCondition(a.condition, b.condition) {
      hide SameAtom, CompileAtoms, CompileColumns, Identifier, QuoteIdentifier, ValidAtoms;
      if a.condition.Some? { SameAtomsText(a.condition.value, b.condition.value); }
    }
  }

  lemma MeaningDetermines(name: string, a: IndexSpec, b: IndexSpec)
    requires Meaning(name, a) == Meaning(name, b)
    ensures a.(condition := None) == b.(condition := None) && SameCondition(a.condition, b.condition)
  {
    hide KeysOf, CoveringOf, KeyEntries, CoveringEntries, ReadBackAll, SameAtom;
    EntriesSplit(a.keyColumns, a.includeColumns);
    EntriesSplit(b.keyColumns, b.includeColumns);
    if a.condition.Some? && b.condition.Some? { ReadBackAllIff(a.condition.value, b.condition.value); }
  }
}
