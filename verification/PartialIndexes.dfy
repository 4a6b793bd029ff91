/** What a partial-index predicate means: SQL's three-valued conjunction over one row.
    Bundles with one strategy digest index the same rows. */
module PartialIndexes {
  import opened Wrappers
  import opened Hashing
  import opened Indexes
  import IndexSql
  import Text

  datatype Truth = True | False | Unknown

  /** A stored value; comparisons order integers before texts before blobs. */
  datatype Cell = NullCell | IntegerCell(number: int) | TextCell(text: string) | BlobCell(bytes: seq<Byte>)

  type Row = string -> Cell

  function OfBool(b: bool): Truth {
    if b then True else False
  }

  function And(a: Truth, b: Truth): Truth {
    if a.False? || b.False? then False else if a.Unknown? || b.Unknown? then Unknown else True
  }

  /** Booleans are stored and compared as the integers 0 and 1. */
  function Stored(v: Literal): Cell {
    match v
    case IntegerLiteral(n) => IntegerCell(n)
    case TextLiteral(s) => TextCell(s)
    case BooleanLiteral(b) => IntegerCell(if b then 1 else 0)
    case NullLiteral => NullCell
  }

  predicate Less(a: Cell, b: Cell) {
    match a
    case NullCell => !b.NullCell?
    case IntegerCell(m) => if b.IntegerCell? then m < b.number else b.TextCell? || b.BlobCell?
    case TextCell(s) => if b.TextCell? then Text.LessEq(s, b.text) && s != b.text else b.BlobCell?
    case BlobCell(x) => b.BlobCell? && BytesLess(x, b.bytes)
  }

  predicate BytesLess(x: seq<Byte>, y: seq<Byte>) {
    if y == [] then false
    else if x == [] then true
    else x[0] < y[0] || (x[0] == y[0] && BytesLess(x[1..], y[1..]))
  }

  function Compare(op: Operator, a: Cell, b: Cell): bool {
    match op
    case Eq => a == b
    case Ne => a != b
    case Lt => Less(a, b)
    case Lte => Less(a, b) || a == b
    case Gt => Less(b, a)
    case Gte => Less(b, a) || a == b
    case IsNull => a.NullCell?
    case IsNotNull => !a.NullCell?
  }

  function Holds(atom: Atom, row: Row): Truth {
    var cell := row(atom.column);
    if atom.operator.IsNull? || atom.operator.IsNotNull? then OfBool(Compare(atom.operator, cell, NullCell))
    else if cell.NullCell? || Stored(atom.value).NullCell? then Unknown
    else OfBool(Compare(atom.operator, cell, Stored(atom.value)))
  }

  function Conjunction(atoms: seq<Atom>, row: Row): Truth {
    if atoms == [] then True else And(Holds(atoms[0], row), Conjunction(atoms[1..], row))
  }

  /** The index covers the row. */
  predicate Selects(condition: Option<seq<Atom>>, row: Row) {
    condition.Some? ==> Conjunction(condition.value, row) == True
  }

  lemma {:induction false} ConjunctionMeans(atoms: seq<Atom>, row: Row)
    ensures Conjunction(atoms, row) == False <==> exists a :: a in atoms && Holds(a, row) == False
    ensures Conjunction(atoms, row) == True <==> forall a :: a in atoms ==> Holds(a, row) == True
  {
    if atoms != [] {
      ConjunctionMeans(atoms[1..], row);
      hide Holds;
      assert atoms[0] in atoms && forall a :: a in atoms <==> a == atoms[0] || a in atoms[1..];
    }
  }

  /** The truth value depends on the set of atoms only. */
  lemma ConjunctionIgnoresOrder(a: seq<Atom>, b: seq<Atom>, row: Row)
    requires multiset(a) == multiset(b)
    ensures Conjunction(a, row) == Conjunction(b, row)
  {
    hide Conjunction, Holds;
    ConjunctionMeans(a, row);
    ConjunctionMeans(b, row);
    assert forall x :: x in a <==> x in multiset(a);
    assert forall x :: x in b <==> x in multiset(b);
  }

  /** A shared strategy digest means the same indexes over the same rows. */
  lemma SharedDigestSelectsSameRows(h: Digester, a: Bundle, b: Bundle, i: nat, row: Row)
    requires Ideal(h) && StrategyDigest(h, a) == StrategyDigest(h, b) && i < |a.indexes|
    ensures |b.indexes| == |a.indexes|
    ensures var x, y := a.indexes[i], b.indexes[i];
            && x.table == y.table && x.keyColumns == y.keyColumns && x.includeColumns == y.includeColumns
            && x.unique == y.unique && x.condition.Some? == y.condition.Some?
            && Selects(x.condition, row) == Selects(y.condition, row)
  {
    StrategyDigestIff(h, a, b);
    hide StrategyDigest, Ideal, Conjunction;
    assert SameUpToOrder(a.indexes[i], b.indexes[i]);
    if a.indexes[i].condition.Some? {
      ConjunctionIgnoresOrder(a.indexes[i].condition.value, b.indexes[i].condition.value, row);
    }
  }

  // ----- the meaning of an emitted condition ---------------------------------

  /** Each comparison against an integer, spelled out over the stored value: NULL is
      unknown, and texts and blobs come after all integers. */
  lemma ComparisonsMean(column: string, n: int, row: Row)
    ensures var cell := row(column);
            && (cell.NullCell? ==>
                  forall op: Operator :: !op.IsNull? && !op.IsNotNull? ==>
                    Holds(Atom(column, op, IntegerLiteral(n)), row) == Unknown)
            && (cell.IntegerCell? ==>
                  && Holds(Atom(column, Eq, IntegerLiteral(n)), row) == (if cell.number == n then True else False)
                  && Holds(Atom(column, Ne, IntegerLiteral(n)), row) == (if cell.number != n then True else False)
                  && Holds(Atom(column, Lt, IntegerLiteral(n)), row) == (if cell.number < n then True else False)
                  && Holds(Atom(column, Lte, IntegerLiteral(n)), row) == (if cell.number <= n then True else False)
                  && Holds(Atom(column, Gt, IntegerLiteral(n)), row) == (if cell.number > n then True else False)
                  && Holds(Atom(column, Gte, IntegerLiteral(n)), row) == (if cell.number >= n then True else False))
            && (cell.TextCell? || cell.BlobCell? ==>
                  && Holds(Atom(column, Lt, IntegerLiteral(n)), row) == False
                  && Holds(Atom(column, Gt, IntegerLiteral(n)), row) == True)
            && Holds(Atom(column, IsNull, NullLiteral), row) == (if cell.NullCell? then True else False)
            && Holds(Atom(column, IsNotNull, NullLiteral), row) == (if cell.NullCell? then False else True)
  {
  }

  lemma {:induction false} ReadBackHolds(atoms: seq<Atom>, row: Row)
    ensures Conjunction(IndexSql.ReadBackAll(atoms), row) == Conjunction(atoms, row)
  {
    if atoms != [] {
      ReadBackHolds(atoms[1..], row);
      var r := IndexSql.ReadBackAll(atoms);
      assert r[0] == IndexSql.ReadBack(atoms[0]) && r[1..] == IndexSql.ReadBackAll(atoms[1..]);
      assert Holds(IndexSql.ReadBack(atoms[0]), row) == Holds(atoms[0], row);
    }
  }

  /** The emitted statement covers exactly the rows that the specification selects: the
      condition read off its SQL tokens has the same truth value on every row. */
  lemma EmittedConditionSelects(h: Digester, s: IndexSpec, row: Row)
    requires IndexSql.ValidSpec(s) && IndexSql.Hexadecimal(h)
    ensures IndexSql.ParseStatement(IndexSql.CompileIndexSql(h, s)).Some?
    ensures var read := IndexSql.ParseStatement(IndexSql.CompileIndexSql(h, s)).value;
            && read.condition.Some? == s.condition.Some?
            && Selects(read.condition, row) == Selects(s.condition, row)
            && (s.condition.Some? ==> Conjunction(read.condition.value, row) == Conjunction(s.condition.value, row))
  {
    hide IndexSql.ValidSpec, IndexSql.Hexadecimal, IndexSql.ParseStatement, IndexSql.CompileIndexSql, Conjunction,
         IndexSql.ReadBackAll;
    IndexSql.CompileParses(h, s);
    if s.condition.Some? { ReadBackHolds(s.condition.value, row); }
  }

  // ----- where the normal form stops -----------------------------------------

  function FlagIndex(v: Literal): IndexSpec {
    IndexSpec("t", [IndexColumn("c", Asc)], [], false, Some([Atom("flag", Eq, v)]))
  }

  function FlagBundle(engine: string, v: Literal): Bundle {
    Bundle("", engine, [FlagIndex(v)], "s", "filter", "")
  }

  /** The digest is finer than the meaning: `flag = true` and `flag = 1` select the same
      rows of every table but are different strategies. */
  lemma SameRowsOtherDigest(h: Digester, engine: string)
    requires Ideal(h)
    ensures var t, one := FlagIndex(BooleanLiteral(true)), FlagIndex(IntegerLiteral(1));
            forall row: Row :: Selects(t.condition, row) == Selects(one.condition, row)
    ensures StrategyDigest(h, FlagBundle(engine, BooleanLiteral(true)))
         != StrategyDigest(h, FlagBundle(engine, IntegerLiteral(1)))
  {
    var a, b := FlagBundle(engine, BooleanLiteral(true)), FlagBundle(engine, IntegerLiteral(1));
    forall row: Row
      ensures Conjunction([Atom("flag", Eq, BooleanLiteral(true))], row)
           == Conjunction([Atom("flag", Eq, IntegerLiteral(1))], row)
    {
      SingleAtom(Atom("flag", Eq, BooleanLiteral(true)), row);
      SingleAtom(Atom("flag", Eq, IntegerLiteral(1)), row);
    }
    StrategyDigestIff(h, a, b);
    hide StrategyDigest, Ideal, Conjunction;
    if SameStrategy(a, b) {
      assert SameUpToOrder(a.indexes[0], b.indexes[0]);
      DifferentAtoms(Atom("flag", Eq, BooleanLiteral(true)), Atom("flag", Eq, IntegerLiteral(1)));
    }
  }

  lemma SingleAtom(a: Atom, row: Row)
    ensures Conjunction([a], row) == Holds(a, row)
  {
    assert Conjunction([], row) == True;
    assert [a][1..] == [];
  }

  lemma DifferentAtoms(a: Atom, b: Atom)
    requires a != b
    ensures multiset([a]) != multiset([b])
  {
    assert a in multiset([a]) && a !in multiset([b]);
  }

  /** Bundles for one engine whose indexes compile, pairwise and under any one name, to the
      same statements. */
  ghost predicate SameStatements(name: string, a: Bundle, b: Bundle)
    requires forall s :: s in a.indexes || s in b.indexes ==> IndexSql.ValidSpec(s)
  {
    && a.engineImageDigest == b.engineImageDigest && |a.indexes| == |b.indexes|
    && forall i :: 0 <= i < |a.indexes| ==>
         IndexSql.CompileNamed(name, a.indexes[i]) == IndexSql.CompileNamed(name, b.indexes[i])
  }

  /** Paired atoms that are not permutations of each other, though they read back alike: a
      Boolean stands against the integer 0 or 1. */
  ghost predicate BooleanAgainstInteger(a: Option<seq<Atom>>, b: Option<seq<Atom>>) {
    IndexSql.SameCondition(a, b) && a.Some? && multiset(a.value) != multiset(b.value)
  }

  /** Exactly when equal statements have different strategy digests: some predicate has a
      Boolean where the other has 0 or 1, and reordering does not make up for it. */
  lemma SameStatementsOtherDigestIff(h: Digester, name: string, a: Bundle, b: Bundle)
    requires Ideal(h) && IndexSql.Identifier(name)
    requires forall s :: s in a.indexes || s in b.indexes ==> IndexSql.ValidSpec(s)
    requires SameStatements(name, a, b)
    ensures StrategyDigest(h, a) != StrategyDigest(h, b) <==>
              exists i :: 0 <= i < |a.indexes|
                && BooleanAgainstInteger(a.indexes[i].condition, b.indexes[i].condition)
  {
    StrategyDigestIff(h, a, b);
    hide StrategyDigest, Ideal, IndexSql.ValidSpec, IndexSql.Identifier, IndexSql.CompileNamed, SameUpToOrder,
         BooleanAgainstInteger;
    forall i | 0 <= i < |a.indexes|
      ensures SameUpToOrder(a.indexes[i], b.indexes[i]) <==>
              !BooleanAgainstInteger(a.indexes[i].condition, b.indexes[i].condition)
    {
      assert a.indexes[i] in a.indexes && b.indexes[i] in b.indexes;
      IndexSql.CompileSameIff(name, a.indexes[i], b.indexes[i]);
      OrderOrBooleans(a.indexes[i], b.indexes[i]);
    }
  }

  lemma OrderOrBooleans(a: IndexSpec, b: IndexSpec)
    requires a.(condition := None) == b.(condition := None) && IndexSql.SameCondition(a.condition, b.condition)
    ensures SameUpToOrder(a, b) <==> !BooleanAgainstInteger(a.condition, b.condition)
  {
    hide IndexSql.SameAtom;
  }
}
