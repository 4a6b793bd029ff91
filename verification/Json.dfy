/** The canonical JSON text of `canonical_json_bytes` (planrace/models_v2.py:62-80):
    no spaces, sorted keys, only the escapes that section 7 of RFC 8259 requires.
    Different values have different texts, and a text never contains a line feed. */
module Json {

  /** Objects list their fields in key order, which is how they are written. */
  datatype Json =
    | JNull
    | JBool(truth: bool)
    | JInt(number: int)
    | JString(text: string)
    | JArray(items: seq<Json>)
    | JObject(fields: seq<Field>)

  datatype Field = Field(name: string, value: Json)

  const DIGITS := "0123456789"
  const HEX := "0123456789abcdef"

  predicate IsDigit(c: char) {
    '0' <= c <= '9'
  }

  // ----- text ----------------------------------------------------------------

  /** `str(n)`. */
  function Decimal(n: nat): (s: string)
    ensures s != [] && forall i :: 0 <= i < |s| ==> IsDigit(s[i])
  {
    if n < 10 then [DIGITS[n]] else Decimal(n / 10) + [DIGITS[n % 10]]
  }

  function Integer(n: int): string {
    if n < 0 then "-" + Decimal(-n) else Decimal(n)
  }

  function EscapeChar(c: char): (s: string)
    ensures s != []
  {
    if c == '"' then "\\\""
    else if c == '\\' then "\\\\"
    else if c == '\n' then "\\n"
    else if c == '\r' then "\\r"
    else if c == '\t' then "\\t"
    else if c as int == 12 then "\\f"
    else if c as int == 8 then "\\b"
    else if c as int < 32 then "\\u00" + [HEX[c as int / 16], HEX[c as int % 16]]
    else [c]
  }

  function Escape(s: string): string {
    if s == [] then [] else EscapeChar(s[0]) + Escape(s[1..])
  }

  function Quoted(s: string): string {
    "\"" + (Escape(s) + "\"")
  }

  function Print(v: Json): string
    decreases v
  {
    match v
    case JNull => "null"
    case JBool(b) => if b then "true" else "false"
    case JInt(n) => Integer(n)
    case JString(s) => Quoted(s)
    case JArray(items) => "[" + PrintItems(items)
    case JObject(fields) => "{" + PrintFields(fields)
  }

  function PrintItems(items: seq<Json>): string
    decreases items
  {
    if items == [] then "]"
    else Print(items[0]) + (if |items| == 1 then "]" else "," + PrintItems(items[1..]))
  }

  function PrintFields(fields: seq<Field>): string
    decreases fields
  {
    if fields == [] then "}"
    else Quoted(fields[0].name) + (":" + (Print(fields[0].value)
         + (if |fields| == 1 then "}" else "," + PrintFields(fields[1..]))))
  }

  /** One value per item, in order. */
  function Mapped<T>(f: T -> Json, items: seq<T>): (r: seq<Json>)
    ensures |r| == |items|
    ensures forall i :: 0 <= i < |r| ==> r[i] == f(items[i])
  {
    if items == [] then [] else [f(items[0])] + Mapped(f, items[1..])
  }

  lemma MappedInjective<T(!new)>(f: T -> Json, x: seq<T>, y: seq<T>)
    requires Mapped(f, x) == Mapped(f, y) && forall a, b :: f(a) == f(b) ==> a == b
    ensures x == y
  {
    assert |Mapped(f, x)| == |x| && |Mapped(f, y)| == |y|;
    forall i | 0 <= i < |x| ensures x[i] == y[i] {
      assert f(x[i]) == Mapped(f, x)[i] == Mapped(f, y)[i] == f(y[i]);
    }
  }

  // ----- integers ------------------------------------------------------------

  function DigitValue(c: char): nat
    requires IsDigit(c)
  {
    c as int - '0' as int
  }

  function DecimalValue(s: string): nat
    requires forall i :: 0 <= i < |s| ==> IsDigit(s[i])
  {
    if s == [] then 0 else 10 * DecimalValue(s[..|s| - 1]) + DigitValue(s[|s| - 1])
  }

  lemma {:induction false} DecimalReadsBack(n: nat)
    ensures DecimalValue(Decimal(n)) == n
  {
    if n < 10 {
      assert DecimalValue([]) == 0;
      assert Decimal(n)[..0] == [];
    } else {
      DecimalReadsBack(n / 10);
      assert Decimal(n)[..|Decimal(n)| - 1] == Decimal(n / 10);
    }
  }

  /** The text does not go on with a digit. */
  predicate Ends(x: string) {
    x == [] || !IsDigit(x[0])
  }

  lemma LongerGoesOn(s: string, t: string, x: string, y: string)
    requires s + x == t + y && |s| < |t|
    ensures x != [] && x[0] == t[|s|]
  {
    assert |s + x| == |t + y|;
    assert (s + x)[|s|] == (t + y)[|s|];
  }

  lemma DigitsSplit(s: string, t: string, x: string, y: string)
    requires forall i :: 0 <= i < |s| ==> IsDigit(s[i])
    requires forall i :: 0 <= i < |t| ==> IsDigit(t[i])
    requires s + x == t + y && Ends(x) && Ends(y)
    ensures s == t && x == y
  {
    if |s| < |t| {
      LongerGoesOn(s, t, x, y);
      assert false;
    } else if |t| < |s| {
      LongerGoesOn(t, s, y, x);
      assert false;
    } else {
      SameLengthSplit(s, t, x, y);
    }
  }

  lemma SameLengthSplit<T>(s: seq<T>, t: seq<T>, x: seq<T>, y: seq<T>)
    requires |s| == |t| && s + x == t + y
    ensures s == t && x == y
  {
    assert s == (s + x)[..|s|] && t == (t + y)[..|t|];
    assert x == (s + x)[|s|..] && y == (t + y)[|t|..];
  }

  lemma IntegerSplit(m: int, n: int, x: string, y: string)
    requires Integer(m) + x == Integer(n) + y && Ends(x) && Ends(y)
    ensures m == n && x == y
  {
    IntegerSign(m);
    IntegerSign(n);
    assert (Integer(m) + x)[0] == Integer(m)[0] && (Integer(n) + y)[0] == Integer(n)[0];
    var s, t := Decimal(if m < 0 then -m else m), Decimal(if n < 0 then -n else n);
    DecimalReadsBack(if m < 0 then -m else m);
    DecimalReadsBack(if n < 0 then -n else n);
    hide Decimal, DecimalValue;
    if m < 0 {
      Reassociate("-", s, x);
      Reassociate("-", t, y);
      SameLengthSplit("-", "-", s + x, t + y);
    }
    DigitsSplit(s, t, x, y);
  }

  lemma IntegerSign(n: int)
    ensures Integer(n) != [] && (n < 0 <==> Integer(n)[0] == '-')
  {
    assert IsDigit(Decimal(if n < 0 then -n else n)[0]);
  }

  // ----- strings -------------------------------------------------------------

  lemma HexDigitsDiffer(i: nat, j: nat)
    requires i < 16 && j < 16 && HEX[i] == HEX[j]
    ensures i == j
  {
  }

  lemma EscapeCharSplit(c: char, d: char, x: string, y: string)
    requires EscapeChar(c) + x == EscapeChar(d) + y
    ensures c == d && x == y
  {
    var l, r := EscapeChar(c) + x, EscapeChar(d) + y;
    assert l[0] == EscapeChar(c)[0] && r[0] == EscapeChar(d)[0];
    if |EscapeChar(c)| == 1 || |EscapeChar(d)| == 1 {
      assert c == d;
    } else {
      assert l[1] == EscapeChar(c)[1] && r[1] == EscapeChar(d)[1];
      if |EscapeChar(c)| == 6 && |EscapeChar(d)| == 6 {
        assert l[4] == EscapeChar(c)[4] && r[4] == EscapeChar(d)[4];
        assert l[5] == EscapeChar(c)[5] && r[5] == EscapeChar(d)[5];
        HexDigitsDiffer(c as int / 16, d as int / 16);
        HexDigitsDiffer(c as int % 16, d as int % 16);
        assert c as int == d as int;
      }
      assert c == d;
    }
    SameLengthSplit(EscapeChar(c), EscapeChar(d), x, y);
  }

  lemma Reassociate(x: string, y: string, z: string)
    ensures (x + y) + z == x + (y + z)
  {
  }

  lemma {:induction false} EscapeSplit(s: string, t: string, x: string, y: string)
    requires Escape(s) + ("\"" + x) == Escape(t) + ("\"" + y)
    ensures s == t && x == y
  {
    var l, r := Escape(s) + ("\"" + x), Escape(t) + ("\"" + y);
    if s != [] { EscapeCharFirst(s[0]); }
    if t != [] { EscapeCharFirst(t[0]); }
    hide EscapeChar;
    assert l[0] == if s == [] then '"' else EscapeChar(s[0])[0];
    assert r[0] == if t == [] then '"' else EscapeChar(t[0])[0];
    if s == [] || t == [] {
      assert s == t == [];
      assert l == "\"" + x && r == "\"" + y;
      SameLengthSplit("\"", "\"", x, y);
    } else {
      EscapeRest(s, "\"" + x);
      EscapeRest(t, "\"" + y);
      EscapeCharSplit(s[0], t[0], Escape(s[1..]) + ("\"" + x), Escape(t[1..]) + ("\"" + y));
      EscapeSplit(s[1..], t[1..], x, y);
      assert s == [s[0]] + s[1..] && t == [t[0]] + t[1..];
    }
  }

  lemma EscapeCharFirst(c: char)
    ensures EscapeChar(c)[0] != '"'
  {
  }

  lemma EscapeRest(s: string, x: string)
    requires s != []
    ensures Escape(s) + x == EscapeChar(s[0]) + (Escape(s[1..]) + x)
  {
    hide EscapeChar;
    Reassociate(EscapeChar(s[0]), Escape(s[1..]), x);
  }

  lemma QuotedSplit(s: string, t: string, x: string, y: string)
    requires Quoted(s) + x == Quoted(t) + y
    ensures s == t && x == y
  {
    Reassociate("\"", Escape(s) + "\"", x);
    Reassociate("\"", Escape(t) + "\"", y);
    Reassociate(Escape(s), "\"", x);
    Reassociate(Escape(t), "\"", y);
    SameLengthSplit("\"", "\"", Escape(s) + ("\"" + x), Escape(t) + ("\"" + y));
    EscapeSplit(s, t, x, y);
  }

  // ----- values --------------------------------------------------------------

  lemma FirstChar(v: Json)
    ensures Print(v) != []
    ensures v.JNull? <==> Print(v)[0] == 'n'
    ensures v.JBool? <==> Print(v)[0] == 't' || Print(v)[0] == 'f'
    ensures v.JInt? <==> Print(v)[0] == '-' || IsDigit(Print(v)[0])
    ensures v.JString? <==> Print(v)[0] == '"'
    ensures v.JArray? <==> Print(v)[0] == '['
    ensures v.JObject? <==> Print(v)[0] == '{'
    ensures Print(v)[0] != ']' && Print(v)[0] != '}'
  {
    if v.JInt? { assert Integer(v.number) != []; }
  }

  lemma SameKind(a: Json, b: Json, x: string, y: string)
    requires Print(a) + x == Print(b) + y
    ensures a.JNull? == b.JNull? && a.JBool? == b.JBool? && a.JInt? == b.JInt?
    ensures a.JString? == b.JString? && a.JArray? == b.JArray? && a.JObject? == b.JObject?
  {
    FirstChar(a);
    FirstChar(b);
    assert (Print(a) + x)[0] == Print(a)[0] && (Print(b) + y)[0] == Print(b)[0];
  }

  lemma BoolSplit(a: bool, b: bool, x: string, y: string)
    requires Print(JBool(a)) + x == Print(JBool(b)) + y
    ensures a == b && x == y
  {
    assert (Print(JBool(a)) + x)[0] == Print(JBool(a))[0] && (Print(JBool(b)) + y)[0] == Print(JBool(b))[0];
    assert a == b;
    SameLengthSplit(Print(JBool(a)), Print(JBool(b)), x, y);
  }

  /** Texts of values are prefix codes, up to a following digit. */
  lemma {:induction false} PrintSplit(a: Json, b: Json, x: string, y: string)
    requires Print(a) + x == Print(b) + y && Ends(x) && Ends(y)
    ensures a == b && x == y
    decreases a, 0
  {
    SameKind(a, b, x, y);
    match a
    case JNull => SameLengthSplit("null", "null", x, y);
    case JBool(t) => BoolSplit(t, b.truth, x, y);
    case JInt(n) => IntegerSplit(n, b.number, x, y);
    case JString(s) => QuotedSplit(s, b.text, x, y);
    case JArray(items) =>
      Reassociate("[", PrintItems(items), x);
      Reassociate("[", PrintItems(b.items), y);
      SameLengthSplit("[", "[", PrintItems(items) + x, PrintItems(b.items) + y);
      ItemsSplit(items, b.items, x, y);
    case JObject(fields) =>
      Reassociate("{", PrintFields(fields), x);
      Reassociate("{", PrintFields(b.fields), y);
      SameLengthSplit("{", "{", PrintFields(fields) + x, PrintFields(b.fields) + y);
      FieldsSplit(fields, b.fields, x, y);
  }

  /** What follows the first item. */
  function ItemsTail(items: seq<Json>): string
    requires items != []
  {
    if |items| == 1 then "]" else "," + PrintItems(items[1..])
  }

  lemma {:induction false} ItemsSplit(a: seq<Json>, b: seq<Json>, x: string, y: string)
    requires PrintItems(a) + x == PrintItems(b) + y
    ensures a == b && x == y
    decreases a, 1
  {
    var l, r := PrintItems(a) + x, PrintItems(b) + y;
    if a != [] {
      FirstChar(a[0]);
      assert l[0] == Print(a[0])[0];
    }
    if b != [] {
      FirstChar(b[0]);
      assert r[0] == Print(b[0])[0];
    }
    if a == [] || b == [] {
      assert a == [] ==> l[0] == ']';
      assert b == [] ==> r[0] == ']';
      assert a == b == [];
      SameLengthSplit("]", "]", x, y);
    } else {
      Reassociate(Print(a[0]), ItemsTail(a), x);
      Reassociate(Print(b[0]), ItemsTail(b), y);
      PrintSplit(a[0], b[0], ItemsTail(a) + x, ItemsTail(b) + y);
      ItemsTailSplit(a, b, x, y);
      assert a == [a[0]] + a[1..] && b == [b[0]] + b[1..];
    }
  }

  lemma {:induction false} ItemsTailSplit(a: seq<Json>, b: seq<Json>, x: string, y: string)
    requires a != [] && b != [] && ItemsTail(a) + x == ItemsTail(b) + y
    ensures a[1..] == b[1..] && x == y
    decreases a, 0
  {
    assert (ItemsTail(a) + x)[0] == ItemsTail(a)[0] && (ItemsTail(b) + y)[0] == ItemsTail(b)[0];
    assert (|a| == 1) == (|b| == 1);
    if |a| == 1 {
      SameLengthSplit("]", "]", x, y);
    } else {
      Reassociate(",", PrintItems(a[1..]), x);
      Reassociate(",", PrintItems(b[1..]), y);
      SameLengthSplit(",", ",", PrintItems(a[1..]) + x, PrintItems(b[1..]) + y);
      ItemsSplit(a[1..], b[1..], x, y);
    }
  }

  function FieldsTail(fields: seq<Field>): string
    requires fields != []
  {
    if |fields| == 1 then "}" else "," + PrintFields(fields[1..])
  }

  lemma {:induction false} FieldsSplit(a: seq<Field>, b: seq<Field>, x: string, y: string)
    requires PrintFields(a) + x == PrintFields(b) + y
    ensures a == b && x == y
    decreases a, 2
  {
    var l, r := PrintFields(a) + x, PrintFields(b) + y;
    assert a != [] ==> l[0] == '"';
    assert b != [] ==> r[0] == '"';
    if a == [] || b == [] {
      assert a == [] ==> l[0] == '}';
      assert b == [] ==> r[0] == '}';
      assert a == b == [];
      SameLengthSplit("}", "}", x, y);
    } else {
      FirstFieldSplit(a, b, x, y);
      assert a == [a[0]] + a[1..] && b == [b[0]] + b[1..];
    }
  }

  lemma {:induction false} FirstFieldSplit(a: seq<Field>, b: seq<Field>, x: string, y: string)
    requires a != [] && b != [] && PrintFields(a) + x == PrintFields(b) + y
    ensures a[0] == b[0] && a[1..] == b[1..] && x == y
    decreases a, 1
  {
    hide *;
    var u, v := Print(a[0].value), Print(b[0].value);
    var l, r := FieldsTail(a), FieldsTail(b);
    FieldsUnfold(a);
    FieldsUnfold(b);
    Reassociate(Quoted(a[0].name), ":" + (u + l), x);
    Reassociate(Quoted(b[0].name), ":" + (v + r), y);
    QuotedSplit(a[0].name, b[0].name, ":" + (u + l) + x, ":" + (v + r) + y);
    Reassociate(":", u + l, x);
    Reassociate(":", v + r, y);
    SameLengthSplit(":", ":", (u + l) + x, (v + r) + y);
    Reassociate(u, l, x);
    Reassociate(v, r, y);
    FieldsTailEnds(a, x);
    FieldsTailEnds(b, y);
    assert a[0].value < a[0];
    PrintSplit(a[0].value, b[0].value, l + x, r + y);
    FieldsTailSplit(a, b, x, y);
  }

  lemma FieldsUnfold(a: seq<Field>)
    requires a != []
    ensures PrintFields(a) == Quoted(a[0].name) + (":" + (Print(a[0].value) + FieldsTail(a)))
  {
  }

  lemma FieldsTailEnds(a: seq<Field>, x: string)
    requires a != []
    ensures Ends(FieldsTail(a) + x)
  {
  }

  lemma {:induction false} FieldsTailSplit(a: seq<Field>, b: seq<Field>, x: string, y: string)
    requires a != [] && b != [] && FieldsTail(a) + x == FieldsTail(b) + y
    ensures a[1..] == b[1..] && x == y
    decreases a, 0
  {
    assert (FieldsTail(a) + x)[0] == FieldsTail(a)[0] && (FieldsTail(b) + y)[0] == FieldsTail(b)[0];
    assert (|a| == 1) == (|b| == 1);
    if |a| == 1 {
      SameLengthSplit("}", "}", x, y);
    } else {
      Reassociate(",", PrintFields(a[1..]), x);
      Reassociate(",", PrintFields(b[1..]), y);
      SameLengthSplit(",", ",", PrintFields(a[1..]) + x, PrintFields(b[1..]) + y);
      FieldsSplit(a[1..], b[1..], x, y);
    }
  }

  /** The canonical text determines the value. */
  lemma PrintInjective(a: Json, b: Json)
    requires Print(a) == Print(b)
    ensures a == b
  {
    assert Print(a) + [] == Print(a) && Print(b) + [] == Print(b);
    PrintSplit(a, b, [], []);
  }

  // ----- no line feed --------------------------------------------------------

  predicate OneLine(s: string) {
    forall i :: 0 <= i < |s| ==> s[i] != '\n'
  }

  lemma {:induction false} EscapeOneLine(s: string)
    ensures OneLine(Escape(s))
  {
    if s != [] {
      EscapeOneLine(s[1..]);
      EscapeCharOneLine(s[0]);
    }
  }

  lemma EscapeCharOneLine(c: char)
    ensures OneLine(EscapeChar(c))
  {
    if c as int < 32 {
      assert HEX[c as int / 16] != '\n' && HEX[c as int % 16] != '\n';
    }
  }

  lemma IntegerOneLine(n: int)
    ensures OneLine(Integer(n))
  {
    var s := Decimal(if n < 0 then -n else n);
    forall i | 0 <= i < |s| ensures s[i] != '\n' {
      assert IsDigit(s[i]);
    }
  }

  lemma {:induction false} PrintOneLine(v: Json)
    ensures OneLine(Print(v))
    decreases v, 0
  {
    match v
    case JNull =>
    case JBool(b) =>
    case JInt(n) => IntegerOneLine(n);
    case JString(s) => EscapeOneLine(s);
    case JArray(items) => ItemsOneLine(items);
    case JObject(fields) => FieldsOneLine(fields);
  }

  lemma {:induction false} ItemsOneLine(items: seq<Json>)
    ensures OneLine(PrintItems(items))
    decreases items, 0
  {
    if items != [] {
      PrintOneLine(items[0]);
      ItemsOneLine(items[1..]);
    }
  }

  lemma {:induction false} FieldsOneLine(fields: seq<Field>)
    ensures OneLine(PrintFields(fields))
    decreases fields, 0
  {
    if fields != [] {
      EscapeOneLine(fields[0].name);
      PrintOneLine(fields[0].value);
      FieldsOneLine(fields[1..]);
    }
  }
}
