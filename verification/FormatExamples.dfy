/** The byte formats on concrete values: canonical JSON (planrace/models_v2.py:62-80), the
    digest frame (planrace/models_v2.py:83-94) and Base64. The laws elsewhere say that these
    formats lose nothing; the examples fix the formats themselves. */
module FormatExamples {
  import opened Json
  import opened Hashing
  import Base64

  lemma ScalarsExample()
    ensures Print(JNull) == "null" && Print(JBool(true)) == "true" && Print(JBool(false)) == "false"
    ensures Print(JInt(0)) == "0" && Print(JInt(-305)) == "-305"
  {
    assert Decimal(3) == "3" && Decimal(30) == Decimal(3) + "0" && Decimal(305) == Decimal(30) + "5";
  }

  lemma EscapesExample()
    ensures EscapeChar('"') == "\\\"" && EscapeChar('\\') == "\\\\" && EscapeChar('\n') == "\\n"
    ensures EscapeChar('\r') == "\\r" && EscapeChar('\t') == "\\t"
    ensures EscapeChar(8 as char) == "\\b" && EscapeChar(12 as char) == "\\f"
    ensures EscapeChar(27 as char) == "\\u001b" && EscapeChar('/') == "/" && EscapeChar('é') == "é"
  {
  }

  /** Separators and brackets. */
  lemma TwoItems(x: Json, y: Json)
    ensures Print(JArray([x, y])) == "[" + (Print(x) + ("," + (Print(y) + "]")))
  {
    var items := [x, y];
    assert items[1..] == [y];
    assert PrintItems([y]) == Print(y) + "]";
    assert PrintItems(items) == Print(x) + ("," + PrintItems([y]));
    assert Print(JArray(items)) == "[" + PrintItems(items);
  }

  lemma TwoFields(a: string, x: Json, b: string, y: Json)
    ensures Print(JObject([Field(a, x), Field(b, y)]))
         == "{" + (Quoted(a) + (":" + (Print(x) + ("," + (Quoted(b) + (":" + (Print(y) + "}")))))))
  {
    hide Quoted;
    var fields := [Field(a, x), Field(b, y)];
    assert fields[1..] == [Field(b, y)];
    assert PrintFields([Field(b, y)]) == Quoted(b) + (":" + (Print(y) + "}"));
    assert PrintFields(fields) == Quoted(a) + (":" + (Print(x) + ("," + PrintFields([Field(b, y)]))));
    assert Print(JObject(fields)) == "{" + PrintFields(fields);
  }

  lemma EmptyExamples()
    ensures Print(JArray([])) == "[]" && Print(JObject([])) == "{}"
  {
  }

  lemma QuotedExample()
    ensures Print(JString("x\n")) == "\"x\\n\""
  {
    assert Escape("") == "";
    assert "x\n"[1..] == "\n";
    assert Escape("\n") == "\\n";
    assert Escape("x\n") == "x\\n";
  }

  lemma {:induction false} ZeroBytes(size: nat)
    ensures forall i :: 0 <= i < size ==> BigEndian(0, size)[i] == 0
  {
    if size > 0 { ZeroBytes(size - 1); }
  }

  lemma SmallLength(n: nat, size: nat)
    requires n < 256 && size > 0
    ensures BigEndian(n, size)[size - 1] == n
    ensures forall i :: 0 <= i < size - 1 ==> BigEndian(n, size)[i] == 0
  {
    ZeroBytes(size - 1);
    assert BigEndian(n, size) == BigEndian(n / 256, size - 1) + [n % 256];
  }

  /** Two bytes for the length of the domain, eight for the length of the payload. */
  lemma FrameExample()
    ensures Frame("ab", [7, 9, 11]) == [0, 2, 97, 98, 0, 0, 0, 0, 0, 0, 0, 3, 7, 9, 11]
  {
    hide *;
    AsciiExample();
    SmallLength(2, 2);
    SmallLength(3, 8);
    FrameOf("ab", [7, 9, 11], [97, 98], [0, 2], [0, 0, 0, 0, 0, 0, 0, 3]);
  }

  lemma AsciiExample()
    ensures Utf8("ab") == [97, 98]
  {
    assert "ab"[1..] == "b";
    assert Utf8("b") == [98];
  }

  lemma FrameOf(domain: string, payload: seq<Byte>, utf8: seq<Byte>, two: seq<Byte>, eight: seq<Byte>)
    requires utf8 == Utf8(domain) && |two| == 2 && |eight| == 8
    requires forall i :: 0 <= i < 2 ==> two[i] == BigEndian(|utf8|, 2)[i]
    requires forall i :: 0 <= i < 8 ==> eight[i] == BigEndian(|payload|, 8)[i]
    ensures Frame(domain, payload) == two + (utf8 + (eight + payload))
  {
    hide BigEndian, Utf8;
    assert two == BigEndian(|utf8|, 2) && eight == BigEndian(|payload|, 8);
  }

  lemma BigEndianExample()
    ensures BigEndian(772, 2) == [3, 4]
  {
    assert BigEndian(3, 1) == [3];
  }

  lemma Utf8Example()
    ensures Utf8Char('A') == [65] && Utf8Char('é') == [195, 169] && Utf8Char('€') == [226, 130, 172]
    ensures Utf8Char(0x1F600 as char) == [240, 159, 152, 128]
  {
  }

  lemma Base64Example()
    ensures Base64.Encode([102, 111, 111, 98]) == "Zm9vYg==" && Base64.Encode([0, 31]) == "AB8="
    ensures Base64.Encode([251, 255, 191]) == "+/+/" && Base64.Encode([]) == ""
  {
    var b: seq<Byte> := [102, 111, 111, 98];
    assert b[3..] == [98];
    assert Base64.Encode([98]) == "Yg==";
    assert Base64.Group(102, 111, 111) == "Zm9v";
    var c: seq<Byte> := [251, 255, 191];
    assert c[3..] == [];
    assert Base64.Group(251, 255, 191) == "+/+/";
  }
}
