/** Base64 with padding, section 4 of RFC 4648; different byte strings have different
    encodings. */
module Base64 {
  import Json
  import opened Hashing

  function Letter(n: nat): (c: char)
    requires n < 64
    ensures c != '='
  {
    if n < 26 then 'A' + n as char
    else if n < 52 then 'a' + (n - 26) as char
    else if n < 62 then '0' + (n - 52) as char
    else if n == 62 then '+' else '/'
  }

  function LetterValue(c: char): int {
    if 'A' <= c <= 'Z' then c as int - 'A' as int
    else if 'a' <= c <= 'z' then c as int - 'a' as int + 26
    else if '0' <= c <= '9' then c as int - '0' as int + 52
    else if c == '+' then 62 else 63
  }

  lemma LetterReadsBack(n: nat)
    requires n < 64
    ensures LetterValue(Letter(n)) == n
  {
  }

  function Encode(b: seq<Byte>): string {
    if |b| == 0 then ""
    else if |b| == 1 then [Letter(b[0] / 4), Letter(b[0] % 4 * 16), '=', '=']
    else if |b| == 2 then [Letter(b[0] / 4), Letter(b[0] % 4 * 16 + b[1] / 16), Letter(b[1] % 16 * 4), '=']
    else Group(b[0], b[1], b[2]) + Encode(b[3..])
  }

  /** Three bytes as four letters. */
  function Group(x: Byte, y: Byte, z: Byte): (s: string)
    ensures |s| == 4
  {
    [Letter(x / 4), Letter(x % 4 * 16 + y / 16), Letter(y % 16 * 4 + z / 64), Letter(z % 64)]
  }

  lemma SameLetter(m: nat, n: nat)
    requires m < 64 && n < 64 && Letter(m) == Letter(n)
    ensures m == n
  {
    LetterReadsBack(m);
    LetterReadsBack(n);
  }

  lemma GroupInjective(x: Byte, y: Byte, z: Byte, x': Byte, y': Byte, z': Byte)
    requires Group(x, y, z) == Group(x', y', z')
    ensures x == x' && y == y' && z == z'
  {
    var s, t := Group(x, y, z), Group(x', y', z');
    assert s[0] == t[0] && s[1] == t[1] && s[2] == t[2] && s[3] == t[3];
    hide Letter;
    SameLetter(x / 4, x' / 4);
    SameLetter(x % 4 * 16 + y / 16, x' % 4 * 16 + y' / 16);
    SameLetter(y % 16 * 4 + z / 64, y' % 16 * 4 + z' / 64);
    SameLetter(z % 64, z' % 64);
  }

  lemma PairInjective(x: Byte, y: Byte, x': Byte, y': Byte)
    requires Letter(x / 4) == Letter(x' / 4)
    requires Letter(x % 4 * 16 + y / 16) == Letter(x' % 4 * 16 + y' / 16)
    requires Letter(y % 16 * 4) == Letter(y' % 16 * 4)
    ensures x == x' && y == y'
  {
    hide Letter;
    SameLetter(x / 4, x' / 4);
    SameLetter(x % 4 * 16 + y / 16, x' % 4 * 16 + y' / 16);
    SameLetter(y % 16 * 4, y' % 16 * 4);
  }

  lemma SingleInjective(x: Byte, x': Byte)
    requires Letter(x / 4) == Letter(x' / 4) && Letter(x % 4 * 16) == Letter(x' % 4 * 16)
    ensures x == x'
  {
    hide Letter;
    SameLetter(x / 4, x' / 4);
    SameLetter(x % 4 * 16, x' % 4 * 16);
  }

  /** Padding tells how many bytes the last group holds. */
  lemma SameShape(b: seq<Byte>, c: seq<Byte>)
    requires Encode(b) == Encode(c)
    ensures (|b| == 0) == (|c| == 0) && (|b| == 1) == (|c| == 1) && (|b| == 2) == (|c| == 2)
  {
    var s, t := Encode(b), Encode(c);
    assert (|b| == 0) == (|s| == 0) && (|c| == 0) == (|t| == 0);
    if |b| > 0 && |c| > 0 {
      assert (s[2] == '=') == (|b| == 1) && (t[2] == '=') == (|c| == 1);
      assert (s[3] == '=') == (|b| <= 2) && (t[3] == '=') == (|c| <= 2);
    }
  }

  lemma {:induction false} EncodeInjective(b: seq<Byte>, c: seq<Byte>)
    requires Encode(b) == Encode(c)
    ensures b == c
  {
    SameShape(b, c);
    var s, t := Encode(b), Encode(c);
    hide Letter;
    if |b| == 1 {
      assert s[0] == t[0] && s[1] == t[1];
      SingleInjective(b[0], c[0]);
    } else if |b| == 2 {
      assert s[0] == t[0] && s[1] == t[1] && s[2] == t[2];
      PairInjective(b[0], b[1], c[0], c[1]);
    } else if |b| > 2 {
      Json.SameLengthSplit(Group(b[0], b[1], b[2]), Group(c[0], c[1], c[2]), Encode(b[3..]), Encode(c[3..]));
      GroupInjective(b[0], b[1], b[2], c[0], c[1], c[2]);
      EncodeInjective(b[3..], c[3..]);
      assert b == [b[0], b[1], b[2]] + b[3..] && c == [c[0], c[1], c[2]] + c[3..];
    }
  }
}
