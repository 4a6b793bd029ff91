/** `domain_separated_digest` (planrace/models_v2.py:83-93): the hash of a
    length-delimited frame around the canonical text. The hash function is an input
    of the model; under an ideal one, equal digests mean equal domains and values. */
module Hashing {
  import opened Json

  type Byte = b: int | 0 <= b < 256

  type Hash = seq<Byte> -> string

  ghost predicate CollisionFree(h: Hash) {
    forall a: seq<Byte>, b: seq<Byte> :: h(a) == h(b) ==> a == b
  }

  /** Digests of canonical values in named domains. */
  type Digester = (string, Json) -> string

  /** Equal digests mean equal domains and equal values. */
  ghost predicate Ideal(h: Digester) {
    forall d: string, a: Json, e: string, b: Json ::
      h(d, a) == h(e, b) && Domain(d) && Domain(e) ==> d == e && a == b
  }

  lemma SameDigest(h: Digester, d: string, a: Json, e: string, b: Json)
    requires Ideal(h) && Domain(d) && Domain(e) && h(d, a) == h(e, b)
    ensures d == e && a == b
  {
  }

  // ----- UTF-8 ---------------------------------------------------------------

  function Utf8Char(c: char): (s: seq<Byte>)
    ensures 1 <= |s| <= 4
  {
    var n := c as int;
    if n < 0x80 then [n]
    else if n < 0x800 then [0xC0 + n / 64, 0x80 + n % 64]
    else if n < 0x10000 then [0xE0 + n / 4096, 0x80 + n / 64 % 64, 0x80 + n % 64]
    else [0xF0 + n / 262144, 0x80 + n / 4096 % 64, 0x80 + n / 64 % 64, 0x80 + n % 64]
  }

  function Utf8(s: string): (b: seq<Byte>)
    ensures |b| <= 4 * |s|
  {
    if s == [] then [] else Utf8Char(s[0]) + Utf8(s[1..])
  }

  /** The first byte tells the length. */
  function Utf8Length(b: Byte): nat {
    if b < 0x80 then 1 else if b < 0xE0 then 2 else if b < 0xF0 then 3 else 4
  }

  lemma Utf8CharLength(c: char)
    ensures |Utf8Char(c)| == Utf8Length(Utf8Char(c)[0])
  {
  }

  /** What the bytes of one character stand for. */
  function Utf8Value(s: seq<Byte>): int
    requires 1 <= |s| <= 4
  {
    if |s| == 1 then s[0]
    else if |s| == 2 then (s[0] as int - 0xC0) * 64 + (s[1] as int - 0x80)
    else if |s| == 3 then (s[0] as int - 0xE0) * 4096 + (s[1] as int - 0x80) * 64 + (s[2] as int - 0x80)
    else (s[0] as int - 0xF0) * 262144 + (s[1] as int - 0x80) * 4096 + (s[2] as int - 0x80) * 64 + (s[3] as int - 0x80)
  }

  lemma Utf8ReadsBack(c: char)
    ensures Utf8Value(Utf8Char(c)) == c as int
  {
    var n := c as int;
    assert n == n / 64 * 64 + n % 64;
    assert n / 64 == n / 4096 * 64 + n / 64 % 64;
    assert n / 4096 == n / 262144 * 64 + n / 4096 % 64;
  }

  lemma Utf8CharSplit(c: char, d: char, x: seq<Byte>, y: seq<Byte>)
    requires Utf8Char(c) + x == Utf8Char(d) + y
    ensures c == d && x == y
  {
    assert (Utf8Char(c) + x)[0] == Utf8Char(c)[0] && (Utf8Char(d) + y)[0] == Utf8Char(d)[0];
    Utf8CharLength(c);
    Utf8CharLength(d);
    Utf8ReadsBack(c);
    Utf8ReadsBack(d);
    hide *;
    SameLengthSplit(Utf8Char(c), Utf8Char(d), x, y);
    assert c as int == d as int;
  }

  lemma {:induction false} Utf8Injective(s: string, t: string)
    requires Utf8(s) == Utf8(t)
    ensures s == t
  {
    hide Utf8Char;
    if s != [] && t != [] {
      Utf8CharSplit(s[0], t[0], Utf8(s[1..]), Utf8(t[1..]));
      Utf8Injective(s[1..], t[1..]);
      assert s == [s[0]] + s[1..] && t == [t[0]] + t[1..];
    }
  }

  // ----- frames --------------------------------------------------------------

  /** `n.to_bytes(size, "big")`, which the source only applies to numbers that fit. */
  function BigEndian(n: nat, size: nat): (s: seq<Byte>)
    ensures |s| == size
  {
    if size == 0 then [] else BigEndian(n / 256, size - 1) + [n % 256]
  }

  lemma TwoBytes(m: nat, n: nat)
    requires m < 65536 && n < 65536 && BigEndian(m, 2) == BigEndian(n, 2)
    ensures m == n
  {
    assert BigEndian(m, 2) == [m / 256 % 256, m % 256] by { TwoBytesAre(m); }
    assert BigEndian(n, 2) == [n / 256 % 256, n % 256] by { TwoBytesAre(n); }
    assert BigEndian(m, 2)[0] == BigEndian(n, 2)[0] && BigEndian(m, 2)[1] == BigEndian(n, 2)[1];
  }

  lemma TwoBytesAre(n: nat)
    ensures BigEndian(n, 2) == [n / 256 % 256, n % 256]
  {
    assert BigEndian(n / 256, 1) == BigEndian(n / 256 / 256, 0) + [n / 256 % 256] == [n / 256 % 256];
  }

  function Frame(domain: string, payload: seq<Byte>): seq<Byte> {
    BigEndian(|Utf8(domain)|, 2) + (Utf8(domain) + (BigEndian(|payload|, 8) + payload))
  }

  /** Domain names that fit their length field. */
  predicate Domain(d: string) {
    |d| < 16384
  }

  lemma FrameInjective(d: string, p: seq<Byte>, e: string, q: seq<Byte>)
    requires Domain(d) && Domain(e) && Frame(d, p) == Frame(e, q)
    ensures d == e && p == q
  {
    var x, y := BigEndian(|p|, 8) + p, BigEndian(|q|, 8) + q;
    hide BigEndian, Utf8;
    SameLengthSplit(BigEndian(|Utf8(d)|, 2), BigEndian(|Utf8(e)|, 2), Utf8(d) + x, Utf8(e) + y);
    TwoBytes(|Utf8(d)|, |Utf8(e)|);
    SameLengthSplit(Utf8(d), Utf8(e), x, y);
    SameLengthSplit(BigEndian(|p|, 8), BigEndian(|q|, 8), p, q);
    Utf8Injective(d, e);
  }

  // ----- digests -------------------------------------------------------------

  function Digest(h: Hash, domain: string, v: Json): string {
    h(Frame(domain, Utf8(Print(v))))
  }

  lemma DigestInjective(h: Hash, d: string, a: Json, e: string, b: Json)
    requires CollisionFree(h) && Domain(d) && Domain(e) && Digest(h, d, a) == Digest(h, e, b)
    ensures d == e && a == b
  {
    hide Frame, Utf8, Print;
    var p, q := Utf8(Print(a)), Utf8(Print(b));
    assert Frame(d, p) == Frame(e, q);
    FrameInjective(d, p, e, q);
    Utf8Injective(Print(a), Print(b));
    PrintInjective(a, b);
  }

  function DomainSeparated(h: Hash): Digester {
    (domain: string, v: Json) => Digest(h, domain, v)
  }

  /** With a collision-free hash underneath, the framed canonical digest is ideal. */
  lemma DomainSeparatedIsIdeal(h: Hash)
    requires CollisionFree(h)
    ensures Ideal(DomainSeparated(h))
  {
    hide Digest, CollisionFree;
    var f := DomainSeparated(h);
    forall d: string, a: Json, e: string, b: Json | f(d, a) == f(e, b) && Domain(d) && Domain(e)
      ensures d == e && a == b
    {
      DigestInjective(h, d, a, e, b);
    }
  }
}
