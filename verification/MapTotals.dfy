/** Sums of the values of a finite map over a set of its keys:
    `math.fsum(mapping.values())` on exact reals. */
module MapTotals {
  import opened Statistics

  type Masses = map<string, real>

  ghost function Pick(s: set<string>): (k: string)
    requires s != {}
    ensures k in s
  {
    var k :| k in s; k
  }

  ghost function SumOver(m: Masses, s: set<string>): real
    requires s <= m.Keys
    decreases |s|
  {
    if s == {} then 0.0
    else var k := Pick(s); m[k] + SumOver(m, s - {k})
  }

  ghost function Total(m: Masses): real {
    SumOver(m, m.Keys)
  }

  lemma {:induction false} SumRemove(m: Masses, s: set<string>, k: string)
    requires s <= m.Keys && k in s
    ensures SumOver(m, s) == m[k] + SumOver(m, s - {k})
    decreases |s|
  {
    var j := Pick(s);
    if j != k {
      SumRemove(m, s - {j}, k);
      SumRemove(m, s - {k}, j);
      assert s - {j} - {k} == s - {k} - {j};
    }
  }

  lemma {:induction false} SumSplit(m: Masses, s: set<string>, t: set<string>)
    requires t <= s <= m.Keys
    ensures SumOver(m, s) == SumOver(m, t) + SumOver(m, s - t)
    decreases |t|
  {
    if t == {} {
      assert s - t == s;
    } else {
      var k := Pick(t);
      SumSplit(m, s - {k}, t - {k});
      SumRemove(m, s, k);
      assert s - {k} - (t - {k}) == s - t;
    }
  }

  /** A pointwise bound with slack `gap` bounds the sums. */
  lemma {:induction false} SumMonotone(a: Masses, b: Masses, s: set<string>, gap: real)
    requires s <= a.Keys && s <= b.Keys && forall k :: k in s ==> a[k] <= b[k] + gap
    ensures SumOver(a, s) <= SumOver(b, s) + Times(|s| as real, gap)
    decreases |s|
  {
    if s != {} {
      var k := Pick(s);
      SumMonotone(a, b, s - {k}, gap);
      SumRemove(b, s, k);
      ScaleByCount(|s|, gap);
    }
  }

  lemma SumCongruent(a: Masses, b: Masses, s: set<string>)
    requires s <= a.Keys && s <= b.Keys && forall k :: k in s ==> a[k] == b[k]
    ensures SumOver(a, s) == SumOver(b, s)
  {
    SumMonotone(a, b, s, 0.0);
    SumMonotone(b, a, s, 0.0);
  }

  lemma SumStrict(a: Masses, b: Masses, s: set<string>)
    requires s != {} && s <= a.Keys && s <= b.Keys && forall k :: k in s ==> a[k] < b[k]
    ensures SumOver(a, s) < SumOver(b, s)
  {
    var k := Pick(s);
    SumMonotone(a, b, s - {k}, 0.0);
    SumRemove(a, s, k);
    SumRemove(b, s, k);
  }

  lemma {:induction false} SumConstant(m: Masses, s: set<string>, x: real)
    requires s <= m.Keys && forall k :: k in s ==> m[k] == x
    ensures SumOver(m, s) == Times(|s| as real, x)
    decreases |s|
  {
    if s != {} {
      var k := Pick(s);
      SumConstant(m, s - {k}, x);
      ScaleByCount(|s|, x);
    }
  }

  lemma {:induction false} SumScaled(a: Masses, b: Masses, s: set<string>, c: real)
    requires s <= a.Keys && s <= b.Keys && forall k :: k in s ==> b[k] == Times(c, a[k])
    ensures SumOver(b, s) == Times(c, SumOver(a, s))
    decreases |s|
  {
    if s != {} {
      var k := Pick(s);
      SumScaled(a, b, s - {k}, c);
      TimesSum(c, a[k], SumOver(a, s - {k}));
    }
  }

  lemma {:induction false} SumNonNegative(m: Masses, s: set<string>)
    requires s <= m.Keys && forall k :: k in s ==> m[k] >= 0.0
    ensures SumOver(m, s) >= 0.0
    decreases |s|
  {
    if s != {} { SumNonNegative(m, s - {Pick(s)}); }
  }

  lemma SumAtLeast(m: Masses, s: set<string>, k: string)
    requires s <= m.Keys && k in s && forall j :: j in s ==> m[j] >= 0.0
    ensures SumOver(m, s) >= m[k]
  {
    SumRemove(m, s, k);
    SumNonNegative(m, s - {k});
  }

  /** `math.fsum` over the selected values, as a loop. */
  method SumValues(m: Masses, s: set<string>) returns (sum: real)
    requires s <= m.Keys
    ensures sum == SumOver(m, s)
  {
    sum := 0.0;
    var rest := s;
    while rest != {}
      invariant rest <= s
      invariant sum + SumOver(m, rest) == SumOver(m, s)
      decreases |rest|
    {
      var k :| k in rest;
      SumRemove(m, rest, k);
      sum := sum + m[k];
      rest := rest - {k};
    }
  }
}
