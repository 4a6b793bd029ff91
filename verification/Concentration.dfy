/** `concentration_metrics` (planrace/scoring_v2.py:721-740). */
module ConcentrationMetrics {
  import opened Statistics
  import opened MapTotals

  datatype Metrics = Metrics(gini: real, hhi: real, top1Share: real, effectiveMiners: real)
  datatype Outcome = Measured(metrics: Metrics) | NegativeWeight

  function Normalized(v: seq<real>, total: real): (r: seq<real>)
    requires total != 0.0
    ensures |r| == |v|
  {
    if v == [] then [] else [Over(v[0], total)] + Normalized(v[1..], total)
  }

  /** The sum of `(2 * index - count - 1) * value` from position `index` on. */
  function GiniNumerator(v: seq<real>, index: nat, count: nat): real {
    if v == [] then 0.0
    else Times((2 * index - count - 1) as real, v[0]) + GiniNumerator(v[1..], index + 1, count)
  }

  function Squares(v: seq<real>): real {
    if v == [] then 0.0 else Times(v[0], v[0]) + Squares(v[1..])
  }

  function Maximum(v: seq<real>): real
    requires v != []
  {
    if |v| == 1 then v[0] else MaxReal(v[0], Maximum(v[1..]))
  }

  function Measure(values: seq<real>): Outcome {
    if exists i :: 0 <= i < |values| && values[i] < 0.0 then NegativeWeight
    else
      var ordered := Sort(values);
      var total := Sum(ordered);
      if values == [] || total == 0.0 then Measured(Metrics(0.0, 0.0, 0.0, 0.0))
      else
        var shares := Normalized(ordered, total);
        var hhi := Squares(shares);
        Measured(Metrics(
          Over(GiniNumerator(shares, 1, |shares|), |shares| as real),
          hhi,
          Maximum(shares),
          if hhi == 0.0 then 0.0 else Over(1.0, hhi)))
  }

  /** Nonnegative shares in ascending order that sum to one. */
  ghost predicate Shares(v: seq<real>) {
    && v != [] && Sum(v) == 1.0 && Sorted(v)
    && forall i :: 0 <= i < |v| ==> v[i] >= 0.0
  }

  // ----- from values to shares -----------------------------------------------

  lemma {:induction false} NormalizedAt(v: seq<real>, total: real, i: nat)
    requires total != 0.0 && i < |v|
    ensures Normalized(v, total)[i] == Over(v[i], total)
  {
    if i > 0 { NormalizedAt(v[1..], total, i - 1); }
  }

  lemma {:induction false} NormalizedSum(v: seq<real>, total: real)
    requires total != 0.0
    ensures Sum(Normalized(v, total)) == Over(Sum(v), total)
  {
    if v != [] {
      NormalizedSum(v[1..], total);
      OverSum(v[0], Sum(v[1..]), total);
    }
  }

  lemma OverOrder(a: real, b: real, n: real)
    requires n > 0.0 && a <= b
    ensures Over(a, n) <= Over(b, n)
    ensures a >= 0.0 ==> Over(a, n) >= 0.0
  {
    OverSum(a, b - a, n);
    assert Over(b - a, n) >= 0.0;
  }

  lemma NormalizedShares(v: seq<real>, total: real)
    requires v != [] && Sorted(v) && total == Sum(v) > 0.0
    requires forall i :: 0 <= i < |v| ==> v[i] >= 0.0
    ensures Shares(Normalized(v, total))
  {
    var s := Normalized(v, total);
    NormalizedSum(v, total);
    WholeOver(total);
    forall i, j | 0 <= i < j < |s| ensures s[i] <= s[j] {
      NormalizedAt(v, total, i);
      NormalizedAt(v, total, j);
      OverOrder(v[i], v[j], total);
    }
    forall i | 0 <= i < |s| ensures s[i] >= 0.0 {
      NormalizedAt(v, total, i);
      OverOrder(v[i], v[i], total);
    }
  }

  lemma SortedSharesOf(values: seq<real>)
    requires (forall i :: 0 <= i < |values| ==> values[i] >= 0.0) && Sum(values) > 0.0
    ensures Sum(Sort(values)) == Sum(values)
    ensures Shares(Normalized(Sort(values), Sum(values)))
  {
    SumSort(values);
    SortSorted(values);
    SortMultiset(values);
    forall i | 0 <= i < |values| ensures Sort(values)[i] >= 0.0 {
      InPermutation(Sort(values), values, i);
    }
    NormalizedShares(Sort(values), Sum(values));
  }

  // ----- bounds on shares ----------------------------------------------------

  lemma SquareAbove(x: real, t: real)
    ensures Times(x, x) >= 2.0 * Times(t, x) - Times(t, t)
  {
    assert (x - t) * (x - t) >= 0.0;
  }

  lemma {:induction false} SquaresAbove(v: seq<real>, t: real)
    ensures Squares(v) >= 2.0 * Times(t, Sum(v)) - Times(|v| as real, Times(t, t))
  {
    if v != [] {
      SquaresAbove(v[1..], t);
      SquareAbove(v[0], t);
      TimesSum(t, v[0], Sum(v[1..]));
      ScaleByCount(|v|, Times(t, t));
    }
  }

  lemma {:induction false} MaximumBounds(v: seq<real>)
    requires v != []
    ensures forall i :: 0 <= i < |v| ==> v[i] <= Maximum(v)
    ensures Maximum(v) in v
  {
    if |v| > 1 {
      MaximumBounds(v[1..]);
      assert v == [v[0]] + v[1..];
    }
  }

  lemma {:induction false} SquaresBelow(v: seq<real>, top: real)
    requires forall i :: 0 <= i < |v| ==> 0.0 <= v[i] <= top
    ensures Squares(v) <= Times(top, Sum(v))
  {
    if v != [] {
      SquaresBelow(v[1..], top);
      assert v[0] * (top - v[0]) >= 0.0;
      assert Times(v[0], v[0]) <= Times(top, v[0]);
      TimesSum(top, v[0], Sum(v[1..]));
    }
  }

  lemma {:induction false} EachBelowSum(v: seq<real>, i: nat)
    requires i < |v| && forall j :: 0 <= j < |v| ==> v[j] >= 0.0
    ensures v[i] <= Sum(v)
  {
    SumBetweenZero(v[1..]);
    if i > 0 { EachBelowSum(v[1..], i - 1); }
  }

  lemma {:induction false} SumBetweenZero(v: seq<real>)
    requires forall j :: 0 <= j < |v| ==> v[j] >= 0.0
    ensures Sum(v) >= 0.0
  {
    if v != [] { SumBetweenZero(v[1..]); }
  }

  lemma {:induction false} GiniShift(v: seq<real>, index: nat, count: nat)
    ensures GiniNumerator(v, index + 1, count + 1) == GiniNumerator(v, index, count) + Sum(v)
  {
    if v != [] {
      GiniShift(v[1..], index + 1, count);
      var c := 2 * index - count - 1;
      assert 2 * (index + 1) - (count + 1) - 1 == c + 1;
      assert Times((c + 1) as real, v[0]) == Times(c as real, v[0]) + v[0] by {
        assert (c + 1) as real == c as real + 1.0;
      }
    }
  }

  lemma {:induction false} SumAbove(v: seq<real>, low: real)
    requires forall i :: 0 <= i < |v| ==> v[i] >= low
    ensures Sum(v) >= Times(|v| as real, low)
  {
    if v != [] {
      SumAbove(v[1..], low);
      ScaleByCount(|v|, low);
    }
  }

  /** The first of n sorted values enters with weight 1 - n. */
  lemma GiniStep(v: seq<real>)
    requires v != []
    ensures GiniNumerator(v, 1, |v|)
         == GiniNumerator(v[1..], 1, |v| - 1) + Sum(v[1..]) - Times((|v| - 1) as real, v[0])
  {
    hide Times, Sum;
    GiniShift(v[1..], 1, |v| - 1);
    FirstCoefficient(|v|, v[0]);
  }

  lemma FirstCoefficient(n: nat, x: real)
    requires n > 0
    ensures Times((2 * 1 - n - 1) as real, x) == -Times((n - 1) as real, x)
  {
    assert (2 * 1 - n - 1) as real == -((n - 1) as real);
  }

  lemma {:induction false} GiniBounds(v: seq<real>)
    requires Sorted(v) && forall i :: 0 <= i < |v| ==> v[i] >= 0.0
    ensures v != [] ==> 0.0 <= GiniNumerator(v, 1, |v|) <= Times((|v| - 1) as real, Sum(v))
  {
    if |v| > 1 {
      var w, m := v[1..], |v| - 1;
      GiniBounds(w);
      GiniStep(v);
      SumAbove(w, v[0]);
      ScaleByCount(m, Sum(w));
      TimesSum(m as real, v[0], Sum(w));
      NonNegativeTimes(m, v[0]);
    } else if |v| == 1 {
      assert v[1..] == [];
    }
  }

  lemma NonNegativeTimes(n: nat, x: real)
    requires x >= 0.0
    ensures Times(n as real, x) >= 0.0
  {
  }

  /** The bounds that make the four numbers comparable across cohorts. */
  ghost predicate WithinBounds(m: Metrics, n: nat)
    requires n > 0
  {
    && 1.0 / n as real <= m.hhi <= m.top1Share <= 1.0
    && 0.0 <= m.gini <= (n - 1) as real / n as real
    && 1.0 <= m.effectiveMiners <= n as real
  }

  lemma HhiBounds(v: seq<real>)
    requires Shares(v)
    ensures 1.0 / |v| as real <= Squares(v) <= Maximum(v) <= 1.0
    ensures Squares(v) > 0.0
  {
    var n := |v| as real;
    var t := 1.0 / n;
    SquaresAbove(v, t);
    assert Times(t, 1.0) == t;
    assert Times(n, Times(t, t)) == t by { assert n * t == 1.0; TimesAssociate(n, t); }
    MaximumBounds(v);
    SquaresBelow(v, Maximum(v));
    assert Times(Maximum(v), 1.0) == Maximum(v);
    var i :| 0 <= i < |v| && v[i] == Maximum(v);
    EachBelowSum(v, i);
  }

  lemma TimesAssociate(n: real, t: real)
    requires n * t == 1.0
    ensures Times(n, Times(t, t)) == t
  {
    assert n * (t * t) == (n * t) * t;
  }

  lemma EffectiveBounds(hhi: real, n: nat)
    requires n > 0 && 1.0 / n as real <= hhi <= 1.0 && hhi > 0.0
    ensures 1.0 <= Over(1.0, hhi) <= n as real
  {
    var e, m := Over(1.0, hhi), n as real;
    assert e * hhi == 1.0 && e > 0.0;
    assert e * (1.0 - hhi) >= 0.0;
    assert e * (hhi - 1.0 / m) >= 0.0;
    QuotientBelow(e, m);
  }

  lemma QuotientBelow(e: real, m: real)
    requires m > 0.0 && e * (1.0 / m) <= 1.0
    ensures e <= m
  {
    assert e * (1.0 / m) == e / m;
  }

  lemma GiniQuotient(g: real, n: nat)
    requires n > 0 && 0.0 <= g <= (n - 1) as real
    ensures 0.0 <= Over(g, n as real) <= (n - 1) as real / n as real
  {
    OverOrder(g, (n - 1) as real, n as real);
  }

  /** For nonnegative weights with a positive total:
      1/n <= HHI <= top share <= 1, 0 <= Gini <= (n-1)/n and 1 <= 1/HHI <= n. */
  lemma ConcentrationBounds(values: seq<real>)
    requires (forall i :: 0 <= i < |values| ==> values[i] >= 0.0) && Sum(values) > 0.0
    ensures Measure(values).Measured? && |values| > 0 && WithinBounds(Measure(values).metrics, |values|)
  {
    SortedSharesOf(values);
    var v, n := Normalized(Sort(values), Sum(values)), |values|;
    assert n == |v| > 0;
    HhiBounds(v);
    EffectiveBounds(Squares(v), n);
    GiniBounds(v);
    assert Times((n - 1) as real, 1.0) == (n - 1) as real;
    GiniQuotient(GiniNumerator(v, 1, n), n);
  }

  // ----- metrics of a map ----------------------------------------------------

  /** The values of a mapping in some order; the metrics sort them. */
  ghost function Values(m: Masses, s: set<string>): (v: seq<real>)
    requires s <= m.Keys
    ensures |v| == |s|
    decreases |s|
  {
    if s == {} then [] else var k := Pick(s); [m[k]] + Values(m, s - {k})
  }

  lemma {:induction false} ValuesFacts(m: Masses, s: set<string>, bound: real)
    requires s <= m.Keys && forall k :: k in s ==> 0.0 <= m[k] <= bound
    ensures Sum(Values(m, s)) == SumOver(m, s)
    ensures forall i :: 0 <= i < |s| ==> 0.0 <= Values(m, s)[i] <= bound
    decreases |s|
  {
    if s != {} {
      var k := Pick(s);
      ValuesFacts(m, s - {k}, bound);
      assert Values(m, s)[1..] == Values(m, s - {k});
    }
  }

  lemma TopShareBelow(v: seq<real>, bound: real)
    requires v != [] && Sum(v) == 1.0 && forall i :: 0 <= i < |v| ==> 0.0 <= v[i] <= bound
    ensures Maximum(Normalized(Sort(v), 1.0)) <= bound
  {
    var s := Normalized(Sort(v), 1.0);
    MaximumBounds(s);
    var i :| 0 <= i < |s| && s[i] == Maximum(s);
    NormalizedAt(Sort(v), 1.0, i);
    SortMultiset(v);
    InPermutation(Sort(v), v, i);
    assert Over(Sort(v)[i], 1.0) == Sort(v)[i];
  }

  /** A distribution that respects a cap has a Herfindahl index below that cap. */
  lemma HhiBelowCap(m: Masses, bound: real)
    requires Total(m) == 1.0 && forall k :: k in m ==> 0.0 <= m[k] <= bound
    ensures var r := Measure(Values(m, m.Keys));
            r.Measured? && |m| > 0 && WithinBounds(r.metrics, |m|) && r.metrics.hhi <= bound
  {
    var v := Values(m, m.Keys);
    ValuesFacts(m, m.Keys, bound);
    assert |v| == |m.Keys| == |m|;
    ConcentrationBounds(v);
    TopShareBelow(v, bound);
    SumSort(v);
  }
}
