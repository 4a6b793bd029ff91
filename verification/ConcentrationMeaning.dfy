/** What the concentration metrics are (planrace/scoring_v2.py:721-740), with neither sorting
    nor normalising: the Gini coefficient is the sum of the gaps between all pairs of values
    over the count and the total, the Herfindahl index the sum of the squared shares. */
module ConcentrationMeaning {
  import opened Statistics
  import opened ConcentrationMetrics

  /** The gaps between `x` and each of the values. */
  function Gaps(x: real, v: seq<real>): real {
    if v == [] then 0.0 else (if x <= v[0] then v[0] - x else x - v[0]) + Gaps(x, v[1..])
  }

  /** The gaps between all pairs of values, each pair once. */
  function PairGaps(v: seq<real>): real {
    if v == [] then 0.0 else Gaps(v[0], v[1..]) + PairGaps(v[1..])
  }

  // ----- independence of order -----------------------------------------------

  lemma {:induction false} GapsInsert(x: real, y: real, s: seq<real>)
    ensures Gaps(x, Insert(y, s)) == (if x <= y then y - x else x - y) + Gaps(x, s)
  {
    if s == [] || y <= s[0] {
      assert ([y] + s)[1..] == s;
    } else {
      GapsInsert(x, y, s[1..]);
      assert ([s[0]] + Insert(y, s[1..]))[1..] == Insert(y, s[1..]);
    }
  }

  lemma {:induction false} PairGapsInsert(x: real, s: seq<real>)
    ensures PairGaps(Insert(x, s)) == Gaps(x, s) + PairGaps(s)
  {
    if s == [] || x <= s[0] {
      assert ([x] + s)[1..] == s;
    } else {
      PairGapsInsert(x, s[1..]);
      GapsInsert(s[0], x, s[1..]);
      assert ([s[0]] + Insert(x, s[1..]))[1..] == Insert(x, s[1..]);
    }
  }

  lemma {:induction false} GapsSort(x: real, v: seq<real>)
    ensures Gaps(x, Sort(v)) == Gaps(x, v)
  {
    if v != [] {
      GapsSort(x, v[1..]);
      GapsInsert(x, v[0], Sort(v[1..]));
    }
  }

  lemma {:induction false} PairGapsSort(v: seq<real>)
    ensures PairGaps(Sort(v)) == PairGaps(v)
  {
    if v != [] {
      PairGapsSort(v[1..]);
      PairGapsInsert(v[0], Sort(v[1..]));
      GapsSort(v[0], v[1..]);
    }
  }

  lemma {:induction false} SquaresInsert(x: real, s: seq<real>)
    ensures Squares(Insert(x, s)) == Times(x, x) + Squares(s)
  {
    hide Times;
    if s == [] || x <= s[0] {
      assert ([x] + s)[1..] == s;
    } else {
      SquaresInsert(x, s[1..]);
      assert ([s[0]] + Insert(x, s[1..]))[1..] == Insert(x, s[1..]);
    }
  }

  lemma {:induction false} SquaresSort(v: seq<real>)
    ensures Squares(Sort(v)) == Squares(v)
  {
    if v != [] {
      SquaresSort(v[1..]);
      SquaresInsert(v[0], Sort(v[1..]));
    }
  }

  // ----- the numerators ------------------------------------------------------

  lemma {:induction false} GapsAbove(x: real, v: seq<real>)
    requires forall i :: 0 <= i < |v| ==> x <= v[i]
    ensures Gaps(x, v) == Sum(v) - Times(|v| as real, x)
  {
    if v == [] {
      ZeroTimes(x);
    } else {
      GapsAbove(x, v[1..]);
      ScaleByCount(|v|, x);
    }
  }

  /** Weighing sorted values by their rank adds up the gaps between all pairs. */
  lemma {:induction false} RanksAddGaps(v: seq<real>)
    requires Sorted(v)
    ensures GiniNumerator(v, 1, |v|) == PairGaps(v)
  {
    if v != [] {
      RanksAddGaps(v[1..]);
      GapsAbove(v[0], v[1..]);
      GiniStep(v);
    }
  }

  lemma OverGap(a: real, b: real, n: real)
    requires n > 0.0
    ensures a <= b <==> Over(a, n) <= Over(b, n)
    ensures Over(b - a, n) == Over(b, n) - Over(a, n)
  {
    OverSum(b - a, a, n);
    if a <= b { OverMonotone(a, b, n); } else { OverMonotone(b, a, n); OverDiffers(b, a, n); }
  }

  lemma OverDiffers(a: real, b: real, n: real)
    requires n > 0.0 && a != b
    ensures Over(a, n) != Over(b, n)
  {
    OverTimes(a, n);
    OverTimes(b, n);
  }

  lemma {:induction false} GapsNormalized(x: real, v: seq<real>, total: real)
    requires total > 0.0
    ensures Gaps(Over(x, total), Normalized(v, total)) == Over(Gaps(x, v), total)
  {
    if v == [] {
      assert Over(0.0, total) == 0.0;
    } else {
      GapsNormalized(x, v[1..], total);
      OverGap(x, v[0], total);
      OverGap(v[0], x, total);
      assert Normalized(v, total)[1..] == Normalized(v[1..], total);
      OverSum(if x <= v[0] then v[0] - x else x - v[0], Gaps(x, v[1..]), total);
      hide Over;
    }
  }

  lemma {:induction false} PairGapsNormalized(v: seq<real>, total: real)
    requires total > 0.0
    ensures PairGaps(Normalized(v, total)) == Over(PairGaps(v), total)
  {
    if v == [] {
      assert Over(0.0, total) == 0.0;
    } else {
      PairGapsNormalized(v[1..], total);
      GapsNormalized(v[0], v[1..], total);
      assert Normalized(v, total)[1..] == Normalized(v[1..], total);
      OverSum(Gaps(v[0], v[1..]), PairGaps(v[1..]), total);
      hide Over;
    }
  }

  lemma SquareOver(x: real, n: real)
    requires n > 0.0
    ensures Times(n, n) > 0.0
    ensures Times(Over(x, n), Over(x, n)) == Over(Times(x, x), Times(n, n))
  {
    ProductNonNegative(n, n);
    var q := Over(x, n);
    OverTimes(x, n);
    assert (q * q) * (n * n) == (q * n) * (q * n);
    TimesOver(Times(q, q), Times(n, n));
  }

  lemma {:induction false} SquaresNormalized(v: seq<real>, total: real)
    requires total > 0.0
    ensures Times(total, total) != 0.0
    ensures Squares(Normalized(v, total)) == Over(Squares(v), Times(total, total))
  {
    ProductNonNegative(total, total);
    if v == [] {
      assert Over(0.0, Times(total, total)) == 0.0;
    } else {
      SquaresNormalized(v[1..], total);
      SquareOver(v[0], total);
      assert Normalized(v, total)[1..] == Normalized(v[1..], total);
      OverSum(Times(v[0], v[0]), Squares(v[1..]), Times(total, total));
      hide Over, Times;
    }
  }

  // ----- the metrics ---------------------------------------------------------

  /** `q` holds the squares of the values. */
  ghost predicate SquaresOf(values: seq<real>, q: seq<real>) {
    |q| == |values| && forall i :: 0 <= i < |q| ==> q[i] == values[i] * values[i]
  }

  lemma {:induction false} SquaresAre(v: seq<real>, q: seq<real>)
    requires SquaresOf(v, q)
    ensures Squares(v) == Sum(q)
  {
    if v != [] {
      assert SquaresOf(v[1..], q[1..]);
      SquaresAre(v[1..], q[1..]);
    }
  }

  ghost predicate IsGini(gini: real, gaps: real, total: real, count: nat) {
    total != 0.0 && count > 0 && gini == gaps / total / count as real
  }

  ghost predicate IsHerfindahl(hhi: real, squares: real, total: real) {
    total * total != 0.0 && hhi == squares / (total * total) > 0.0
  }

  ghost predicate AreInverse(x: real, y: real) {
    x * y == 1.0
  }

  ghost predicate IsLargestShare(top: real, values: seq<real>, total: real) {
    && total != 0.0
    && (exists i :: 0 <= i < |values| && top == values[i] / total)
    && (forall i :: 0 <= i < |values| ==> values[i] / total <= top)
  }

  /** The metrics of values with the squares `q`. */
  ghost predicate MetricsOf(m: Metrics, values: seq<real>, q: seq<real>) {
    && IsGini(m.gini, PairGaps(values), Sum(values), |values|)
    && IsHerfindahl(m.hhi, Sum(q), Sum(values))
    && AreInverse(m.effectiveMiners, m.hhi)
    && IsLargestShare(m.top1Share, values, Sum(values))
  }

  lemma TopShare(v: seq<real>, total: real)
    requires v != [] && total > 0.0
    ensures IsLargestShare(Maximum(Normalized(Sort(v), total)), v, total)
  {
    var s := Sort(v);
    var shares := Normalized(s, total);
    SortMultiset(v);
    MaximumBounds(shares);
    var k :| 0 <= k < |shares| && shares[k] == Maximum(shares);
    NormalizedAt(s, total, k);
    InPermutation(s, v, k);
    var j :| 0 <= j < |v| && v[j] == s[k];
    assert Maximum(shares) == v[j] / total;
    forall i | 0 <= i < |v| ensures v[i] / total <= Maximum(shares) {
      InPermutation(v, s, i);
      var l :| 0 <= l < |s| && s[l] == v[i];
      NormalizedAt(s, total, l);
    }
  }

  lemma GiniIs(v: seq<real>, total: real)
    requires v != [] && total > 0.0
    ensures var shares := Normalized(Sort(v), total);
            |shares| == |v|
            && IsGini(Over(GiniNumerator(shares, 1, |shares|), |shares| as real), PairGaps(v), total, |v|)
  {
    var s := Sort(v);
    SortSorted(v);
    PairGapsSort(v);
    assert Over(PairGaps(v), total) == PairGaps(v) / total;
    hide Sort, PairGaps, Normalized, GiniNumerator, Sum;
    PairGapsNormalized(s, total);
    SharesSorted(s, total);
    RanksAddGaps(Normalized(s, total));
  }

  lemma SharesSorted(s: seq<real>, total: real)
    requires Sorted(s) && total > 0.0
    ensures Sorted(Normalized(s, total))
  {
    forall i, j | 0 <= i < j < |s| ensures Normalized(s, total)[i] <= Normalized(s, total)[j] {
      NormalizedAt(s, total, i);
      NormalizedAt(s, total, j);
      OverOrder(s[i], s[j], total);
    }
  }

  lemma HhiIs(v: seq<real>, total: real, q: seq<real>)
    requires total > 0.0 && SquaresOf(v, q)
    requires Squares(Normalized(Sort(v), total)) > 0.0
    ensures IsHerfindahl(Squares(Normalized(Sort(v), total)), Sum(q), total)
  {
    ProductNonNegative(total, total);
    assert Times(total, total) == total * total;
    SquaresSort(v);
    SquaresAre(v, q);
    hide Sort, Squares, Normalized, SquaresOf;
    SquaresNormalized(Sort(v), total);
  }

  /** What the metrics of nonnegative weights with a positive total are. */
  lemma MetricsMean(values: seq<real>, q: seq<real>)
    requires (forall i :: 0 <= i < |values| ==> values[i] >= 0.0) && Sum(values) > 0.0 && SquaresOf(values, q)
    ensures values != [] && Measure(values).Measured? && MetricsOf(Measure(values).metrics, values, q)
  {
    var total := Sum(values);
    var shares := Normalized(Sort(values), total);
    SumSort(values);
    SortedSharesOf(values);
    HhiBounds(shares);
    var hhi := Squares(shares);
    assert values != [] && Sum(Sort(values)) == total != 0.0;
    assert Measure(values) == Measured(Metrics(
        Over(GiniNumerator(shares, 1, |shares|), |shares| as real), hhi, Maximum(shares), Over(1.0, hhi)));
    hide *;
    GiniIs(values, total);
    HhiIs(values, total, q);
    TopShare(values, total);
    Inverse(hhi);
    MetricsAre(Measure(values).metrics, values, q);
  }

  lemma Inverse(x: real)
    requires x > 0.0
    ensures AreInverse(Over(1.0, x), x)
  {
    OverTimes(1.0, x);
  }

  lemma MetricsAre(m: Metrics, values: seq<real>, q: seq<real>)
    requires IsGini(m.gini, PairGaps(values), Sum(values), |values|) && IsHerfindahl(m.hhi, Sum(q), Sum(values))
    requires AreInverse(m.effectiveMiners, m.hhi) && IsLargestShare(m.top1Share, values, Sum(values))
    ensures MetricsOf(m, values, q)
  {
  }

  /** Nothing is measured for a negative weight, and zeros for no weight at all. */
  lemma MetricsOfNothing(values: seq<real>)
    ensures Measure(values).NegativeWeight? <==> exists i :: 0 <= i < |values| && values[i] < 0.0
    ensures Sum(values) == 0.0 && Measure(values).Measured? ==>
              Measure(values).metrics == Metrics(0.0, 0.0, 0.0, 0.0)
  {
    SumSort(values);
  }
}
