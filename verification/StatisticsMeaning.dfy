/** What the statistics of planrace/scoring_v2.py compute, in terms of the samples in
    ascending order and of no function of the model: the width of the winsorisation, the
    winsorised mean, the median and the standard error. The winsorised mean is also
    monotone in every sample. */
module StatisticsMeaning {
  import opened Statistics

  /** `s` lists the samples `v` in ascending order. */
  ghost predicate Ascending(v: seq<real>, s: seq<real>) {
    Sorted(s) && multiset(s) == multiset(v)
  }

  // ----- sorting -------------------------------------------------------------

  lemma HeadWithin(s: seq<real>, t: seq<real>)
    requires Sorted(t) && multiset(s) == multiset(t) && s != []
    ensures |s| == |t| && t[0] <= s[0]
  {
    assert |s| == |multiset(s)| == |multiset(t)| == |t|;
    assert s[0] in multiset(t);
    var i :| 0 <= i < |t| && t[i] == s[0];
  }

  lemma TailMultiset(s: seq<real>)
    requires s != []
    ensures multiset(s[1..]) == multiset(s) - multiset{s[0]}
  {
    assert s == [s[0]] + s[1..];
  }

  lemma {:induction false} AscendingUnique(s: seq<real>, t: seq<real>)
    requires Sorted(s) && Sorted(t) && multiset(s) == multiset(t)
    ensures s == t
  {
    if s == [] {
      assert |t| == |multiset(t)| == |multiset(s)| == 0;
    } else {
      HeadWithin(s, t);
      HeadWithin(t, s);
      TailMultiset(s);
      TailMultiset(t);
      AscendingUnique(s[1..], t[1..]);
      assert s == [s[0]] + s[1..] && t == [t[0]] + t[1..];
    }
  }

  lemma SortIs(v: seq<real>, s: seq<real>)
    requires Ascending(v, s)
    ensures Sort(v) == s
  {
    SortSorted(v);
    SortMultiset(v);
    AscendingUnique(Sort(v), s);
  }

  lemma AscendingSort(v: seq<real>)
    ensures Ascending(v, Sort(v))
  {
    SortSorted(v);
    SortMultiset(v);
  }

  // ----- the width -----------------------------------------------------------

  /** A width is allowed when it leaves a sample in the middle and does not exceed the
      fraction, or the minimum width where there is a fraction at all. */
  ghost predicate AllowedWidth(n: nat, fraction: real, minimumWidth: nat, k: nat) {
    2 * k < n && (k as real <= n as real * fraction || (fraction != 0.0 && k <= minimumWidth))
  }

  lemma WithinFloor(k: nat, x: real)
    requires x >= 0.0
    ensures k as real <= x <==> k <= x.Floor
  {
  }

  /** The width is the largest allowed one. */
  lemma WidthIsLargest(n: nat, fraction: real, minimumWidth: nat, k: nat)
    requires n > 0 && 0.0 <= fraction < 0.5
    ensures AllowedWidth(n, fraction, minimumWidth, k) <==> k <= Width(n, fraction, minimumWidth)
  {
    var x := n as real * fraction;
    assert x == Times(n as real, fraction) && x >= 0.0;
    WithinFloor(k, x);
    hide Times;
  }

  // ----- the winsorised mean -------------------------------------------------

  /** The samples in ascending order, the `w` smallest and largest pulled in. */
  ghost predicate PulledIn(s: seq<real>, w: nat, p: seq<real>) {
    && 2 * w < |s| && |p| == |s|
    && (forall i :: 0 <= i < w ==> p[i] == s[w])
    && (forall i :: w <= i < |s| - w ==> p[i] == s[i])
    && (forall i :: |s| - w <= i < |s| ==> p[i] == s[|s| - 1 - w])
  }

  lemma {:induction false} ClampAt(lower: real, upper: real, v: seq<real>, i: nat)
    requires i < |v|
    ensures ClampAll(lower, upper, v)[i] == MinReal(upper, MaxReal(lower, v[i]))
  {
    if i > 0 { ClampAt(lower, upper, v[1..], i - 1); }
  }

  lemma ClampedIsPulledIn(s: seq<real>, w: nat, p: seq<real>)
    requires Sorted(s) && PulledIn(s, w, p)
    ensures ClampAll(s[w], s[|s| - 1 - w], s) == p
  {
    var c := ClampAll(s[w], s[|s| - 1 - w], s);
    forall i | 0 <= i < |s| ensures c[i] == p[i] {
      ClampAt(s[w], s[|s| - 1 - w], s, i);
    }
  }

  lemma ClampedMeanIs(s: seq<real>, w: nat, p: seq<real>)
    requires Sorted(s) && PulledIn(s, w, p)
    ensures ClampedMean(s, w) == Mean(p)
  {
    if w == 0 { assert p == s; } else { ClampedIsPulledIn(s, w, p); }
  }

  lemma WidthIs(n: nat, fraction: real, minimumWidth: nat, w: nat)
    requires n > 0 && 0.0 <= fraction < 0.5
    requires forall k: nat :: AllowedWidth(n, fraction, minimumWidth, k) <==> k <= w
    ensures w == Width(n, fraction, minimumWidth)
  {
    hide *;
    WidthIsLargest(n, fraction, minimumWidth, w);
    WidthIsLargest(n, fraction, minimumWidth, Width(n, fraction, minimumWidth));
  }

  lemma CenterIs(v: seq<real>, fraction: real, minimumWidth: nat, s: seq<real>, p: seq<real>)
    requires v != [] && 0.0 <= fraction < 0.5 && Ascending(v, s)
    requires PulledIn(s, Width(|v|, fraction, minimumWidth), p)
    ensures |p| == |v| && WinsorizedMean(v, fraction, minimumWidth) == Mean(p)
  {
    SortIs(v, s);
    assert Sorted(s);
    hide Sort, Mean, ClampedMean, Width;
    ClampedMeanIs(s, Width(|v|, fraction, minimumWidth), p);
  }

  /** The winsorised mean: every sample below the `w`-th smallest counts as that one, every
      sample above the `w`-th largest as that one, and the sum is divided by all. */
  lemma WinsorizedMeanIs(v: seq<real>, fraction: real, minimumWidth: nat, s: seq<real>, w: nat, p: seq<real>)
    requires v != [] && 0.0 <= fraction < 0.5 && Ascending(v, s)
    requires forall k: nat :: AllowedWidth(|v|, fraction, minimumWidth, k) <==> k <= w
    requires PulledIn(s, w, p)
    ensures |p| == |v| && WinsorizedMean(v, fraction, minimumWidth) == Sum(p) / |p| as real
  {
    WidthIs(|v|, fraction, minimumWidth, w);
    CenterIs(v, fraction, minimumWidth, s, p);
    hide PulledIn, Ascending, WinsorizedMean;
    assert Mean(p) == Sum(p) / |p| as real;
  }

  // ----- the median and the standard error -----------------------------------

  /** `m` is the middle sample, or half-way between the two middle ones. */
  ghost predicate IsMedian(v: seq<real>, m: real) {
    exists s: seq<real> :: Ascending(v, s) && |s| > 0 && 2.0 * m == s[(|s| - 1) / 2] + s[|s| / 2]
  }

  lemma MiddleIs(s: seq<real>)
    requires s != []
    ensures 2.0 * Middle(s) == s[(|s| - 1) / 2] + s[|s| / 2]
  {
    if |s| % 2 == 0 { OverTimes(s[|s| / 2 - 1] + s[|s| / 2], 2.0); }
  }

  lemma MedianIs(v: seq<real>, m: real)
    requires v != []
    ensures IsMedian(v, m) <==> m == Median(v)
  {
    AscendingSort(v);
    MiddleIs(Sort(v));
    if IsMedian(v, m) {
      var s :| Ascending(v, s) && |s| > 0 && 2.0 * m == s[(|s| - 1) / 2] + s[|s| / 2];
      SortIs(v, s);
    }
  }

  /** `d` holds the distances of the samples from `m`. */
  ghost predicate DistancesFrom(v: seq<real>, m: real, d: seq<real>) {
    |d| == |v| && forall i :: 0 <= i < |d| ==> d[i] == if v[i] >= m then v[i] - m else m - v[i]
  }

  lemma {:induction false} DeviationsAre(v: seq<real>, m: real, d: seq<real>)
    requires DistancesFrom(v, m, d)
    ensures d == Deviations(v, m)
  {
    if v != [] {
      DeviationsAre(v[1..], m, d[1..]);
      assert d == [d[0]] + d[1..];
    }
  }

  /** The standard error: 1.4826 times the median distance from the median, over the
      root of the sample count; a lone sample has none. */
  lemma StandardErrorIs(v: seq<real>, fn: Analysis, m: real, d: seq<real>, mad: real)
    requires fn.RootLaws() && IsMedian(v, m) && DistancesFrom(v, m, d) && IsMedian(d, mad)
    ensures |v| >= 2 ==> fn.root(|v|) > 0.0 && RobustStandardError(v, fn) == 1.4826 * mad / fn.root(|v|)
    ensures |v| < 2 ==> RobustStandardError(v, fn) == 0.0
  {
    if |v| >= 2 {
      MedianIs(v, m);
      DeviationsAre(v, m, d);
      MedianIs(d, mad);
      assert MedianDeviation(v) == mad;
      hide IsMedian, DistancesFrom, MedianDeviation;
    }
  }

  /** The samples 1, 2, 4, 11 lie 2, 1, 1, 8 from their median 3. */
  lemma SpreadExample(fn: Analysis)
    requires fn.RootLaws()
    ensures fn.root(4) > 0.0 && RobustStandardError([4.0, 1.0, 11.0, 2.0], fn) == 1.4826 * 1.5 / fn.root(4)
  {
    SpreadOf([4.0, 1.0, 11.0, 2.0], [1.0, 2.0, 8.0, 1.0], fn);
  }

  lemma SpreadOf(v: seq<real>, d: seq<real>, fn: Analysis)
    requires fn.RootLaws() && v == [4.0, 1.0, 11.0, 2.0] && d == [1.0, 2.0, 8.0, 1.0]
    ensures fn.root(4) > 0.0 && RobustStandardError(v, fn) == 1.4826 * 1.5 / fn.root(4)
  {
    assert |v| == 4 && DistancesFrom(v, 3.0, d);
    assert multiset(v) == multiset{1.0, 2.0, 4.0, 11.0};
    assert multiset(d) == multiset{1.0, 1.0, 2.0, 8.0};
    hide *;
    MedianOfFour(v, 1.0, 2.0, 4.0, 11.0);
    MedianOfFour(d, 1.0, 1.0, 2.0, 8.0);
    StandardErrorIs(v, fn, 3.0, d, 1.5);
  }

  lemma MedianOfFour(v: seq<real>, a: real, b: real, c: real, d: real)
    requires a <= b <= c <= d && multiset(v) == multiset{a, b, c, d}
    ensures IsMedian(v, (b + c) / 2.0)
  {
    var s := [a, b, c, d];
    assert Ascending(v, s) && s[(|s| - 1) / 2] == b && s[|s| / 2] == c;
  }

  // ----- monotonicity --------------------------------------------------------

  ghost predicate Below(v: seq<real>, w: seq<real>) {
    |v| == |w| && forall i :: 0 <= i < |v| ==> v[i] <= w[i]
  }

  /** Insertion into an ascending list, one exchange at a time. */
  lemma InsertExchanges(x: real, s: seq<real>)
    requires s != [] && Sorted(s)
    ensures Insert(x, s) == [MinReal(x, s[0])] + Insert(MaxReal(x, s[0]), s[1..])
  {
    assert s == [s[0]] + s[1..];
  }

  lemma BelowCons(x: real, s: seq<real>, y: real, t: seq<real>)
    requires x <= y && Below(s, t)
    ensures Below([x] + s, [y] + t)
  {
  }

  lemma {:induction false} InsertBelow(x: real, s: seq<real>, y: real, t: seq<real>)
    requires x <= y && Below(s, t) && Sorted(s) && Sorted(t)
    ensures Below(Insert(x, s), Insert(y, t))
    decreases |s|
  {
    if s != [] {
      InsertExchanges(x, s);
      InsertExchanges(y, t);
      InsertBelow(MaxReal(x, s[0]), s[1..], MaxReal(y, t[0]), t[1..]);
      hide Insert;
      BelowCons(MinReal(x, s[0]), Insert(MaxReal(x, s[0]), s[1..]),
                MinReal(y, t[0]), Insert(MaxReal(y, t[0]), t[1..]));
    }
  }

  lemma {:induction false} SortBelow(v: seq<real>, w: seq<real>)
    requires Below(v, w)
    ensures Below(Sort(v), Sort(w))
  {
    if v != [] {
      SortBelow(v[1..], w[1..]);
      SortSorted(v[1..]);
      SortSorted(w[1..]);
      InsertBelow(v[0], Sort(v[1..]), w[0], Sort(w[1..]));
    }
  }

  lemma {:induction false} ClampBelow(lower: real, upper: real, s: seq<real>, low: real, up: real, t: seq<real>)
    requires lower <= low && upper <= up && Below(s, t)
    ensures Below(ClampAll(lower, upper, s), ClampAll(low, up, t))
  {
    if s != [] { ClampBelow(lower, upper, s[1..], low, up, t[1..]); }
  }

  lemma {:induction false} SumBelow(v: seq<real>, w: seq<real>)
    requires Below(v, w)
    ensures Sum(v) <= Sum(w)
  {
    if v != [] { SumBelow(v[1..], w[1..]); }
  }

  lemma MeanBelow(v: seq<real>, w: seq<real>)
    requires v != [] && Below(v, w)
    ensures Mean(v) <= Mean(w)
  {
    SumBelow(v, w);
    OverMonotone(Sum(v), Sum(w), |v| as real);
  }

  /** Raising samples never lowers the winsorised mean. */
  lemma WinsorizedMeanMonotone(v: seq<real>, w: seq<real>, fraction: real, minimumWidth: nat)
    requires v != [] && 0.0 <= fraction < 0.5 && Below(v, w)
    ensures WinsorizedMean(v, fraction, minimumWidth) <= WinsorizedMean(w, fraction, minimumWidth)
  {
    var k := Width(|v|, fraction, minimumWidth);
    var s, t := Sort(v), Sort(w);
    SortBelow(v, w);
    if k == 0 {
      MeanBelow(s, t);
    } else {
      var top := |s| - 1 - k;
      ClampBelow(s[k], s[top], s, t[k], t[top], t);
      MeanBelow(ClampAll(s[k], s[top], s), ClampAll(t[k], t[top], t));
    }
  }
}
