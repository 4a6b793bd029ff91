/** Finite-sample statistics over exact reals: the winsorised mean and the
    MAD-based standard error of planrace/scoring_v2.py, together with the two facts
    the reward mechanism rests on: both are homogeneous, and the winsorised mean
    stays in the range of the samples that were not tampered with. */
module Statistics {

  /** The transcendental functions the scorer calls. They are inputs of the model,
      and the predicates below are everything that is assumed of them. */
  datatype Analysis = Analysis(
    log: real -> real,
    exp: real -> real,
    log2: real -> real,
    pow2: real -> real,
    root: nat -> real
  ) {
    /** Natural logarithm and exponential. */
    ghost predicate LogLaws() {
      && (forall x: real, y: real :: x > 0.0 && y > 0.0 ==> log(Times(x, y)) == log(x) + log(y))
      && (forall x: real, y: real :: Times(exp(x), exp(y)) == exp(x + y))
      && (forall x: real :: x > 0.0 ==> exp(log(x)) == x)
      && (forall x: real :: exp(x) > 0.0)
    }

    /** Base-two logarithm and power. */
    ghost predicate BinaryLaws() {
      && (forall x: real :: x > 0.0 ==> pow2(log2(x)) == x)
      && (forall x: real :: 0.0 < x <= 1.0 ==> log2(x) <= 0.0)
      && (forall x: real :: pow2(x) > 0.0)
      && (forall x: real :: pow2(x) <= 1.0 <==> x <= 0.0)
    }

    /** The base-two power takes sums to products. */
    ghost predicate PowerLaws() {
      && BinaryLaws()
      && (forall x: real, y: real :: Times(pow2(x), pow2(y)) == pow2(x + y))
    }

    /** Square root of a sample count. */
    ghost predicate RootLaws() {
      forall n: nat :: n >= 1 ==> root(n) > 0.0
    }

    ghost predicate SquareRootLaws() {
      RootLaws() && forall n: nat :: n >= 1 ==> Times(root(n), root(n)) == n as real
    }
  }

  function MaxReal(a: real, b: real): real { if a >= b then a else b }

  function MinReal(a: real, b: real): real { if a <= b then a else b }

  function Abs(x: real): real { if x >= 0.0 then x else -x }

  /** Multiplication and division under names, so that equal arguments give equal
      results without nonlinear reasoning. */
  function Times(c: real, x: real): real { c * x }

  function Over(x: real, n: real): real
    requires n != 0.0
  {
    x / n
  }

  lemma TimesOver(x: real, n: real)
    requires n != 0.0
    ensures Over(Times(x, n), n) == x
  {
  }

  lemma OverTimes(x: real, n: real)
    requires n != 0.0
    ensures Times(Over(x, n), n) == x
  {
  }

  lemma OverSum(a: real, b: real, n: real)
    requires n != 0.0
    ensures Over(a + b, n) == Over(a, n) + Over(b, n)
  {
  }

  lemma TimesFlip(a: real, b: real)
    ensures Times(a, b) == Times(b, a)
  {
  }

  lemma TimesDifference(c: real, a: real, b: real)
    ensures Times(c, a - b) == Times(c, a) - Times(c, b)
  {
  }

  lemma ScaleByCount(n: nat, x: real)
    requires n > 0
    ensures Times(n as real, x) == x + Times((n - 1) as real, x)
  {
    assert n as real == (n - 1) as real + 1.0;
  }

  lemma ZeroTimes(x: real)
    ensures Times(0.0, x) == 0.0
  {
  }

  lemma WholeOver(x: real)
    requires x != 0.0
    ensures Over(x, x) == 1.0
  {
  }

  lemma ProductNonNegative(a: real, b: real)
    requires a >= 0.0 && b >= 0.0
    ensures Times(a, b) >= 0.0
    ensures a > 0.0 && b > 0.0 ==> Times(a, b) > 0.0
  {
  }

  lemma OverMonotone(a: real, b: real, n: real)
    requires a <= b && n > 0.0
    ensures Over(a, n) <= Over(b, n)
  {
    assert Over(b - a, n) >= 0.0;
    assert Over(b, n) == Over(a, n) + Over(b - a, n);
  }

  lemma RatioCancels(c: real, x: real, y: real)
    requires c != 0.0 && y != 0.0
    ensures Times(c, y) != 0.0
    ensures Over(Times(c, x), Times(c, y)) == Over(x, y)
  {
  }

  function Sum(v: seq<real>): real {
    if v == [] then 0.0 else v[0] + Sum(v[1..])
  }

  function Mean(v: seq<real>): real
    requires v != []
  {
    Over(Sum(v), |v| as real)
  }

  function Insert(x: real, s: seq<real>): (r: seq<real>)
    ensures |r| == |s| + 1
  {
    if s == [] || x <= s[0] then [x] + s else [s[0]] + Insert(x, s[1..])
  }

  /** Python's `sorted` on floats. */
  function Sort(v: seq<real>): (r: seq<real>)
    ensures |r| == |v|
  {
    if v == [] then [] else Insert(v[0], Sort(v[1..]))
  }

  function ClampAll(lower: real, upper: real, v: seq<real>): (r: seq<real>)
    ensures |r| == |v|
  {
    if v == [] then []
    else [MinReal(upper, MaxReal(lower, v[0]))] + ClampAll(lower, upper, v[1..])
  }

  /** How many samples are replaced at each end. */
  function Width(n: nat, fraction: real, minimumWidth: nat): (w: nat)
    requires n > 0 && 0.0 <= fraction < 0.5
    ensures 2 * w < n
  {
    assert Times(n as real, fraction) >= 0.0;
    var literal := Times(n as real, fraction).Floor;
    var floorWidth := if fraction != 0.0 then minimumWidth else 0;
    var requested := if literal >= floorWidth then literal else floorWidth;
    if requested <= (n - 1) / 2 then requested else (n - 1) / 2
  }

  /** The mean after the `width` smallest and largest samples were pulled in. */
  function ClampedMean(ordered: seq<real>, width: nat): real
    requires 2 * width < |ordered|
  {
    if width == 0 then Mean(ordered)
    else Mean(ClampAll(ordered[width], ordered[|ordered| - 1 - width], ordered))
  }

  function WinsorizedMean(v: seq<real>, fraction: real, minimumWidth: nat): real
    requires v != [] && 0.0 <= fraction < 0.5
  {
    ClampedMean(Sort(v), Width(|v|, fraction, minimumWidth))
  }

  function Middle(ordered: seq<real>): real
    requires ordered != []
  {
    var n := |ordered|;
    if n % 2 == 1 then ordered[n / 2] else Over(ordered[n / 2 - 1] + ordered[n / 2], 2.0)
  }

  function Median(v: seq<real>): real
    requires v != []
  {
    Middle(Sort(v))
  }

  function Deviations(v: seq<real>, center: real): (r: seq<real>)
    ensures |r| == |v|
  {
    if v == [] then [] else [Abs(v[0] - center)] + Deviations(v[1..], center)
  }

  const MAD_SCALE := 1.4826

  function MedianDeviation(v: seq<real>): real
    requires v != []
  {
    Median(Deviations(v, Median(v)))
  }

  function RobustStandardError(v: seq<real>, fn: Analysis): real
    requires fn.root(|v|) != 0.0 || |v| < 2
  {
    if |v| < 2 then 0.0 else Over(Times(MAD_SCALE, MedianDeviation(v)), fn.root(|v|))
  }

  function Scale(c: real, v: seq<real>): (r: seq<real>)
    ensures |r| == |v|
  {
    if v == [] then [] else [Times(c, v[0])] + Scale(c, v[1..])
  }

  lemma {:induction false} ScaleAt(c: real, v: seq<real>, i: nat)
    requires i < |v|
    ensures Scale(c, v)[i] == Times(c, v[i])
  {
    if i > 0 { ScaleAt(c, v[1..], i - 1); }
  }

  lemma OrderScale(c: real, a: real, b: real)
    requires c > 0.0
    ensures Times(c, a) <= Times(c, b) <==> a <= b
  {
    if a <= b { assert c * (b - a) >= 0.0; } else { assert c * (a - b) > 0.0; }
  }

  ghost predicate Sorted(s: seq<real>) {
    forall i, j :: 0 <= i < j < |s| ==> s[i] <= s[j]
  }

  lemma {:induction false} SumInsert(x: real, s: seq<real>)
    ensures Sum(Insert(x, s)) == x + Sum(s)
  {
    if s == [] || x <= s[0] {
      assert ([x] + s)[1..] == s;
    } else {
      SumInsert(x, s[1..]);
      var t := Insert(x, s[1..]);
      assert ([s[0]] + t)[1..] == t;
    }
  }

  lemma {:induction false} SumSort(v: seq<real>)
    ensures Sum(Sort(v)) == Sum(v)
  {
    if v != [] {
      SumSort(v[1..]);
      SumInsert(v[0], Sort(v[1..]));
    }
  }

  lemma {:induction false} InsertMultiset(x: real, s: seq<real>)
    ensures multiset(Insert(x, s)) == multiset(s) + multiset{x}
  {
    if s != [] && x > s[0] {
      InsertMultiset(x, s[1..]);
      assert s == [s[0]] + s[1..];
    }
  }

  lemma {:induction false} SortMultiset(v: seq<real>)
    ensures multiset(Sort(v)) == multiset(v)
  {
    if v != [] {
      SortMultiset(v[1..]);
      InsertMultiset(v[0], Sort(v[1..]));
      assert v == [v[0]] + v[1..];
    }
  }

  lemma {:induction false} InsertLowerBound(x: real, s: seq<real>, low: real)
    requires low <= x && forall i :: 0 <= i < |s| ==> low <= s[i]
    ensures forall i :: 0 <= i < |s| + 1 ==> low <= Insert(x, s)[i]
  {
    if s != [] && x > s[0] { InsertLowerBound(x, s[1..], low); }
  }

  lemma {:induction false} InsertSorted(x: real, s: seq<real>)
    requires Sorted(s)
    ensures Sorted(Insert(x, s))
  {
    if s != [] && x > s[0] {
      InsertSorted(x, s[1..]);
      InsertLowerBound(x, s[1..], s[0]);
    }
  }

  lemma {:induction false} SortSorted(v: seq<real>)
    ensures Sorted(Sort(v))
  {
    if v != [] {
      SortSorted(v[1..]);
      InsertSorted(v[0], Sort(v[1..]));
    }
  }

  // ----- homogeneity ---------------------------------------------------------

  lemma TimesSum(c: real, a: real, b: real)
    ensures Times(c, a + b) == Times(c, a) + Times(c, b)
  {
  }

  lemma {:induction false} SumScale(c: real, v: seq<real>)
    ensures Sum(Scale(c, v)) == Times(c, Sum(v))
  {
    if v != [] {
      SumScale(c, v[1..]);
      assert Scale(c, v)[1..] == Scale(c, v[1..]);
      TimesSum(c, v[0], Sum(v[1..]));
    }
  }

  lemma TimesQuotient(c: real, x: real, n: real)
    requires n != 0.0
    ensures Over(Times(c, x), n) == Times(c, Over(x, n))
  {
  }

  lemma MeanScale(c: real, v: seq<real>)
    requires v != []
    ensures Mean(Scale(c, v)) == Times(c, Mean(v))
  {
    SumScale(c, v);
    TimesQuotient(c, Sum(v), |v| as real);
  }

  lemma {:induction false} InsertScale(c: real, x: real, s: seq<real>)
    requires c > 0.0
    ensures Insert(Times(c, x), Scale(c, s)) == Scale(c, Insert(x, s))
  {
    if s != [] {
      OrderScale(c, x, s[0]);
      if x <= s[0] {
        assert ([x] + s)[1..] == s;
      } else {
        InsertScale(c, x, s[1..]);
        assert Scale(c, s)[1..] == Scale(c, s[1..]);
        assert ([s[0]] + Insert(x, s[1..]))[1..] == Insert(x, s[1..]);
      }
    }
  }

  lemma {:induction false} SortScale(c: real, v: seq<real>)
    requires c > 0.0
    ensures Sort(Scale(c, v)) == Scale(c, Sort(v))
  {
    if v != [] {
      SortScale(c, v[1..]);
      InsertScale(c, v[0], Sort(v[1..]));
      assert Scale(c, v)[1..] == Scale(c, v[1..]);
    }
  }

  lemma {:induction false} ClampScale(c: real, lower: real, upper: real, v: seq<real>)
    requires c > 0.0
    ensures ClampAll(Times(c, lower), Times(c, upper), Scale(c, v)) == Scale(c, ClampAll(lower, upper, v))
  {
    if v != [] {
      ClampScale(c, lower, upper, v[1..]);
      OrderScale(c, v[0], lower);
      OrderScale(c, upper, v[0]);
      OrderScale(c, upper, lower);
      assert Scale(c, v)[1..] == Scale(c, v[1..]);
      var x := MinReal(upper, MaxReal(lower, v[0]));
      assert ([x] + ClampAll(lower, upper, v[1..]))[1..] == ClampAll(lower, upper, v[1..]);
    }
  }

  lemma PulledMeanScale(c: real, s: seq<real>, w: nat, top: nat)
    requires c > 0.0 && w < |s| && top < |s|
    ensures Mean(ClampAll(Scale(c, s)[w], Scale(c, s)[top], Scale(c, s)))
         == Times(c, Mean(ClampAll(s[w], s[top], s)))
  {
    hide *;
    ScaleAt(c, s, w);
    ScaleAt(c, s, top);
    ClampScale(c, s[w], s[top], s);
    MeanScale(c, ClampAll(s[w], s[top], s));
  }

  lemma ClampedMeanScale(c: real, s: seq<real>, w: nat)
    requires c > 0.0 && 2 * w < |s|
    ensures ClampedMean(Scale(c, s), w) == Times(c, ClampedMean(s, w))
  {
    hide Times, Mean, ClampAll, Scale;
    if w == 0 { MeanScale(c, s); } else { PulledMeanScale(c, s, w, |s| - 1 - w); }
  }

  /** A common factor passes through the winsorised mean. */
  lemma WinsorizedMeanScale(c: real, v: seq<real>, fraction: real, minimumWidth: nat)
    requires c > 0.0 && v != [] && 0.0 <= fraction < 0.5
    ensures WinsorizedMean(Scale(c, v), fraction, minimumWidth)
         == Times(c, WinsorizedMean(v, fraction, minimumWidth))
  {
    SortScale(c, v);
    ClampedMeanScale(c, Sort(v), Width(|v|, fraction, minimumWidth));
  }

  lemma MiddleScale(c: real, s: seq<real>)
    requires s != []
    ensures Middle(Scale(c, s)) == Times(c, Middle(s))
  {
    hide Times, Over, Scale;
    if |s| % 2 == 1 { ScaleAt(c, s, |s| / 2); } else { MidpointScale(c, s, |s| / 2); }
  }

  lemma MedianScale(c: real, v: seq<real>)
    requires c > 0.0 && v != []
    ensures Median(Scale(c, v)) == Times(c, Median(v))
  {
    hide Times, Middle, Scale;
    SortScale(c, v);
    MiddleScale(c, Sort(v));
  }

  lemma MidpointScale(c: real, s: seq<real>, h: nat)
    requires 1 <= h < |s|
    ensures Over(Scale(c, s)[h - 1] + Scale(c, s)[h], 2.0) == Times(c, Over(s[h - 1] + s[h], 2.0))
  {
    ScaleAt(c, s, h - 1);
    ScaleAt(c, s, h);
    TimesSum(c, s[h - 1], s[h]);
    TimesQuotient(c, s[h - 1] + s[h], 2.0);
  }

  lemma {:induction false} DeviationsScale(c: real, v: seq<real>, center: real)
    requires c > 0.0
    ensures Deviations(Scale(c, v), Times(c, center)) == Scale(c, Deviations(v, center))
  {
    if v != [] {
      DeviationsScale(c, v[1..], center);
      OrderScale(c, center, v[0]);
      assert Times(c, v[0]) - Times(c, center) == Times(c, v[0] - center);
      assert Times(c, -(v[0] - center)) == -Times(c, v[0] - center);
      assert Scale(c, v)[1..] == Scale(c, v[1..]);
      assert ([Abs(v[0] - center)] + Deviations(v[1..], center))[1..] == Deviations(v[1..], center);
    }
  }

  lemma MedianDeviationScale(c: real, v: seq<real>)
    requires c > 0.0 && v != []
    ensures MedianDeviation(Scale(c, v)) == Times(c, MedianDeviation(v))
  {
    MedianScale(c, v);
    DeviationsScale(c, v, Median(v));
    MedianScale(c, Deviations(v, Median(v)));
  }

  lemma TimesCommute(a: real, b: real, x: real)
    ensures Times(a, Times(b, x)) == Times(b, Times(a, x))
  {
  }

  /** A common factor passes through the MAD-based standard error. */
  lemma RobustStandardErrorScale(c: real, v: seq<real>, fn: Analysis)
    requires c > 0.0 && fn.RootLaws()
    ensures RobustStandardError(Scale(c, v), fn) == Times(c, RobustStandardError(v, fn))
  {
    if |v| >= 2 {
      MedianDeviationScale(c, v);
      TimesCommute(MAD_SCALE, c, MedianDeviation(v));
      TimesQuotient(c, Times(MAD_SCALE, MedianDeviation(v)), fn.root(|v|));
    }
  }

  // ----- sign and range ------------------------------------------------------

  lemma {:induction false} SumBetween(v: seq<real>, lo: real, hi: real)
    requires forall i :: 0 <= i < |v| ==> lo <= v[i] <= hi
    ensures |v| as real * lo <= Sum(v) <= |v| as real * hi
  {
    if v != [] {
      assert forall i :: 0 <= i < |v[1..]| ==> v[1..][i] == v[i + 1];
      SumBetween(v[1..], lo, hi);
      assert |v| as real == |v[1..]| as real + 1.0;
    }
  }

  lemma MeanBetween(v: seq<real>, lo: real, hi: real)
    requires v != [] && forall i :: 0 <= i < |v| ==> lo <= v[i] <= hi
    ensures lo <= Mean(v) <= hi
  {
    SumBetween(v, lo, hi);
    var n := |v| as real;
    assert n * lo == Times(lo, n) && n * hi == Times(hi, n);
    TimesOver(lo, n);
    TimesOver(hi, n);
    OverMonotone(Times(lo, n), Sum(v), n);
    OverMonotone(Sum(v), Times(hi, n), n);
  }

  lemma {:induction false} DeviationsNonNegative(v: seq<real>, center: real)
    ensures forall x :: x in Deviations(v, center) ==> x >= 0.0
  {
    if v != [] { DeviationsNonNegative(v[1..], center); }
  }

  lemma MedianNonNegative(v: seq<real>)
    requires v != [] && forall x :: x in v ==> x >= 0.0
    ensures Median(v) >= 0.0
  {
    SortMultiset(v);
    var n := |v|;
    InPermutation(Sort(v), v, n / 2);
    if n % 2 == 0 { InPermutation(Sort(v), v, n / 2 - 1); }
  }

  lemma InPermutation(s: seq<real>, v: seq<real>, i: nat)
    requires multiset(s) == multiset(v) && i < |s|
    ensures s[i] in v
  {
    assert s[i] in multiset(s);
  }

  lemma RobustStandardErrorNonNegative(v: seq<real>, fn: Analysis)
    requires fn.RootLaws()
    ensures RobustStandardError(v, fn) >= 0.0
  {
    if |v| >= 2 {
      DeviationsNonNegative(v, Median(v));
      MedianNonNegative(Deviations(v, Median(v)));
    }
  }

  function CountAbove(v: seq<real>, bound: real): nat {
    if v == [] then 0 else (if v[0] > bound then 1 else 0) + CountAbove(v[1..], bound)
  }

  function CountBelow(v: seq<real>, bound: real): nat {
    if v == [] then 0 else (if v[0] < bound then 1 else 0) + CountBelow(v[1..], bound)
  }

  lemma {:induction false} CountInsert(x: real, s: seq<real>, bound: real)
    ensures CountAbove(Insert(x, s), bound) == (if x > bound then 1 else 0) + CountAbove(s, bound)
    ensures CountBelow(Insert(x, s), bound) == (if x < bound then 1 else 0) + CountBelow(s, bound)
  {
    if s == [] || x <= s[0] {
      assert ([x] + s)[1..] == s;
    } else {
      CountInsert(x, s[1..], bound);
      assert Insert(x, s)[1..] == Insert(x, s[1..]);
    }
  }

  lemma {:induction false} CountSort(v: seq<real>, bound: real)
    ensures CountAbove(Sort(v), bound) == CountAbove(v, bound)
    ensures CountBelow(Sort(v), bound) == CountBelow(v, bound)
  {
    if v != [] {
      CountSort(v[1..], bound);
      CountInsert(v[0], Sort(v[1..]), bound);
    }
  }

  lemma {:induction false} CountAboveTail(s: seq<real>, k: nat, bound: real)
    requires k <= |s| && forall i :: k <= i < |s| ==> s[i] > bound
    ensures CountAbove(s, bound) >= |s| - k
  {
    if s != [] {
      var t := s[1..];
      if k == 0 {
        CountAboveTail(t, 0, bound);
      } else {
        CountAboveTail(t, k - 1, bound);
      }
    }
  }

  lemma {:induction false} CountBelowHead(s: seq<real>, k: nat, bound: real)
    requires k <= |s| && forall i :: 0 <= i < k ==> s[i] < bound
    ensures CountBelow(s, bound) >= k
  {
    if k > 0 { CountBelowHead(s[1..], k - 1, bound); }
  }

  lemma {:induction false} ClampBounds(lower: real, upper: real, v: seq<real>)
    requires lower <= upper
    ensures forall i :: 0 <= i < |v| ==> lower <= ClampAll(lower, upper, v)[i] <= upper
  {
    if v != [] { ClampBounds(lower, upper, v[1..]); }
  }

  /** The clamped mean lies between the two samples it clamps to. */
  lemma ClampedMeanBetween(s: seq<real>, w: nat)
    requires Sorted(s) && 2 * w < |s|
    ensures s[w] <= ClampedMean(s, w) <= s[|s| - 1 - w]
  {
    var lower, upper := s[w], s[|s| - 1 - w];
    if w == 0 {
      MeanBetween(s, lower, upper);
    } else {
      ClampBounds(lower, upper, s);
      MeanBetween(ClampAll(lower, upper, s), lower, upper);
    }
  }

  lemma ClampedMeanResists(v: seq<real>, w: nat, lo: real, hi: real)
    requires 2 * w < |v|
    ensures CountAbove(v, hi) <= w ==> ClampedMean(Sort(v), w) <= hi
    ensures CountBelow(v, lo) <= w ==> ClampedMean(Sort(v), w) >= lo
  {
    var s := Sort(v);
    SortSorted(v);
    hide *;
    ClampedMeanBetween(s, w);
    CountSort(v, hi);
    CountSort(v, lo);
    var top := |s| - 1 - w;
    if s[top] > hi { CountAboveTail(s, top, hi); }
    if s[w] < lo { CountBelowHead(s, w + 1, lo); }
  }

  /** No more than `Width` outliers on a side cannot move the winsorised mean past
      the bound that all the other samples respect. */
  lemma WinsorizedMeanBounds(v: seq<real>, fraction: real, minimumWidth: nat, lo: real, hi: real)
    requires v != [] && 0.0 <= fraction < 0.5
    ensures CountAbove(v, hi) <= Width(|v|, fraction, minimumWidth)
        ==> WinsorizedMean(v, fraction, minimumWidth) <= hi
    ensures CountBelow(v, lo) <= Width(|v|, fraction, minimumWidth)
        ==> WinsorizedMean(v, fraction, minimumWidth) >= lo
  {
    ClampedMeanResists(v, Width(|v|, fraction, minimumWidth), lo, hi);
  }

  /** The number of positions in which two equally long samples differ. */
  function Differences(v: seq<real>, w: seq<real>): nat
    requires |v| == |w|
  {
    if v == [] then 0 else (if v[0] != w[0] then 1 else 0) + Differences(v[1..], w[1..])
  }

  lemma {:induction false} CountsWithinDifferences(v: seq<real>, w: seq<real>, lo: real, hi: real)
    requires |v| == |w| && forall i :: 0 <= i < |v| ==> lo <= v[i] <= hi
    ensures CountAbove(w, hi) <= Differences(v, w)
    ensures CountBelow(w, lo) <= Differences(v, w)
  {
    if v != [] { CountsWithinDifferences(v[1..], w[1..], lo, hi); }
  }

  /** Rewriting at most `Width` samples arbitrarily leaves the winsorised mean
      inside any range that held the samples before. */
  lemma WinsorizedMeanResistsCorruption(
      v: seq<real>, w: seq<real>, fraction: real, minimumWidth: nat, lo: real, hi: real)
    requires v != [] && |v| == |w| && 0.0 <= fraction < 0.5
    requires forall i :: 0 <= i < |v| ==> lo <= v[i] <= hi
    requires Differences(v, w) <= Width(|v|, fraction, minimumWidth)
    ensures lo <= WinsorizedMean(w, fraction, minimumWidth) <= hi
  {
    CountsWithinDifferences(v, w, lo, hi);
    WinsorizedMeanBounds(w, fraction, minimumWidth, lo, hi);
  }
}
