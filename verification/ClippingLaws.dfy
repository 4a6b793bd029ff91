/** What the clipped vector satisfies, and exactly when its largest share stays within
    the limit. */
module ClippingLaws {
  import opened Statistics
  import opened Clipping

  // ----- sums ----------------------------------------------------------------

  lemma {:induction false} CapInsert(a: real, s: seq<real>, x: real)
    ensures Sum(CapAt(Insert(a, s), x)) == MinReal(a, x) + Sum(CapAt(s, x))
  {
    if s == [] || a <= s[0] {
      assert CapAt([a] + s, x)[1..] == CapAt(s, x) by { assert ([a] + s)[1..] == s; }
    } else {
      CapInsert(a, s[1..], x);
      var t := Insert(a, s[1..]);
      assert ([s[0]] + t)[1..] == t;
      assert CapAt([s[0]] + t, x)[1..] == CapAt(t, x);
      assert CapAt(s, x)[1..] == CapAt(s[1..], x);
    }
  }

  /** Sorting does not change the capped sum. */
  lemma {:induction false} CapSort(v: seq<real>, x: real)
    ensures Sum(CapAt(Sort(v), x)) == Sum(CapAt(v, x))
  {
    if v != [] {
      CapSort(v[1..], x);
      CapInsert(v[0], Sort(v[1..]), x);
      assert CapAt(v, x)[1..] == CapAt(v[1..], x);
    }
  }

  lemma MinScaled(w: real, k: real, total: real)
    requires total > 0.0
    ensures MinReal(w, Times(k, total)) == Times(total, MinReal(Over(w, total), k))
  {
    OverTimes(w, total);
    TimesFlip(Over(w, total), total);
    TimesFlip(k, total);
    OrderScale(total, Over(w, total), k);
  }

  lemma {:induction false} CapScaled(weights: seq<real>, k: real, total: real)
    requires total > 0.0
    ensures Sum(CapAt(weights, Times(k, total))) == Times(total, Sum(CapAt(Shares(weights, total), k)))
  {
    hide Times;
    if weights == [] {
      TimesZero(total);
    } else {
      var rest := weights[1..];
      CapScaled(rest, k, total);
      MinScaled(weights[0], k, total);
      assert CapAt(weights, Times(k, total))[1..] == CapAt(rest, Times(k, total));
      assert Shares(weights, total)[1..] == Shares(rest, total);
      assert CapAt(Shares(weights, total), k)[1..] == CapAt(Shares(rest, total), k);
      TimesSum(total, MinReal(Over(weights[0], total), k), Sum(CapAt(Shares(rest, total), k)));
    }
  }

  lemma TimesZero(x: real)
    ensures Times(x, 0.0) == 0.0
  {
  }

  lemma {:induction false} SumShares(v: seq<real>, total: real)
    requires total != 0.0
    ensures Sum(Shares(v, total)) == Over(Sum(v), total)
  {
    hide Over;
    if v == [] {
      ZeroOver(total);
    } else {
      SumShares(v[1..], total);
      assert Shares(v, total)[1..] == Shares(v[1..], total);
      OverSum(v[0], Sum(v[1..]), total);
    }
  }

  lemma ZeroOver(total: real)
    requires total != 0.0
    ensures Over(0.0, total) == 0.0
  {
  }

  // ----- the search branch ---------------------------------------------------

  /** Neither of the early returns applies. */
  ghost predicate Searching(weights: seq<real>, rawLimit: nat) {
    && AllNonNegative(weights) && weights != [] && Sum(weights) > 0.0
    && 0 < rawLimit < U16_MAX
    && Largest(Shares(weights, Sum(weights))) > Limit(rawLimit)
    && Times(|weights| as real, Limit(rawLimit)) > 1.0
  }

  /** The sorted shares. */
  ghost function Ordered(weights: seq<real>): seq<real>
    requires Sum(weights) != 0.0
  {
    Sort(Shares(weights, Sum(weights)))
  }

  lemma OrderedShape(weights: seq<real>)
    requires AllNonNegative(weights) && Sum(weights) > 0.0
    ensures var s := Ordered(weights);
            Sorted(s) && AllNonNegative(s) && |s| == |weights| && Testable(s) && Sum(s) == 1.0
  {
    var total := Sum(weights);
    SortedShares(weights, total);
    SharesTestable(Ordered(weights));
    SumSort(Shares(weights, total));
    SumShares(weights, total);
    WholeOver(total);
  }

  /** How many shares pass the test; the others are above the cutoff. */
  ghost function PassingCount(weights: seq<real>, rawLimit: nat): nat
    requires Searching(weights, rawLimit)
  {
    OrderedShape(weights);
    CountPassing(Ordered(weights), Limit(rawLimit), 0)
  }

  lemma CutoffFound(weights: seq<real>, rawLimit: nat)
    requires Searching(weights, rawLimit)
    ensures var s := Ordered(weights);
            && Testable(s) && Found(s, Limit(rawLimit), PassingCount(weights, rawLimit))
            && |s| == |weights|
  {
    OrderedShape(weights);
    LimitPositive(rawLimit);
    assert Ordered(weights) != [];
    SearchFinds(Ordered(weights), Limit(rawLimit));
  }

  /** The cutoff, as a share of the total. */
  ghost function Cutoff(weights: seq<real>, rawLimit: nat): real
    requires Searching(weights, rawLimit)
  {
    CutoffFound(weights, rawLimit);
    CutoffScale(Ordered(weights), Limit(rawLimit), PassingCount(weights, rawLimit))
  }

  /** The cutoff in terms of the sorted shares. */
  lemma CutoffIs(weights: seq<real>, rawLimit: nat)
    requires Searching(weights, rawLimit)
    ensures var s, b, limit := Ordered(weights), PassingCount(weights, rawLimit), Limit(rawLimit);
            && s == Sort(Shares(weights, Sum(weights))) && |s| == |weights|
            && b == CountPassing(s, limit, 0) && 1 <= b <= |s|
            && 1.0 - Times(limit, (|s| - b) as real) > 0.0
            && Cutoff(weights, rawLimit) == CutoffScale(s, limit, b)
            && Cutoff(weights, rawLimit)
               == Over(Times(limit, Prefix(s, b)) - EPSILON, 1.0 - Times(limit, (|s| - b) as real))
            && (b < |s| ==> Cutoff(weights, rawLimit) < s[b])
  {
    var s, b, limit := Ordered(weights), PassingCount(weights, rawLimit), Limit(rawLimit);
    CutoffFound(weights, rawLimit);
    CutoffUnfolds(weights, rawLimit);
    hide *;
    FoundMeans(s, limit, b);
    ScaleFrom(s, limit, b);
  }

  lemma CutoffUnfolds(weights: seq<real>, rawLimit: nat)
    requires Searching(weights, rawLimit) && Sum(weights) != 0.0
    requires var s, b, limit := Ordered(weights), PassingCount(weights, rawLimit), Limit(rawLimit);
             Testable(s) && Found(s, limit, b)
    ensures var s, b, limit := Ordered(weights), PassingCount(weights, rawLimit), Limit(rawLimit);
            && s == Sort(Shares(weights, Sum(weights))) && b == CountPassing(s, limit, 0)
            && 1 <= b <= |s| && 1.0 - Times(limit, (|s| - b) as real) > 0.0
            && Cutoff(weights, rawLimit) == CutoffScale(s, limit, b)
  {
    hide Times, Testable, Passes, CountPassing, CutoffScale, Limit, Sum, Shares, Sort, Searching;
  }

  lemma FoundMeans(s: seq<real>, limit: real, b: nat)
    requires Testable(s) && Found(s, limit, b)
    ensures 1 <= b <= |s| && 1.0 - Times(limit, (|s| - b) as real) > 0.0
    ensures b < |s| ==> CutoffScale(s, limit, b) < s[b]
  {
    hide Times, Testable, Passes, CutoffScale;
  }

  lemma ScaleFrom(s: seq<real>, limit: real, b: nat)
    requires 1 <= b <= |s| && 1.0 - Times(limit, (|s| - b) as real) != 0.0
    ensures CutoffScale(s, limit, b)
         == Over(Times(limit, Prefix(s, b)) - EPSILON, 1.0 - Times(limit, (|s| - b) as real))
  {
    hide Times, Over, Prefix;
  }

  /** What is left of the total after capping at the cutoff. */
  ghost function Remaining(weights: seq<real>, rawLimit: nat): real
    requires Searching(weights, rawLimit)
  {
    Sum(CapAt(Ordered(weights), Cutoff(weights, rawLimit)))
  }

  /** How much the cutoff takes from the shares that passed the test. */
  ghost function Shaved(weights: seq<real>, rawLimit: nat): real
    requires Searching(weights, rawLimit)
  {
    var s, b := Ordered(weights), PassingCount(weights, rawLimit);
    CutoffFound(weights, rawLimit);
    Prefix(s, b) - Sum(CapAt(s[..b], Cutoff(weights, rawLimit)))
  }

  lemma LastIsLargest(weights: seq<real>)
    requires weights != [] && AllNonNegative(weights) && Sum(weights) > 0.0
    ensures |Ordered(weights)| == |weights|
    ensures Ordered(weights)[|weights| - 1] >= Largest(Shares(weights, Sum(weights)))
  {
    var v := Shares(weights, Sum(weights));
    var s := Ordered(weights);
    OrderedShape(weights);
    SortMultiset(v);
    assert Largest(v) in multiset(v) && Largest(v) in multiset(s);
    var i :| 0 <= i < |s| && s[i] == Largest(v);
  }

  lemma CutoffBelowLargest(weights: seq<real>, rawLimit: nat)
    requires Searching(weights, rawLimit)
    ensures |Ordered(weights)| == |weights|
    ensures Cutoff(weights, rawLimit) < Ordered(weights)[|weights| - 1]
  {
    var s, b, k := Ordered(weights), PassingCount(weights, rawLimit), Cutoff(weights, rawLimit);
    CutoffFound(weights, rawLimit);
    OrderedShape(weights);
    LastIsLargest(weights);
    var limit := Limit(rawLimit);
    assert k == CutoffScale(s, limit, b) && s[|s| - 1] > limit;
    assert b <= |s| && (b < |s| ==> k < s[b]) && 1.0 - Times(limit, (|s| - b) as real) > 0.0;
    assert Sorted(s) && Sum(s) == 1.0;
    hide *;
    if b < |s| {
      LastIsTop(s, b);
    } else {
      AllPass(s, limit);
    }
  }

  lemma LastIsTop(s: seq<real>, i: nat)
    requires Sorted(s) && i < |s|
    ensures s[i] <= s[|s| - 1]
  {
  }

  lemma AllPass(s: seq<real>, limit: real)
    requires Sum(s) == 1.0 && |s| >= 1 && 1.0 - Times(limit, (|s| - |s|) as real) != 0.0
    ensures CutoffScale(s, limit, |s|) < limit
  {
    assert s[..|s|] == s;
    FullCutoff(limit);
  }

  lemma FullCutoff(limit: real)
    ensures 1.0 - Times(limit, 0.0) == 1.0
    ensures Over(Times(limit, 1.0) - EPSILON, 1.0) < limit
  {
  }

  /** The identity behind the cutoff: it is the limit's part of what remains and what was
      shaved off, less the epsilon. */
  lemma CutoffIdentity(weights: seq<real>, rawLimit: nat)
    requires Searching(weights, rawLimit)
    ensures Cutoff(weights, rawLimit)
         == Times(Limit(rawLimit), Remaining(weights, rawLimit) + Shaved(weights, rawLimit)) - EPSILON
  {
    hide *;
    SearchingMeans(weights, rawLimit);
    var s, b, limit := Ordered(weights), PassingCount(weights, rawLimit), Limit(rawLimit);
    var k, m := Cutoff(weights, rawLimit), (|s| - b) as real;
    CutoffIs(weights, rawLimit);
    OrderedShape(weights);
    LeftAndShaved(weights, rawLimit);
    SumSplit(CapAt(s, k), b);
    CapPrefix(s, k, b);
    AboveCutoff(s, k, b);
    SolveCutoff(k, limit, Prefix(s, b), m);
  }

  lemma LeftAndShaved(weights: seq<real>, rawLimit: nat)
    requires Searching(weights, rawLimit)
    ensures var s, b, k := Ordered(weights), PassingCount(weights, rawLimit), Cutoff(weights, rawLimit);
            && b <= |s|
            && Remaining(weights, rawLimit) == Sum(CapAt(s, k))
            && Shaved(weights, rawLimit) == Prefix(s, b) - Sum(CapAt(s[..b], k))
  {
    hide Cutoff, CapAt, Prefix, Ordered, PassingCount, Sum;
    CutoffIs(weights, rawLimit);
  }

  lemma CapPrefix(s: seq<real>, k: real, b: nat)
    requires b <= |s|
    ensures CapAt(s, k)[..b] == CapAt(s[..b], k)
  {
  }

  lemma AboveCutoff(s: seq<real>, k: real, b: nat)
    requires Sorted(s) && b <= |s| && (b < |s| ==> k < s[b])
    ensures Sum(CapAt(s, k)[b..]) == Times((|s| - b) as real, k)
  {
    var t := CapAt(s, k)[b..];
    forall i | 0 <= i < |t| ensures t[i] == k { assert s[b + i] >= s[b]; }
    ConstantSum(t, k);
  }

  lemma {:induction false} ConstantSum(v: seq<real>, k: real)
    requires forall i :: 0 <= i < |v| ==> v[i] == k
    ensures Sum(v) == Times(|v| as real, k)
  {
    if v != [] {
      ConstantSum(v[1..], k);
      ScaleByCount(|v|, k);
    }
  }

  lemma SolveCutoff(k: real, limit: real, c: real, m: real)
    requires 1.0 - Times(limit, m) != 0.0
    requires k == Over(Times(limit, c) - EPSILON, 1.0 - Times(limit, m))
    ensures k == Times(limit, c + Times(m, k)) - EPSILON
  {
    var d := 1.0 - Times(limit, m);
    OverTimes(Times(limit, c) - EPSILON, d);
    assert k * d == limit * c - EPSILON;
    assert k * d == k - (limit * m) * k;
    assert limit * (c + m * k) == limit * c + (limit * m) * k;
  }

  /** The clipped shares: everything capped at the cutoff, over what remains. */
  lemma ClippedShares(weights: seq<real>, rawLimit: nat)
    requires Searching(weights, rawLimit)
    ensures var r, left, k := ClipToMaxWeight(weights, rawLimit), Remaining(weights, rawLimit),
                              Cutoff(weights, rawLimit);
            && (left == 0.0 ==> r == DivisionByZero)
            && (left != 0.0 ==>
                  && r.Conformed? && |r.shares| == |weights| && Sum(r.shares) == 1.0
                  && forall i :: 0 <= i < |weights| ==>
                       r.shares[i] == Over(MinReal(Over(weights[i], Sum(weights)), k), left))
  {
    var total, k, left := Sum(weights), Cutoff(weights, rawLimit), Remaining(weights, rawLimit);
    SearchResult(weights, rawLimit);
    CapSort(Shares(weights, total), k);
    CapScaled(weights, k, total);
    var clipped := CapAt(weights, Times(k, total));
    assert Sum(clipped) == Times(total, left);
    ProductZero(total, left);
    hide ClipToMaxWeight, Cutoff, Remaining, Shares, CapAt;
    if left != 0.0 {
      SumShares(clipped, Sum(clipped));
      WholeOver(Sum(clipped));
      forall i | 0 <= i < |weights|
        ensures Over(clipped[i], Sum(clipped)) == Over(MinReal(Over(weights[i], total), k), left)
      {
        MinScaled(weights[i], k, total);
        RatioCancels(total, MinReal(Over(weights[i], total), k), left);
      }
    }
  }

  lemma SearchResult(weights: seq<real>, rawLimit: nat)
    requires Searching(weights, rawLimit)
    ensures ClipToMaxWeight(weights, rawLimit)
         == Renormalize(CapAt(weights, Times(Cutoff(weights, rawLimit), Sum(weights))))
  {
    hide *;
    SearchingMeans(weights, rawLimit);
    ClipSearches(weights, rawLimit);
    CutoffFound(weights, rawLimit);
    CutoffIs(weights, rawLimit);
    AboveIs(weights, Sum(weights), Limit(rawLimit), PassingCount(weights, rawLimit));
  }

  lemma SearchingMeans(weights: seq<real>, rawLimit: nat)
    requires Searching(weights, rawLimit)
    ensures AllNonNegative(weights) && weights != [] && Sum(weights) > 0.0
    ensures 0 < rawLimit < U16_MAX && Limit(rawLimit) > 0.0
  {
    LimitPositive(rawLimit);
    hide Largest, Shares, Limit;
  }

  lemma ClipSearches(weights: seq<real>, rawLimit: nat)
    requires Searching(weights, rawLimit)
    ensures ClipToMaxWeight(weights, rawLimit) == ClipAbove(weights, Sum(weights), Limit(rawLimit))
  {
    hide ClipAbove, Largest, Shares, Limit, Equal;
  }

  lemma AboveIs(weights: seq<real>, total: real, limit: real, below: nat)
    requires total > 0.0 && Testable(Sort(Shares(weights, total)))
    requires below == CountPassing(Sort(Shares(weights, total)), limit, 0)
    requires 1.0 - Times(limit, (|weights| - below) as real) != 0.0
    ensures var s := Sort(Shares(weights, total));
            ClipAbove(weights, total, limit) == Renormalize(CapAt(weights, Times(CutoffScale(s, limit, below), total)))
  {
    hide Testable, CountPassing, CutoffScale, CapAt, Shares, Sort, Renormalize;
  }

  lemma ProductZero(a: real, b: real)
    requires a > 0.0
    ensures Times(a, b) == 0.0 <==> b == 0.0
  {
  }

  /** The sign of what remains is the sign of the cutoff. */
  lemma RemainingSign(weights: seq<real>, rawLimit: nat)
    requires Searching(weights, rawLimit)
    ensures var left, k := Remaining(weights, rawLimit), Cutoff(weights, rawLimit);
            && (k > 0.0 ==> left > 0.0)
            && (k <= 0.0 ==> left == Times(|weights| as real, k))
  {
    var s, k := Ordered(weights), Cutoff(weights, rawLimit);
    OrderedShape(weights);
    CutoffBelowLargest(weights, rawLimit);
    if k > 0.0 {
      CapNonNegative(s, k);
      SumNonNegative(CapAt(s, k));
      assert CapAt(s, k)[|s| - 1] == k;
    } else {
      ConstantSum(CapAt(s, k), k);
    }
  }

  lemma NonPositiveProduct(n: real, k: real)
    requires n >= 1.0 && k <= 0.0
    ensures Times(n, k) == 0.0 <==> k == 0.0
    ensures k < 0.0 ==> Times(n, k) != 0.0 && Over(k, Times(n, k)) == Over(1.0, n)
  {
  }

  /** The branch divides by zero exactly when the cutoff is zero, and spreads the weight
      evenly over everybody, the unweighted included, exactly when it is negative. */
  lemma NonPositiveCutoff(weights: seq<real>, rawLimit: nat)
    requires Searching(weights, rawLimit) && Cutoff(weights, rawLimit) <= 0.0
    ensures var r, n := ClipToMaxWeight(weights, rawLimit), |weights|;
            r == if Cutoff(weights, rawLimit) == 0.0 then DivisionByZero
                 else Conformed(Equal(n, Over(1.0, n as real)), true)
  {
    var r, n, k := ClipToMaxWeight(weights, rawLimit), |weights|, Cutoff(weights, rawLimit);
    ClippedShares(weights, rawLimit);
    RemainingSign(weights, rawLimit);
    NonPositiveProduct(n as real, k);
    SearchFlag(weights, rawLimit);
    SortedShares(weights, Sum(weights));
    hide ClipToMaxWeight, Cutoff, Remaining, Searching;
    if k < 0.0 {
      forall i | 0 <= i < n ensures r.shares[i] == Over(1.0, n as real) {
        assert Shares(weights, Sum(weights))[i] >= 0.0;
      }
      assert r.shares == Equal(n, Over(1.0, n as real));
    }
  }

  lemma SearchFlag(weights: seq<real>, rawLimit: nat)
    requires Searching(weights, rawLimit)
    ensures ClipToMaxWeight(weights, rawLimit).Conformed? ==> ClipToMaxWeight(weights, rawLimit).clipped
  {
    SearchResult(weights, rawLimit);
    hide ClipToMaxWeight, CapAt, Cutoff;
  }

  lemma QuotientSign(x: real, d: real)
    requires d > 0.0
    ensures Over(x, d) < 0.0 <==> x < 0.0
    ensures Over(x, d) == 0.0 <==> x == 0.0
  {
    OverTimes(x, d);
    TimesFlip(Over(x, d), d);
    OrderScale(d, Over(x, d), 0.0);
    OrderScale(d, 0.0, Over(x, d));
    TimesZero(d);
  }

  /** The limit's part of the mass that passes the test, read off the sorted shares. */
  ghost function PassingPart(weights: seq<real>, rawLimit: nat): real
    requires Searching(weights, rawLimit)
  {
    CutoffFound(weights, rawLimit);
    Times(Limit(rawLimit), Prefix(Ordered(weights), PassingCount(weights, rawLimit)))
  }

  lemma CutoffSign(weights: seq<real>, rawLimit: nat)
    requires Searching(weights, rawLimit)
    ensures Cutoff(weights, rawLimit) < 0.0 <==> PassingPart(weights, rawLimit) < EPSILON
    ensures Cutoff(weights, rawLimit) == 0.0 <==> PassingPart(weights, rawLimit) == EPSILON
  {
    var s, b, limit := Ordered(weights), PassingCount(weights, rawLimit), Limit(rawLimit);
    CutoffFound(weights, rawLimit);
    var d := 1.0 - Times(limit, (|s| - b) as real);
    assert Cutoff(weights, rawLimit) == Over(PassingPart(weights, rawLimit) - EPSILON, d) && d > 0.0;
    hide *;
    QuotientSign(PassingPart(weights, rawLimit) - EPSILON, d);
  }

  /** The call divides by zero exactly when the search is reached and the limit's part of
      the passing mass is the epsilon; when it is less, every entry gets the same share. */
  lemma DivisionByZeroIff(weights: seq<real>, rawLimit: nat)
    requires AllNonNegative(weights) && Sum(weights) > 0.0 && 0 < rawLimit <= U16_MAX
    ensures ClipToMaxWeight(weights, rawLimit).DivisionByZero? <==>
              Searching(weights, rawLimit) && PassingPart(weights, rawLimit) == EPSILON
    ensures Searching(weights, rawLimit) && PassingPart(weights, rawLimit) < EPSILON ==>
              |weights| > 0
              && ClipToMaxWeight(weights, rawLimit) == Conformed(Equal(|weights|, Over(1.0, |weights| as real)), true)
  {
    SomeWeight(weights);
    ClippingDistributes(weights, rawLimit);
    hide ClipToMaxWeight, Searching, Cutoff, PassingPart;
    if Searching(weights, rawLimit) {
      CutoffSign(weights, rawLimit);
      if Cutoff(weights, rawLimit) <= 0.0 { NonPositiveCutoff(weights, rawLimit); }
    }
  }

  lemma SomeWeight(weights: seq<real>)
    requires Sum(weights) > 0.0
    ensures |weights| > 0
  {
  }

  // ----- the limit -----------------------------------------------------------

  ghost predicate WithinLimit(shares: seq<real>, limit: real) {
    forall i :: 0 <= i < |shares| ==> shares[i] <= limit
  }

  lemma QuotientAtMost(x: real, d: real, limit: real)
    requires d > 0.0
    ensures Over(x, d) <= limit <==> x <= Times(limit, d)
  {
    OverTimes(x, d);
    TimesFlip(Over(x, d), d);
    TimesFlip(limit, d);
    OrderScale(d, Over(x, d), limit);
  }

  lemma CutoffAgainstLimit(k: real, limit: real, left: real, shaved: real)
    requires left > 0.0 && limit > 0.0 && k == Times(limit, left + shaved) - EPSILON
    ensures Over(k, left) <= limit <==> Times(limit, shaved) <= EPSILON
  {
    QuotientAtMost(k, left, limit);
    TimesSum(limit, left, shaved);
  }

  /** With a positive cutoff the clipped shares respect the limit exactly when the limit's
      part of what was shaved off the passing shares is at most the epsilon. */
  lemma WithinLimitIff(weights: seq<real>, rawLimit: nat)
    requires Searching(weights, rawLimit) && Cutoff(weights, rawLimit) > 0.0
    ensures var r := ClipToMaxWeight(weights, rawLimit);
            && r.Conformed? && |r.shares| == |weights| && AllNonNegative(r.shares) && Sum(r.shares) == 1.0
            && (WithinLimit(r.shares, Limit(rawLimit)) <==>
                  Times(Limit(rawLimit), Shaved(weights, rawLimit)) <= EPSILON)
  {
    hide *;
    var r, k, left := ClipToMaxWeight(weights, rawLimit), Cutoff(weights, rawLimit), Remaining(weights, rawLimit);
    SearchingMeans(weights, rawLimit);
    ClippedShares(weights, rawLimit);
    RemainingSign(weights, rawLimit);
    CutoffIdentity(weights, rawLimit);
    CutoffAgainstLimit(k, Limit(rawLimit), left, Shaved(weights, rawLimit));
    var top := TopIndex(weights, rawLimit);
    SharesNonNegative(weights);
    TopShare(weights, r.shares, Sum(weights), k, left, top);
    LimitFromTop(r.shares, Over(k, left), top, Limit(rawLimit));
  }

  lemma SharesNonNegative(weights: seq<real>)
    requires AllNonNegative(weights) && Sum(weights) > 0.0
    ensures forall i :: 0 <= i < |weights| ==> Over(weights[i], Sum(weights)) >= 0.0
  {
    SortedShares(weights, Sum(weights));
    forall i | 0 <= i < |weights| ensures Over(weights[i], Sum(weights)) >= 0.0 {
      assert Shares(weights, Sum(weights))[i] >= 0.0;
    }
  }

  lemma TopShare(weights: seq<real>, shares: seq<real>, total: real, k: real, left: real, top: nat)
    requires total > 0.0 && k > 0.0 && left > 0.0 && |shares| == |weights| && top < |weights|
    requires forall i :: 0 <= i < |weights| ==> Over(weights[i], total) >= 0.0
    requires forall i :: 0 <= i < |weights| ==> shares[i] == Over(MinReal(Over(weights[i], total), k), left)
    requires Over(weights[top], total) >= k
    ensures shares[top] == Over(k, left)
    ensures forall i :: 0 <= i < |shares| ==> 0.0 <= shares[i] <= Over(k, left)
  {
    hide Over;
    forall i | 0 <= i < |weights| ensures 0.0 <= shares[i] <= Over(k, left) {
      var x := Over(weights[i], total);
      OverMonotone(MinReal(x, k), k, left);
      OverMonotone(0.0, MinReal(x, k), left);
      ZeroOver(left);
    }
  }

  lemma LimitFromTop(shares: seq<real>, highest: real, top: nat, limit: real)
    requires top < |shares| && shares[top] == highest
    requires forall i :: 0 <= i < |shares| ==> 0.0 <= shares[i] <= highest
    ensures AllNonNegative(shares)
    ensures WithinLimit(shares, limit) <==> highest <= limit
  {
  }

  ghost function TopIndex(weights: seq<real>, rawLimit: nat): (i: nat)
    requires Searching(weights, rawLimit)
    ensures i < |weights| && Over(weights[i], Sum(weights)) >= Cutoff(weights, rawLimit)
  {
    CutoffBelowLargest(weights, rawLimit);
    var v, s := Shares(weights, Sum(weights)), Ordered(weights);
    SortMultiset(v);
    InPermutation(s, v, |s| - 1);
    var i :| 0 <= i < |v| && v[i] == s[|s| - 1];
    i
  }

  lemma {:induction false} CapIdle(v: seq<real>, k: real)
    requires forall i :: 0 <= i < |v| ==> v[i] <= k
    ensures CapAt(v, k) == v
  {
    if v != [] {
      assert forall i :: 0 <= i < |v| - 1 ==> v[1..][i] == v[i + 1];
      CapIdle(v[1..], k);
      assert v == [v[0]] + v[1..];
    }
  }

  /** In particular the limit is respected whenever the cutoff is at least the last
      passing share: nothing that passed is shaved then. */
  lemma CutoffAbovePassingShares(weights: seq<real>, rawLimit: nat)
    requires Searching(weights, rawLimit)
    requires var s, b := Ordered(weights), PassingCount(weights, rawLimit);
             1 <= b <= |s| && Cutoff(weights, rawLimit) >= s[b - 1] && Cutoff(weights, rawLimit) > 0.0
    ensures Shaved(weights, rawLimit) == 0.0
    ensures ClipToMaxWeight(weights, rawLimit).Conformed?
    ensures WithinLimit(ClipToMaxWeight(weights, rawLimit).shares, Limit(rawLimit))
  {
    var s, b := Ordered(weights), PassingCount(weights, rawLimit);
    OrderedShape(weights);
    CapIdle(s[..b], Cutoff(weights, rawLimit));
    TimesZero(Limit(rawLimit));
    WithinLimitIff(weights, rawLimit);
  }

  /** Clipping keeps the order of the weights. */
  lemma ClippingKeepsOrder(weights: seq<real>, rawLimit: nat, i: nat, j: nat)
    requires Searching(weights, rawLimit) && Cutoff(weights, rawLimit) > 0.0
    requires i < |weights| && j < |weights| && weights[i] <= weights[j]
    ensures var r := ClipToMaxWeight(weights, rawLimit);
            r.Conformed? && |r.shares| == |weights| && r.shares[i] <= r.shares[j]
  {
    ClippedShares(weights, rawLimit);
    RemainingSign(weights, rawLimit);
    OverMonotone(weights[i], weights[j], Sum(weights));
    var k := Cutoff(weights, rawLimit);
    OverMonotone(MinReal(Over(weights[i], Sum(weights)), k), MinReal(Over(weights[j], Sum(weights)), k),
                 Remaining(weights, rawLimit));
  }

  // ----- every branch --------------------------------------------------------

  lemma EqualShares(n: nat)
    requires n > 0
    ensures AllNonNegative(Equal(n, Over(1.0, n as real))) && Sum(Equal(n, Over(1.0, n as real))) == 1.0
  {
    ConstantSum(Equal(n, Over(1.0, n as real)), Over(1.0, n as real));
    TimesFlip(n as real, Over(1.0, n as real));
    OverTimes(1.0, n as real);
  }

  /** For every non-negative vector with a positive total and every legal limit, the result
      is a distribution over the same entries, unless the cutoff is exactly zero. */
  lemma ClippingDistributes(weights: seq<real>, rawLimit: nat)
    requires AllNonNegative(weights) && Sum(weights) > 0.0 && 0 < rawLimit <= U16_MAX
    ensures var r := ClipToMaxWeight(weights, rawLimit);
            && (r.Conformed? ==> |r.shares| == |weights| && AllNonNegative(r.shares) && Sum(r.shares) == 1.0)
            && (!r.Conformed? ==> r.DivisionByZero? && Searching(weights, rawLimit) && Cutoff(weights, rawLimit) == 0.0)
  {
    assert weights != [];
    var total := Sum(weights);
    if Searching(weights, rawLimit) {
      if Cutoff(weights, rawLimit) > 0.0 {
        WithinLimitIff(weights, rawLimit);
      } else {
        NonPositiveCutoff(weights, rawLimit);
        EqualShares(|weights|);
      }
    } else {
      SortedShares(weights, total);
      SumShares(weights, total);
      WholeOver(total);
      EqualShares(|weights|);
    }
  }

  /** When the clipped vector respects the limit, over every branch: an early return does
      unless it had to spread the weight over too few entries; the search does when its
      cutoff is negative or takes at most the epsilon's worth from the passing shares. */
  ghost predicate LimitMet(weights: seq<real>, rawLimit: nat)
    requires AllNonNegative(weights) && Sum(weights) > 0.0 && 0 < rawLimit <= U16_MAX
  {
    if Searching(weights, rawLimit)
    then Cutoff(weights, rawLimit) < 0.0 || Times(Limit(rawLimit), Shaved(weights, rawLimit)) <= EPSILON
    else
      || rawLimit == U16_MAX
      || (weights != [] && Largest(Shares(weights, Sum(weights))) <= Limit(rawLimit))
      || Times(|weights| as real, Limit(rawLimit)) >= 1.0
  }

  lemma LimitMetIff(weights: seq<real>, rawLimit: nat)
    requires AllNonNegative(weights) && Sum(weights) > 0.0 && 0 < rawLimit <= U16_MAX
    requires ClipToMaxWeight(weights, rawLimit).Conformed?
    ensures WithinLimit(ClipToMaxWeight(weights, rawLimit).shares, Limit(rawLimit)) <==> LimitMet(weights, rawLimit)
  {
    assert weights != [];
    var n, limit := |weights|, Limit(rawLimit);
    EqualWithin(n, limit);
    if Searching(weights, rawLimit) {
      if Cutoff(weights, rawLimit) > 0.0 {
        WithinLimitIff(weights, rawLimit);
      } else {
        NonPositiveCutoff(weights, rawLimit);
      }
    } else {
      EarlyReturn(weights, rawLimit);
    }
  }

  lemma EqualWithin(n: nat, limit: real)
    requires n > 0
    ensures WithinLimit(Equal(n, Over(1.0, n as real)), limit) <==> Times(n as real, limit) >= 1.0
  {
    QuotientAtMost(1.0, n as real, limit);
    TimesFlip(n as real, limit);
    var e := Equal(n, Over(1.0, n as real));
    assert e[0] == Over(1.0, n as real);
  }

  lemma EarlyReturn(weights: seq<real>, rawLimit: nat)
    requires AllNonNegative(weights) && weights != [] && Sum(weights) > 0.0 && 0 < rawLimit <= U16_MAX
    requires !Searching(weights, rawLimit)
    ensures ClipToMaxWeight(weights, rawLimit).Conformed?
    ensures WithinLimit(ClipToMaxWeight(weights, rawLimit).shares, Limit(rawLimit)) <==> LimitMet(weights, rawLimit)
  {
    var shares, n := Shares(weights, Sum(weights)), |weights|;
    EqualWithin(n, Limit(rawLimit));
    SortedShares(weights, Sum(weights));
    SumShares(weights, Sum(weights));
    WholeOver(Sum(weights));
    SumNonNegative(shares);
    WholeOver(U16_MAX as real);
    hide Sum, Largest, Equal;
    assert rawLimit == U16_MAX ==> Limit(rawLimit) == 1.0;
  }

  /** Whatever the signs of the weights, a returned vector has their length and sum one. */
  lemma ConformedSumsToOne(weights: seq<real>, rawLimit: nat)
    requires ClipToMaxWeight(weights, rawLimit).Conformed?
    ensures var r := ClipToMaxWeight(weights, rawLimit);
            |r.shares| == |weights| && r.shares != [] && Sum(r.shares) == 1.0
  {
    var total := Sum(weights);
    SumShares(weights, total);
    WholeOver(total);
    EqualShares(|weights|);
    hide ClipAbove, Shares, Sum, Equal, Largest, Limit;
    if ClipToMaxWeight(weights, rawLimit) == ClipAbove(weights, total, Limit(rawLimit)) {
      AboveSumsToOne(weights, total, Limit(rawLimit));
    }
  }

  lemma AboveSumsToOne(weights: seq<real>, total: real, limit: real)
    requires total != 0.0 && ClipAbove(weights, total, limit).Conformed?
    ensures var r := ClipAbove(weights, total, limit); |r.shares| == |weights| && Sum(r.shares) == 1.0
  {
    hide Testable, CountPassing, CutoffScale, CapAt, Shares, Sort, Sum, Times;
    var s := Sort(Shares(weights, total));
    var clipped := CapAt(weights, Times(CutoffScale(s, limit, CountPassing(s, limit, 0)), total));
    assert ClipAbove(weights, total, limit) == Renormalize(clipped);
    SumShares(clipped, Sum(clipped));
    WholeOver(Sum(clipped));
  }

  // ----- two concrete vectors ------------------------------------------------

  lemma LimitOf(rawLimit: nat)
    ensures rawLimit == 52428 ==> Limit(rawLimit) == 0.8
    ensures rawLimit == 32768 ==> 0.5 < Limit(rawLimit) < 0.50001
  {
    assert Times(0.8, 65535.0) == 52428.0;
    TimesOver(0.8, 65535.0);
    QuotientBelow(32768.0, 65535.0, 0.50001);
    QuotientAtMost(32768.0, 65535.0, 0.5);
  }

  lemma SumOfTwo(x: real, y: real)
    ensures Sum([x, y]) == x + y
  {
    assert [x, y][1..] == [y] && [y][1..] == [];
    assert Sum([y]) == y + Sum([]);
  }

  lemma SharesOfTwo(x: real, y: real)
    requires x + y == 1.0
    ensures Shares([x, y], 1.0) == [x, y]
  {
    assert Over(x, 1.0) == x && Over(y, 1.0) == y;
  }

  lemma SortTwo(x: real, y: real)
    requires x <= y
    ensures Sort([x, y]) == [x, y]
  {
    assert [x, y][1..] == [y] && [y][1..] == [];
    assert Sort([y]) == [y];
  }

  const NEARLY: seq<real> := [0.19999996, 0.80000004]

  /** The largest share passes the test by less than the epsilon, so nothing is below the
      limit's reach: the cutoff is the limit less the epsilon. */
  lemma NearlyCutoff()
    ensures Searching(NEARLY, 52428)
    ensures Cutoff(NEARLY, 52428) == 0.7999999 && Shaved(NEARLY, 52428) == 0.00000014
  {
    var w, x, y := NEARLY, 0.19999996, 0.80000004;
    assert w == [x, y];
    LimitOf(52428);
    SumOfTwo(x, y);
    SharesOfTwo(x, y);
    SortTwo(x, y);
    assert AllNonNegative(w) && Sum(w) == 1.0 && Largest(w) >= w[1];
    assert Searching(w, 52428);
    OrderedShape(w);
    CutoffFound(w, 52428);
    assert Ordered(w) == w;
    assert w[..2] == w;
    assert Prefix(w, 2) == 1.0;
    assert Denominator(w, 1) == 1.0 + EPSILON;
    NearlyPasses();
    assert Passes(w, Limit(52428), 1);
    assert PassingCount(w, 52428) == 2;
    assert Cutoff(w, 52428) == 0.7999999;
    CapTwo(x, y, 0.7999999);
  }

  lemma NearlyPasses()
    ensures Over(0.80000004, 1.0 + EPSILON) < 0.8
  {
    QuotientBelow(0.80000004, 1.0 + EPSILON, 0.8);
  }

  lemma CapTwo(x: real, y: real, k: real)
    ensures Sum(CapAt([x, y], k)) == MinReal(x, k) + MinReal(y, k)
  {
    assert CapAt([x, y], k) == [MinReal(x, k), MinReal(y, k)];
    SumOfTwo(MinReal(x, k), MinReal(y, k));
  }

  /** The limit of four fifths is exceeded by a vector whose top share is above it by less
      than the epsilon's reach. */
  lemma LimitExceeded()
    ensures var r := ClipToMaxWeight(NEARLY, 52428);
            r.Conformed? && !WithinLimit(r.shares, Limit(52428))
  {
    NearlyCutoff();
    LimitOf(52428);
    hide Cutoff, Shaved, Searching, ClipToMaxWeight, NEARLY, Limit;
    WithinLimitIff(NEARLY, 52428);
  }

  const LONE: seq<real> := [0.0, 0.0, 1.0]

  lemma LoneShape()
    ensures AllNonNegative(LONE) && Sum(LONE) == 1.0 && Shares(LONE, 1.0) == LONE && Sort(LONE) == LONE
    ensures Largest(LONE) == 1.0
  {
    var rest := [0.0, 1.0];
    assert LONE[1..] == rest;
    SumOfTwo(0.0, 1.0);
    SharesOfTwo(0.0, 1.0);
    SortTwo(0.0, 1.0);
    assert Over(0.0, 1.0) == 0.0;
    assert LONE == [0.0] + rest;
    assert Largest(LONE) >= LONE[2];
  }

  /** All the weight on one of three entries, a limit just above one half: nothing lies
      below the cutoff, the cutoff is negative, and everybody gets one third. */
  lemma LoneWeightFlattened()
    ensures Searching(LONE, 32768) && Cutoff(LONE, 32768) < 0.0
    ensures ClipToMaxWeight(LONE, 32768) == Conformed(Equal(3, Over(1.0, 3.0)), true)
  {
    var limit := Limit(32768);
    LimitOf(32768);
    LoneShape();
    assert Searching(LONE, 32768);
    OrderedShape(LONE);
    CutoffFound(LONE, 32768);
    assert Ordered(LONE) == LONE;
    LoneCount(limit);
    LoneScale(limit);
    hide Searching, Cutoff, ClipToMaxWeight, Limit;
    NonPositiveCutoff(LONE, 32768);
  }

  lemma LoneCount(limit: real)
    requires 0.5 < limit < 0.50001 && Testable(LONE) && Found(LONE, limit, CountPassing(LONE, limit, 0))
    ensures CountPassing(LONE, limit, 0) == 2
  {
    LoneShape();
    SharesTestable(LONE);
    ZeroOver(Denominator(LONE, 1));
    LoneFailure(limit);
    hide Denominator, CountPassing;
    assert Passes(LONE, limit, 1) && !Passes(LONE, limit, 2);
  }

  lemma LoneFailure(limit: real)
    requires 0.5 < limit < 0.50001
    ensures Denominator(LONE, 2) > 0.0 && !(Over(1.0, Denominator(LONE, 2)) < limit)
  {
    LoneShape();
    assert LONE[..3] == LONE;
    assert Denominator(LONE, 2) == 1.0 + EPSILON;
    QuotientBelow(1.0, 1.0 + EPSILON, limit);
  }

  lemma LoneScale(limit: real)
    requires 0.5 < limit < 0.50001
    ensures 1.0 - Times(limit, 1.0) != 0.0 && CutoffScale(LONE, limit, 2) < 0.0
  {
    assert LONE[..2] == [0.0, 0.0];
    SumOfTwo(0.0, 0.0);
    QuotientBelow(Times(limit, 0.0) - EPSILON, 1.0 - limit, 0.0);
  }

  /** Two tenths of a millionth, and the rest: the limit's part of the first is the epsilon. */
  const DUST: real := 0.0000002 * 65535.0 / 65536.0

  const DUSTY: seq<real> := [DUST, 1.0 - DUST]

  lemma DustSizes(limit: real)
    requires limit == Over(32768.0, 65535.0)
    ensures 0.0 < DUST < 0.0000002 && 0.5 < limit < 0.50001
    ensures Times(limit, DUST) == EPSILON
  {
    OverTimes(32768.0, 65535.0);
    assert limit * 65535.0 == 32768.0;
    assert limit * DUST == limit * 65535.0 * 0.0000002 / 65536.0;
  }

  lemma DustyCount(limit: real)
    requires limit == Over(32768.0, 65535.0)
    requires Testable(DUSTY) && Found(DUSTY, limit, CountPassing(DUSTY, limit, 0))
    ensures CountPassing(DUSTY, limit, 0) == 1
  {
    DustSizes(limit);
    assert DUSTY[..2] == DUSTY;
    SumOfTwo(DUST, 1.0 - DUST);
    assert Denominator(DUSTY, 1) == 1.0 + EPSILON;
    QuotientBelow(1.0 - DUST, 1.0 + EPSILON, limit);
    SmallTimes(limit);
    hide Denominator, CountPassing;
    assert !Passes(DUSTY, limit, 1);
  }

  lemma SmallTimes(limit: real)
    requires 0.5 < limit < 0.50001
    ensures Times(limit, 1.0 + EPSILON) < 0.6
  {
  }

  /** A vector at which the call divides by zero. */
  lemma DustyDividesByZero()
    ensures Searching(DUSTY, 32768) && Cutoff(DUSTY, 32768) == 0.0
    ensures ClipToMaxWeight(DUSTY, 32768) == DivisionByZero
  {
    var limit := Limit(32768);
    DustSizes(limit);
    DustyShape();
    assert Times(2.0, limit) > 1.0;
    assert Searching(DUSTY, 32768);
    OrderedShape(DUSTY);
    CutoffFound(DUSTY, 32768);
    assert Ordered(DUSTY) == DUSTY;
    DustyCount(limit);
    assert DUSTY[..1] == [DUST];
    assert Sum([DUST]) == DUST + Sum([]);
    assert PassingPart(DUSTY, 32768) == EPSILON;
    hide Searching, Cutoff, PassingPart, ClipToMaxWeight, Limit;
    CutoffSign(DUSTY, 32768);
    NonPositiveCutoff(DUSTY, 32768);
  }

  lemma DustyShape()
    ensures AllNonNegative(DUSTY) && Sum(DUSTY) == 1.0 && Shares(DUSTY, 1.0) == DUSTY && Sort(DUSTY) == DUSTY
    ensures Largest(DUSTY) > 0.6
  {
    DustSizes(Over(32768.0, 65535.0));
    SumOfTwo(DUST, 1.0 - DUST);
    SharesOfTwo(DUST, 1.0 - DUST);
    SortTwo(DUST, 1.0 - DUST);
    assert Largest(DUSTY) >= DUSTY[1];
  }
}
