/** `_clip_to_max_weight` (planrace/testnet_weights.py:228-262): the cutoff search over the
    sorted shares and the clipped, renormalised vector. */
module Clipping {
  import opened Statistics
  import opened Wrappers

  const U16_MAX: nat := 65535
  const EPSILON: real := 0.0000001   // 1e-7

  datatype Clip =
    | BadLimit
    | BadTotal
    | DivisionByZero
    | Conformed(shares: seq<real>, clipped: bool)

  function Limit(rawLimit: nat): real {
    Over(rawLimit as real, U16_MAX as real)
  }

  function Shares(weights: seq<real>, total: real): (r: seq<real>)
    requires total != 0.0
    ensures |r| == |weights| && forall i :: 0 <= i < |r| ==> r[i] == Over(weights[i], total)
  {
    if weights == [] then [] else [Over(weights[0], total)] + Shares(weights[1..], total)
  }

  function Largest(v: seq<real>): (m: real)
    requires v != []
    ensures m in v && forall i :: 0 <= i < |v| ==> v[i] <= m
  {
    if |v| == 1 then v[0]
    else
      var m := Largest(v[1..]);
      assert forall i :: 0 < i < |v| ==> v[i] == v[1..][i - 1];
      MaxReal(v[0], m)
  }

  function Equal(count: nat, x: real): (r: seq<real>)
    ensures |r| == count && forall i :: 0 <= i < count ==> r[i] == x
  {
    if count == 0 then [] else [x] + Equal(count - 1, x)
  }

  /** `cumulative[k - 1]`, the sum of the first `k`. */
  function Prefix(s: seq<real>, k: nat): real
    requires k <= |s|
  {
    Sum(s[..k])
  }

  /** The denominator of the test at one index. */
  function Denominator(s: seq<real>, i: nat): real
    requires i < |s|
  {
    Times((|s| - i - 1) as real, s[i]) + Prefix(s, i + 1) + EPSILON
  }

  predicate Passes(s: seq<real>, limit: real, i: nat)
    requires i < |s| && Denominator(s, i) != 0.0
  {
    Over(s[i], Denominator(s, i)) < limit
  }

  predicate Testable(s: seq<real>) {
    forall i :: 0 <= i < |s| ==> Denominator(s, i) != 0.0
  }

  /** `below_cutoff`, counting from `i` on. */
  function CountPassing(s: seq<real>, limit: real, i: nat): (n: nat)
    requires i <= |s|
    ensures i + n <= |s|
    decreases |s| - i
  {
    if i == |s| then 0
    else (if Denominator(s, i) != 0.0 && Passes(s, limit, i) then 1 else 0) + CountPassing(s, limit, i + 1)
  }

  /** `cumulative[below - 1]`; the index -1 is the last one. */
  function PassingMass(s: seq<real>, below: nat): real
    requires below <= |s|
  {
    Prefix(s, if below == 0 then |s| else below)
  }

  /** `cutoff_scale`. */
  function CutoffScale(s: seq<real>, limit: real, below: nat): real
    requires below <= |s| && 1.0 - Times(limit, (|s| - below) as real) != 0.0
  {
    Over(Times(limit, PassingMass(s, below)) - EPSILON, 1.0 - Times(limit, (|s| - below) as real))
  }

  function CapAt(v: seq<real>, x: real): (r: seq<real>)
    ensures |r| == |v| && forall i :: 0 <= i < |r| ==> r[i] == MinReal(v[i], x)
  {
    if v == [] then [] else [MinReal(v[0], x)] + CapAt(v[1..], x)
  }

  // ----- sums of capped shares -----------------------------------------------

  ghost predicate AllNonNegative(v: seq<real>) {
    forall i :: 0 <= i < |v| ==> v[i] >= 0.0
  }

  lemma {:induction false} SumNonNegative(v: seq<real>)
    requires AllNonNegative(v)
    ensures Sum(v) >= 0.0
    ensures forall i :: 0 <= i < |v| ==> v[i] <= Sum(v)
  {
    if v != [] {
      SumNonNegative(v[1..]);
      forall i | 0 <= i < |v| ensures v[i] <= Sum(v) {
        if i > 0 { assert v[i] == v[1..][i - 1]; }
      }
    }
  }

  /** Below `k` the shares are at most `x`, from `k` on at least `x`. */
  lemma {:induction false} CapSplit(s: seq<real>, x: real, k: nat)
    requires k <= |s|
    requires forall i :: 0 <= i < k ==> s[i] <= x
    requires forall i :: k <= i < |s| ==> s[i] >= x
    ensures Sum(CapAt(s, x)) == Prefix(s, k) + Times((|s| - k) as real, x)
  {
    if s != [] {
      var rest := s[1..];
      assert CapAt(s, x)[1..] == CapAt(rest, x);
      if k > 0 {
        CapSplit(rest, x, k - 1);
        assert s[..k][1..] == rest[..k - 1];
      } else {
        CapSplit(rest, x, 0);
        assert s[..0] == [] && rest[..0] == [];
        ScaleByCount(|s|, x);
      }
    }
  }

  lemma {:induction false} SumSplit(s: seq<real>, k: nat)
    requires k <= |s|
    ensures Sum(s) == Sum(s[..k]) + Sum(s[k..])
  {
    if k == 0 {
      assert s[..0] == [] && s[0..] == s;
    } else {
      SumSplit(s[1..], k - 1);
      assert s[..k][1..] == s[1..][..k - 1] && s[k..] == s[1..][k - 1..];
    }
  }

  lemma DenominatorUnfolds(s: seq<real>, i: nat)
    requires i < |s|
    ensures Denominator(s, i) == Times((|s| - (i + 1)) as real, s[i]) + Prefix(s, i + 1) + EPSILON
  {
    hide Times, Prefix;
    assert |s| - (i + 1) == |s| - i - 1;
  }

  /** The denominator adds every share, capped at the tested one. */
  lemma DenominatorIs(s: seq<real>, i: nat)
    requires Sorted(s) && i < |s|
    ensures Denominator(s, i) == Sum(CapAt(s, s[i])) + EPSILON
  {
    var x, k := s[i], i + 1;
    assert forall j :: 0 <= j < k ==> s[j] <= x;
    assert forall j :: k <= j < |s| ==> s[j] >= x;
    hide *;
    DenominatorUnfolds(s, i);
    CapSplit(s, x, k);
  }

  lemma CapNonNegative(s: seq<real>, x: real)
    requires AllNonNegative(s) && x >= 0.0
    ensures AllNonNegative(CapAt(s, x)) && Sum(CapAt(s, x)) >= 0.0
  {
    SumNonNegative(CapAt(s, x));
  }

  lemma SharesTestable(s: seq<real>)
    requires Sorted(s) && AllNonNegative(s)
    ensures Testable(s) && forall i :: 0 <= i < |s| ==> Denominator(s, i) > 0.0
  {
    forall i | 0 <= i < |s| ensures Denominator(s, i) > 0.0 {
      DenominatorIs(s, i);
      CapNonNegative(s, s[i]);
    }
  }

  /** Capping lower keeps at least the proportional part of the sum. */
  lemma {:induction false} CapConcave(s: seq<real>, x: real, y: real)
    requires AllNonNegative(s) && 0.0 <= x <= y
    ensures Times(x, Sum(CapAt(s, y))) <= Times(y, Sum(CapAt(s, x)))
  {
    if s != [] {
      var rest := s[1..];
      assert CapAt(s, x)[1..] == CapAt(rest, x) && CapAt(s, y)[1..] == CapAt(rest, y);
      CapConcave(rest, x, y);
      MinConcave(s[0], x, y);
      TimesSum(x, MinReal(s[0], y), Sum(CapAt(rest, y)));
      TimesSum(y, MinReal(s[0], x), Sum(CapAt(rest, x)));
      hide Times;
    }
  }

  lemma MinConcave(a: real, x: real, y: real)
    requires a >= 0.0 && 0.0 <= x <= y
    ensures Times(x, MinReal(a, y)) <= Times(y, MinReal(a, x))
  {
    if a <= x {
      assert (y - x) * a >= 0.0;
    } else if a <= y {
      assert x * (y - a) >= 0.0;
    }
  }

  // ----- the cutoff search ---------------------------------------------------

  /** The test without the division: `x` is below its share of the capped sum. */
  ghost predicate Below(s: seq<real>, limit: real, x: real) {
    x < Times(limit, Sum(CapAt(s, x)) + EPSILON)
  }

  lemma QuotientBelow(x: real, d: real, limit: real)
    requires d > 0.0
    ensures Over(x, d) < limit <==> x < Times(limit, d)
  {
    OverTimes(x, d);
    TimesFlip(Over(x, d), d);
    TimesFlip(limit, d);
    StrictOrder(d, Over(x, d), limit);
  }

  lemma StrictOrder(c: real, a: real, b: real)
    requires c > 0.0
    ensures Times(c, a) < Times(c, b) <==> a < b
  {
    OrderScale(c, b, a);
  }

  lemma PassesIff(s: seq<real>, limit: real, i: nat)
    requires Sorted(s) && AllNonNegative(s) && i < |s|
    ensures Denominator(s, i) > 0.0
    ensures Passes(s, limit, i) <==> Below(s, limit, s[i])
  {
    SharesTestable(s);
    DenominatorIs(s, i);
    QuotientBelow(s[i], Denominator(s, i), limit);
  }

  /** What passes, passes at every smaller share. */
  lemma BelowDownward(s: seq<real>, limit: real, x: real, y: real)
    requires AllNonNegative(s) && limit > 0.0 && 0.0 <= x <= y && Below(s, limit, y)
    ensures Below(s, limit, x)
  {
    var f, g := Sum(CapAt(s, x)) + EPSILON, Sum(CapAt(s, y)) + EPSILON;
    CapNonNegative(s, x);
    CapConcave(s, x, y);
    Proportional(x, y, Sum(CapAt(s, x)), Sum(CapAt(s, y)));
    ScaledBelow(x, y, f, g, limit);
  }

  lemma Proportional(x: real, y: real, a: real, b: real)
    requires 0.0 <= x <= y && Times(x, b) <= Times(y, a)
    ensures Times(x, b + EPSILON) <= Times(y, a + EPSILON)
  {
    assert x * EPSILON <= y * EPSILON;
  }

  lemma ScaledBelow(x: real, y: real, f: real, g: real, limit: real)
    requires 0.0 <= x <= y && limit > 0.0 && f > 0.0
    requires Times(x, g) <= Times(y, f) && y < Times(limit, g)
    ensures x < Times(limit, f)
  {
    if x == 0.0 {
      assert limit * f > 0.0;
    } else {
      assert x * y < x * (limit * g);
      assert x * (limit * g) == limit * (x * g);
      assert limit * (x * g) <= limit * (y * f);
      assert limit * (y * f) == y * (limit * f);
      assert y * x < y * (limit * f);
      StrictOrder(y, x, limit * f);
    }
  }

  lemma PassingIsPrefix(s: seq<real>, limit: real, i: nat, j: nat)
    requires Sorted(s) && AllNonNegative(s) && limit > 0.0 && i <= j < |s|
    requires Testable(s) && Passes(s, limit, j)
    ensures Passes(s, limit, i)
  {
    PassesIff(s, limit, i);
    PassesIff(s, limit, j);
    BelowDownward(s, limit, s[i], s[j]);
  }

  lemma {:induction false} CountIsBoundary(s: seq<real>, limit: real, i: nat)
    requires Sorted(s) && AllNonNegative(s) && limit > 0.0 && i <= |s| && Testable(s)
    ensures i + CountPassing(s, limit, i) <= |s|
    ensures forall j :: i <= j < |s| ==> (Passes(s, limit, j) <==> j < i + CountPassing(s, limit, i))
    decreases |s| - i
  {
    hide Passes, Denominator, AllNonNegative, Sorted;
    if i < |s| {
      CountIsBoundary(s, limit, i + 1);
      if !Passes(s, limit, i) {
        forall j | i <= j < |s| ensures !Passes(s, limit, j) {
          if Passes(s, limit, j) { PassingIsPrefix(s, limit, i, j); }
        }
        NonePass(s, limit, i + 1);
      }
    }
  }

  lemma {:induction false} NonePass(s: seq<real>, limit: real, i: nat)
    requires i <= |s| && Testable(s) && forall j :: i <= j < |s| ==> !Passes(s, limit, j)
    ensures CountPassing(s, limit, i) == 0
    decreases |s| - i
  {
    hide Passes, Denominator;
    if i < |s| { NonePass(s, limit, i + 1); }
  }

  /** The smallest share always passes when `count * limit > 1`. */
  lemma SmallestPasses(s: seq<real>, limit: real)
    requires Sorted(s) && AllNonNegative(s) && s != [] && limit > 0.0 && Times(|s| as real, limit) > 1.0
    ensures Testable(s) && Passes(s, limit, 0)
  {
    SharesTestable(s);
    PassesIff(s, limit, 0);
    CapSplit(s, s[0], 0);
    assert s[..0] == [];
    SmallestMeans(|s| as real, s[0], limit);
  }

  lemma SmallestMeans(n: real, x: real, limit: real)
    requires x >= 0.0 && limit > 0.0 && Times(n, limit) > 1.0
    ensures x < Times(limit, Times(n, x) + EPSILON)
  {
    var k := n * limit;
    assert limit * (n * x + EPSILON) == k * x + limit * EPSILON;
    assert (k - 1.0) * x >= 0.0;
    assert (k - 1.0) * x == k * x - x;
    assert limit * EPSILON > 0.0;
  }

  /** What the search finds: a non-empty prefix passes, the denominator of the cutoff is
      positive, and the cutoff lies below the first share that does not pass. */
  ghost predicate Found(s: seq<real>, limit: real, below: nat)
    requires Testable(s)
  {
    && 1 <= below <= |s|
    && (forall j :: 0 <= j < |s| ==> (Passes(s, limit, j) <==> j < below))
    && 1.0 - Times(limit, (|s| - below) as real) > 0.0
    && (below < |s| ==> CutoffScale(s, limit, below) < s[below])
  }

  lemma FirstFailure(s: seq<real>, limit: real, b: nat)
    requires Sorted(s) && AllNonNegative(s) && limit > 0.0 && 1 <= b < |s|
    requires Testable(s) && !Passes(s, limit, b)
    ensures 1.0 - Times(limit, (|s| - b) as real) > 0.0
    ensures CutoffScale(s, limit, b) < s[b]
  {
    PassesIff(s, limit, b);
    CapSplit(s, s[b], b);
    SumNonNegative(s[..b]);
    var x, m, c := s[b], (|s| - b) as real, Prefix(s, b);
    assert Sum(CapAt(s, x)) == c + Times(m, x);
    FailureMeans(x, m, c, limit);
  }

  lemma FailureMeans(x: real, m: real, c: real, limit: real)
    requires x >= 0.0 && c >= 0.0 && limit > 0.0
    requires x >= Times(limit, c + Times(m, x) + EPSILON)
    ensures 1.0 - Times(limit, m) > 0.0
    ensures Over(Times(limit, c) - EPSILON, 1.0 - Times(limit, m)) < x
  {
    var d := 1.0 - Times(limit, m);
    assert limit * (c + m * x + EPSILON) == limit * c + (limit * m) * x + limit * EPSILON;
    assert x * d >= limit * c + limit * EPSILON;
    assert limit * c >= 0.0 && limit * EPSILON > 0.0;
    assert x * d > 0.0;
    PositiveFactor(x, d);
    QuotientBelow(Times(limit, c) - EPSILON, d, x);
  }

  lemma PositiveFactor(x: real, d: real)
    requires x >= 0.0 && x * d > 0.0
    ensures d > 0.0
  {
  }

  /** The search is well defined whenever it is reached. */
  lemma SearchFinds(s: seq<real>, limit: real)
    requires Sorted(s) && AllNonNegative(s) && s != [] && 0.0 < limit && Times(|s| as real, limit) > 1.0
    ensures Testable(s) && Found(s, limit, CountPassing(s, limit, 0))
  {
    hide Passes, Denominator, CutoffScale, AllNonNegative, Sorted, Times;
    SharesTestable(s);
    SmallestPasses(s, limit);
    CountIsBoundary(s, limit, 0);
    var b := CountPassing(s, limit, 0);
    assert b >= 1;
    if b < |s| { FirstFailure(s, limit, b); } else { NoneAbove(limit); }
  }

  lemma NoneAbove(limit: real)
    ensures 1.0 - Times(limit, 0.0) > 0.0
  {
  }

  // ----- the clipped vector --------------------------------------------------

  /** Shares over a non-zero total. */
  function Renormalize(v: seq<real>): Clip {
    if Sum(v) == 0.0 then DivisionByZero else Conformed(Shares(v, Sum(v)), true)
  }

  /** The branch that searches for a cutoff. */
  function ClipAbove(weights: seq<real>, total: real, limit: real): Clip
    requires total != 0.0
  {
    var s := Sort(Shares(weights, total));
    var below := CountPassing(s, limit, 0);
    if !Testable(s) || 1.0 - Times(limit, (|s| - below) as real) == 0.0 then DivisionByZero
    else Renormalize(CapAt(weights, Times(CutoffScale(s, limit, below), total)))
  }

  /** `_clip_to_max_weight`. */
  function ClipToMaxWeight(weights: seq<real>, rawLimit: nat): Clip {
    if !(0 < rawLimit <= U16_MAX) then BadLimit
    else if weights == [] || Sum(weights) <= 0.0 then BadTotal
    else
      var total, limit := Sum(weights), Limit(rawLimit);
      var shares := Shares(weights, total);
      if rawLimit == U16_MAX || Largest(shares) <= limit then Conformed(shares, false)
      else if Times(|weights| as real, limit) <= 1.0
        then Conformed(Equal(|weights|, Over(1.0, |weights| as real)), true)
      else ClipAbove(weights, total, limit)
  }

  lemma LimitPositive(rawLimit: nat)
    ensures rawLimit > 0 ==> Limit(rawLimit) > 0.0
  {
  }

  lemma ShareNonNegative(x: real, total: real)
    requires x >= 0.0 && total > 0.0
    ensures Over(x, total) >= 0.0
  {
  }

  lemma SortedShares(weights: seq<real>, total: real)
    requires total > 0.0 && AllNonNegative(weights)
    ensures AllNonNegative(Shares(weights, total))
    ensures var s := Sort(Shares(weights, total)); Sorted(s) && AllNonNegative(s) && |s| == |weights|
  {
    var v := Shares(weights, total);
    forall i | 0 <= i < |v| ensures v[i] >= 0.0 { ShareNonNegative(weights[i], total); }
    SortSorted(v);
    SortMultiset(v);
    var s := Sort(v);
    forall i | 0 <= i < |s| ensures s[i] >= 0.0 {
      InPermutation(s, v, i);
    }
  }

  // ----- the loops -----------------------------------------------------------

  /** The cumulative sums, with their running total. */
  method Cumulate(s: seq<real>) returns (cumulative: seq<real>)
    ensures |cumulative| == |s|
    ensures forall i :: 0 <= i < |s| ==> cumulative[i] == Prefix(s, i + 1)
  {
    cumulative := [];
    var running := 0.0;
    for i := 0 to |s|
      invariant |cumulative| == i && running == Prefix(s, i)
      invariant forall j :: 0 <= j < i ==> cumulative[j] == Prefix(s, j + 1)
    {
      PrefixNext(s, i);
      running := running + s[i];
      cumulative := cumulative + [running];
    }
  }

  lemma PrefixNext(s: seq<real>, i: nat)
    requires i < |s|
    ensures Prefix(s, i + 1) == Prefix(s, i) + s[i]
  {
    SumSplit(s[..i + 1], i);
    assert s[..i + 1][..i] == s[..i] && s[..i + 1][i..] == [s[i]];
    assert Sum([s[i]]) == s[i] by { assert [s[i]][1..] == []; }
  }

  /** How many shares pass the test, unless one of its denominators is zero. */
  method CountBelowCutoff(s: seq<real>, cumulative: seq<real>, limit: real) returns (below: Option<nat>)
    requires |cumulative| == |s|
    requires forall i :: 0 <= i < |s| ==> cumulative[i] == Prefix(s, i + 1)
    ensures below == if Testable(s) then Some(CountPassing(s, limit, 0)) else None
  {
    var count := 0;
    for i := 0 to |s|
      invariant count + CountPassing(s, limit, i) == CountPassing(s, limit, 0)
      invariant forall j :: 0 <= j < i ==> Denominator(s, j) != 0.0
    {
      var d := Times((|s| - i - 1) as real, s[i]) + cumulative[i] + EPSILON;
      assert d == Denominator(s, i);
      if d == 0.0 { return None; }
      if Over(s[i], d) < limit { count := count + 1; }
    }
    below := Some(count);
  }

  method ClipWeights(weights: seq<real>, rawLimit: nat) returns (r: Clip)
    ensures r == ClipToMaxWeight(weights, rawLimit)
  {
    hide CountPassing, Denominator, Passes, CutoffScale, Shares, CapAt, Testable, PassingMass;
    if !(0 < rawLimit <= U16_MAX) { return BadLimit; }
    var total := Sum(weights);
    if weights == [] || total <= 0.0 { return BadTotal; }
    var shares := Shares(weights, total);
    var limit := Limit(rawLimit);
    if rawLimit == U16_MAX || Largest(shares) <= limit { return Conformed(shares, false); }
    var count := |shares|;
    if Times(count as real, limit) <= 1.0 {
      return Conformed(Equal(count, Over(1.0, count as real)), true);
    }
    var ordered := Sort(shares);
    var cumulative := Cumulate(ordered);
    var below := CountBelowCutoff(ordered, cumulative, limit);
    if below.None? { return DivisionByZero; }
    var d := 1.0 - Times(limit, (count - below.value) as real);
    if d == 0.0 { return DivisionByZero; }
    var mass := cumulative[if below.value == 0 then count - 1 else below.value - 1];
    var scale := Over(Times(limit, mass) - EPSILON, d);
    ScaleIs(ordered, limit, below.value, mass);
    var cutoff := Times(scale, total);
    var clipped := CapAt(weights, cutoff);
    r := Renormalize(clipped);
  }

  lemma ScaleIs(s: seq<real>, limit: real, below: nat, mass: real)
    requires below <= |s| && mass == Prefix(s, if below == 0 then |s| else below)
    requires 1.0 - Times(limit, (|s| - below) as real) != 0.0
    ensures CutoffScale(s, limit, below)
         == Over(Times(limit, mass) - EPSILON, 1.0 - Times(limit, (|s| - below) as real))
  {
  }
}
