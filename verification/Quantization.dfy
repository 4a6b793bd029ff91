/** `_conform_weight_vector` (planrace/testnet_weights.py:265-277): the exact 16-bit weights
    a vector is submitted as, and how far they can be from it. */
module Quantization {
  import opened Statistics
  import opened Clipping
  import opened ClippingLaws

  /** Python's `round`: to the nearest integer, halves to the even one. */
  function Round(x: real): (n: int)
    ensures -0.5 <= n as real - x <= 0.5
  {
    var low := x.Floor;
    var rest := x - low as real;
    if rest < 0.5 then low else if rest > 0.5 then low + 1 else if low % 2 == 0 then low else low + 1
  }

  function Level(share: real, top: real): int
    requires top != 0.0
  {
    Round(Times(Over(share, top), U16_MAX as real))
  }

  function Levels(shares: seq<real>, top: real): (r: seq<int>)
    requires top != 0.0
    ensures |r| == |shares| && forall i :: 0 <= i < |r| ==> r[i] == Level(shares[i], top)
  {
    if shares == [] then [] else [Level(shares[0], top)] + Levels(shares[1..], top)
  }

  /** A submitted entry: position, readback weight, 16-bit value. */
  datatype Entry = Entry(index: nat, weight: real, value: int)

  function SumInt(v: seq<int>): int {
    if v == [] then 0 else v[0] + SumInt(v[1..])
  }

  /** The positive values, whose sum is `total`. */
  function PositiveSum(v: seq<int>): nat {
    if v == [] then 0 else (if v[0] > 0 then v[0] else 0) + PositiveSum(v[1..])
  }

  function Entries(values: seq<int>, from: nat, total: nat): (r: seq<Entry>)
    requires total != 0
  {
    if values == [] then []
    else (if values[0] > 0 then [Entry(from, Over(values[0] as real, total as real), values[0])] else [])
         + Entries(values[1..], from + 1, total)
  }

  datatype Conformity =
    | Rejected(clip: Clip)
    | AllZero
    | Submitted(entries: seq<Entry>, clipped: bool)

  /** The values before zeros are dropped. */
  function Quantized(shares: seq<real>): seq<int>
    requires shares != [] && Largest(shares) != 0.0
  {
    Levels(shares, Largest(shares))
  }

  /** Conformed shares are a distribution, so their largest is positive. */
  ghost predicate ShareVector(shares: seq<real>) {
    shares != [] && AllNonNegative(shares) && Sum(shares) == 1.0
  }

  lemma {:induction false} AtMostZero(v: seq<real>)
    requires forall i :: 0 <= i < |v| ==> v[i] <= 0.0
    ensures Sum(v) <= 0.0
  {
    if v != [] {
      assert forall i :: 0 <= i < |v| - 1 ==> v[1..][i] == v[i + 1];
      AtMostZero(v[1..]);
    }
  }

  lemma PositiveLargest(v: seq<real>)
    requires v != [] && Sum(v) > 0.0
    ensures Largest(v) > 0.0
  {
    if Largest(v) <= 0.0 { AtMostZero(v); }
  }

  function QuantizeShares(shares: seq<real>, clipped: bool): Conformity
    requires shares != [] && Sum(shares) == 1.0
  {
    PositiveLargest(shares);
    var values := Quantized(shares);
    var total := PositiveSum(values);
    if total == 0 then AllZero else Submitted(Entries(values, 0, total), clipped)
  }

  lemma ConformedIsDistribution(weights: seq<real>, rawLimit: nat)
    requires AllNonNegative(weights) && ClipToMaxWeight(weights, rawLimit).Conformed?
    ensures ShareVector(ClipToMaxWeight(weights, rawLimit).shares)
  {
    ClippingDistributes(weights, rawLimit);
    hide Limit;
  }

  /** `_conform_weight_vector`. */
  function ConformWeightVector(weights: seq<real>, rawLimit: nat): Conformity {
    var clip := ClipToMaxWeight(weights, rawLimit);
    if !clip.Conformed? then Rejected(clip)
    else
      ConformedSumsToOne(weights, rawLimit);
      QuantizeShares(clip.shares, clip.clipped)
  }

  // ----- rounding ------------------------------------------------------------

  lemma RoundMonotone(x: real, y: real)
    requires x <= y
    ensures Round(x) <= Round(y)
  {
    var m, n := x.Floor, y.Floor;
    assert m <= n;
  }

  lemma RoundExact(n: int)
    ensures Round(n as real) == n
  {
    assert (n as real).Floor == n;
  }

  /** `n` is the integer nearest to `x`, the even one of two equally near. */
  ghost predicate IsNearest(n: int, x: real) {
    -0.5 <= n as real - x <= 0.5 && (n as real - x == 0.5 || n as real - x == -0.5 ==> n % 2 == 0)
  }

  lemma RoundIsNearest(x: real, n: int)
    ensures n == Round(x) <==> IsNearest(n, x)
  {
    var low := x.Floor;
    if IsNearest(n, x) { assert n == low || n == low + 1; }
  }

  /** Every value is the integer nearest to the share of the top one, scaled to 65535. */
  lemma ValuesAreNearest(shares: seq<real>, top: real, i: nat)
    requires i < |shares| && top in shares && (forall j :: 0 <= j < |shares| ==> shares[j] <= top) && top != 0.0
    ensures Largest(shares) == top && IsNearest(Quantized(shares)[i], shares[i] / top * 65535.0)
  {
    assert Largest(shares) == top;
    var n := Quantized(shares)[i];
    assert n == Level(shares[i], top);
    hide *;
    LevelIsNearest(shares[i], top);
  }

  lemma LevelIsNearest(share: real, top: real)
    requires top != 0.0
    ensures IsNearest(Level(share, top), share / top * 65535.0)
  {
    var x := share / top * 65535.0;
    assert Times(Over(share, top), U16_MAX as real) == x;
    RoundIsNearest(x, Round(x));
    hide Times, Over, Round, IsNearest;
  }

  lemma LevelMonotone(a: real, b: real, top: real)
    requires a <= b && top > 0.0
    ensures Level(a, top) <= Level(b, top)
  {
    OverMonotone(a, b, top);
    var x, y := Over(a, top), Over(b, top);
    TimesFlip(x, U16_MAX as real);
    TimesFlip(y, U16_MAX as real);
    OrderScale(U16_MAX as real, x, y);
    RoundMonotone(Times(x, U16_MAX as real), Times(y, U16_MAX as real));
  }

  lemma LevelEnds(top: real)
    requires top > 0.0
    ensures Level(top, top) == U16_MAX && Level(0.0, top) == 0
  {
    WholeOver(top);
    ZeroOver(top);
    assert Times(1.0, U16_MAX as real) == U16_MAX as real && Times(0.0, U16_MAX as real) == 0.0;
    RoundExact(U16_MAX);
    RoundExact(0);
  }

  lemma LevelsBetween(shares: seq<real>)
    requires ShareVector(shares)
    ensures Largest(shares) > 0.0
    ensures forall i :: 0 <= i < |shares| ==> 0 <= Quantized(shares)[i] <= U16_MAX
    ensures U16_MAX in Quantized(shares)
  {
    PositiveLargest(shares);
    var top, q := Largest(shares), Quantized(shares);
    LevelEnds(top);
    forall i | 0 <= i < |shares| ensures 0 <= q[i] <= U16_MAX {
      LevelMonotone(0.0, shares[i], top);
      LevelMonotone(shares[i], top, top);
    }
    var k :| 0 <= k < |shares| && shares[k] == top;
    assert q[k] == U16_MAX;
  }

  // ----- the error bound -----------------------------------------------------

  lemma {:induction false} NonNegativeInts(v: seq<int>)
    requires forall i :: 0 <= i < |v| ==> v[i] >= 0
    ensures PositiveSum(v) == SumInt(v)
    ensures forall x :: x in v ==> x <= SumInt(v)
  {
    if v != [] {
      assert forall i :: 0 <= i < |v| - 1 ==> v[1..][i] == v[i + 1];
      NonNegativeInts(v[1..]);
      assert v == [v[0]] + v[1..];
    }
  }

  /** Each value is within half a unit of the scaled share, so the sum is within `n / 2`. */
  lemma {:induction false} SumWithin(shares: seq<real>, values: seq<int>, scale: real)
    requires |shares| == |values|
    requires forall i :: 0 <= i < |shares| ==> -0.5 <= values[i] as real - Times(scale, shares[i]) <= 0.5
    ensures var gap := SumInt(values) as real - Times(scale, Sum(shares));
            -Times(|shares| as real, 0.5) <= gap <= Times(|shares| as real, 0.5)
  {
    hide Times;
    if shares == [] {
      TimesZero(scale);
      ZeroTimes(0.5);
    } else {
      assert forall i :: 0 <= i < |shares| - 1 ==> shares[1..][i] == shares[i + 1] && values[1..][i] == values[i + 1];
      SumWithin(shares[1..], values[1..], scale);
      TimesSum(scale, shares[0], Sum(shares[1..]));
      ScaleByCount(|shares|, 0.5);
    }
  }

  lemma LevelScaled(share: real, top: real)
    requires top > 0.0
    ensures Times(Over(share, top), U16_MAX as real) == Times(Over(U16_MAX as real, top), share)
  {
    var u := U16_MAX as real;
    assert share / top * u == u / top * share;
  }

  /** The weight the chain reads back for a position; a dropped entry reads as zero. */
  function Readback(shares: seq<real>, i: nat): real
    requires i < |shares| && shares != [] && Largest(shares) != 0.0 && PositiveSum(Quantized(shares)) != 0
  {
    var v := Quantized(shares)[i];
    if v > 0 then Over(v as real, PositiveSum(Quantized(shares)) as real) else 0.0
  }

  lemma ErrorBound(w: real, v: real, q: real, scale: real, n: real)
    requires 0.0 <= w <= 1.0 && n >= 1.0 && q >= 65535.0
    requires -0.5 <= v - Times(scale, w) <= 0.5
    requires -Times(n, 0.5) <= q - scale <= Times(n, 0.5)
    ensures -Over(n + 1.0, 131070.0) <= Over(v, q) - w <= Over(n + 1.0, 131070.0)
  {
    var e, g := v - Times(scale, w), q - scale;
    WeightedGap(w, g, n);
    Distributes(scale, g, w);
    hide Times, Over;
    assert v - Times(q, w) == e - Times(g, w);
    DivideGap(v, q, w, (n + 1.0) / 2.0);
  }

  lemma Distributes(a: real, b: real, w: real)
    ensures Times(a + b, w) == Times(a, w) + Times(b, w)
  {
  }

  lemma WeightedGap(w: real, g: real, n: real)
    requires 0.0 <= w <= 1.0 && n >= 0.0 && -Times(n, 0.5) <= g <= Times(n, 0.5)
    ensures -n / 2.0 <= Times(g, w) <= n / 2.0
  {
    var half := n / 2.0;
    assert Times(n, 0.5) == half;
    ProductNonNegative(half - g, w);
    ProductNonNegative(half + g, w);
    ProductNonNegative(half, 1.0 - w);
    Distributes(half, -g, w);
    Distributes(half, g, w);
    assert Times(-g, w) == -Times(g, w);
    assert Times(half, 1.0 - w) == half - Times(half, w);
    hide Times;
  }

  lemma DivideGap(v: real, q: real, w: real, gap: real)
    requires q >= 65535.0 && gap >= 0.0 && -gap <= v - Times(q, w) <= gap
    ensures -Over(2.0 * gap, 131070.0) <= Over(v, q) - w <= Over(2.0 * gap, 131070.0)
  {
    var d := v - Times(q, w);
    TimesOver(w, q);
    TimesFlip(w, q);
    OverSum(d, Times(q, w), q);
    assert Over(v, q) - w == Over(d, q);
    var b := Over(2.0 * gap, 131070.0);
    HalfStep(gap, q);
    QuotientAtMost(d, q, b);
    QuotientAtMost(-d, q, b);
    Negated(d, q);
  }

  lemma HalfStep(gap: real, q: real)
    requires q >= 65535.0 && gap >= 0.0
    ensures gap <= Times(Over(2.0 * gap, 131070.0), q)
  {
    var b := Over(2.0 * gap, 131070.0);
    assert b == gap / 65535.0;
    var spare := q - 65535.0;
    assert b * spare >= 0.0;
    assert b * q == b * 65535.0 + b * spare;
  }

  lemma Negated(d: real, q: real)
    requires q != 0.0
    ensures Over(-d, q) == -Over(d, q)
  {
  }

  /** Every quantised value against the scaled share. */
  lemma ValuesWithin(shares: seq<real>)
    requires ShareVector(shares) && Largest(shares) > 0.0
    ensures var scale, q := Over(U16_MAX as real, Largest(shares)), Quantized(shares);
            forall i :: 0 <= i < |shares| ==> -0.5 <= q[i] as real - Times(scale, shares[i]) <= 0.5
  {
    var top, q := Largest(shares), Quantized(shares);
    forall i | 0 <= i < |shares|
      ensures -0.5 <= q[i] as real - Times(Over(U16_MAX as real, top), shares[i]) <= 0.5
    {
      LevelScaled(shares[i], top);
      assert q[i] == Level(shares[i], top);
    }
  }

  /** Quantising a distribution over `n` entries: the largest value is exactly 65535, the
      all-zero error cannot happen, larger shares get no smaller values, and each readback
      weight is within `(n + 1) / (2 * 65535)` of its share. */
  lemma QuantizationBound(shares: seq<real>)
    requires ShareVector(shares)
    ensures Largest(shares) > 0.0 && PositiveSum(Quantized(shares)) >= U16_MAX
    ensures U16_MAX in Quantized(shares)
    ensures forall i :: 0 <= i < |shares| ==> 0 <= Quantized(shares)[i] <= U16_MAX
    ensures forall i, j :: 0 <= i < |shares| && 0 <= j < |shares| && shares[i] <= shares[j] ==>
              Quantized(shares)[i] <= Quantized(shares)[j]
    ensures forall i :: 0 <= i < |shares| ==>
              -Over(|shares| as real + 1.0, 131070.0) <= Readback(shares, i) - shares[i]
                <= Over(|shares| as real + 1.0, 131070.0)
  {
    LevelsBetween(shares);
    var top, q, n := Largest(shares), Quantized(shares), |shares|;
    NonNegativeInts(q);
    ValuesWithin(shares);
    SumWithin(shares, q, Over(U16_MAX as real, top));
    SumNonNegative(shares);
    forall i, j | 0 <= i < n && 0 <= j < n && shares[i] <= shares[j] ensures q[i] <= q[j] {
      LevelMonotone(shares[i], shares[j], top);
    }
    forall i | 0 <= i < n
      ensures -Over(n as real + 1.0, 131070.0) <= Readback(shares, i) - shares[i] <= Over(n as real + 1.0, 131070.0)
    {
      ReadbackError(shares, i);
    }
  }

  lemma TimesOne(x: real)
    ensures Times(x, 1.0) == x
  {
  }

  lemma ShareAtLeastZero(shares: seq<real>, i: nat)
    requires AllNonNegative(shares) && i < |shares|
    ensures shares[i] >= 0.0
  {
  }

  lemma ReadbackIs(shares: seq<real>, i: nat)
    requires i < |shares| && Largest(shares) != 0.0
    requires PositiveSum(Quantized(shares)) == SumInt(Quantized(shares)) != 0
    requires 0 <= Quantized(shares)[i]
    ensures Readback(shares, i) == Over(Quantized(shares)[i] as real, SumInt(Quantized(shares)) as real)
  {
    hide Quantized, Largest, PositiveSum, SumInt;
    ZeroOver(SumInt(Quantized(shares)) as real);
  }

  lemma ReadbackError(shares: seq<real>, i: nat)
    requires ShareVector(shares) && i < |shares| && Largest(shares) > 0.0
    requires PositiveSum(Quantized(shares)) == SumInt(Quantized(shares)) >= U16_MAX
    requires forall j :: 0 <= j < |shares| ==> 0 <= Quantized(shares)[j]
    ensures -Over(|shares| as real + 1.0, 131070.0) <= Readback(shares, i) - shares[i]
              <= Over(|shares| as real + 1.0, 131070.0)
  {
    var q, n, scale := Quantized(shares), |shares| as real, Over(U16_MAX as real, Largest(shares));
    var total := SumInt(q) as real;
    assert AllNonNegative(shares) && Sum(shares) == 1.0 && |q| == |shares|;
    hide *;
    ValuesWithin(shares);
    SumWithin(shares, q, scale);
    SumNonNegative(shares);
    TimesOne(scale);
    ReadbackIs(shares, i);
    assert 0.0 <= shares[i] <= 1.0 by { ShareAtLeastZero(shares, i); }
    ErrorBound(shares[i], q[i] as real, total, scale, n);
  }

  // ----- the submitted entries -----------------------------------------------

  function WeightSum(entries: seq<Entry>): real {
    if entries == [] then 0.0 else entries[0].weight + WeightSum(entries[1..])
  }

  lemma {:induction false} EntriesSum(values: seq<int>, from: nat, total: nat)
    requires total != 0
    ensures WeightSum(Entries(values, from, total)) == Over(PositiveSum(values) as real, total as real)
  {
    hide Over;
    if values == [] {
      ZeroOver(total as real);
    } else {
      EntriesSum(values[1..], from + 1, total);
      var rest := Entries(values[1..], from + 1, total);
      if values[0] <= 0 {
        assert [] + rest == rest;
      } else {
        assert ([Entry(from, Over(values[0] as real, total as real), values[0])] + rest)[1..] == rest;
        OverSum(values[0] as real, PositiveSum(values[1..]) as real, total as real);
      }
    }
  }

  lemma {:induction false} EntriesAre(values: seq<int>, from: nat, total: nat, e: Entry)
    requires total != 0
    ensures e in Entries(values, from, total) <==>
            && from <= e.index < from + |values| && values[e.index - from] > 0
            && e.value == values[e.index - from] && e.weight == Over(e.value as real, total as real)
  {
    hide Over;
    if values != [] {
      EntriesAre(values[1..], from + 1, total, e);
    }
  }

  /** From weights to submitted entries: whenever clipping succeeds, exactly the positions
      with a positive value are submitted, one of them at 65535, their readback weights
      add up to one, and each is within the bound of its clipped share. */
  lemma SubmissionFaithful(weights: seq<real>, rawLimit: nat)
    requires AllNonNegative(weights) && ClipToMaxWeight(weights, rawLimit).Conformed?
    ensures ConformWeightVector(weights, rawLimit).Submitted?
    ensures var shares, r := ClipToMaxWeight(weights, rawLimit).shares, ConformWeightVector(weights, rawLimit);
            && ShareVector(shares) && Largest(shares) > 0.0
            && r.clipped == ClipToMaxWeight(weights, rawLimit).clipped
            && WeightSum(r.entries) == 1.0
            && (exists e :: e in r.entries && e.value == U16_MAX)
            && (forall e :: e in r.entries <==>
                  e.index < |shares| && Quantized(shares)[e.index] > 0
                  && e.value == Quantized(shares)[e.index]
                  && e.weight == Over(e.value as real, PositiveSum(Quantized(shares)) as real))
            && (forall e :: e in r.entries ==>
                  -Over(|shares| as real + 1.0, 131070.0) <= e.weight - shares[e.index]
                    <= Over(|shares| as real + 1.0, 131070.0))
  {
    ConformedIsDistribution(weights, rawLimit);
    var shares := ClipToMaxWeight(weights, rawLimit).shares;
    QuantizationBound(shares);
    var values := Quantized(shares);
    var total := PositiveSum(values);
    assert ConformWeightVector(weights, rawLimit)
        == Submitted(Entries(values, 0, total), ClipToMaxWeight(weights, rawLimit).clipped);
    hide ClipToMaxWeight, ConformWeightVector, Quantized, Largest, Over, Entries, PositiveSum, ShareVector;
    EntriesSum(values, 0, total);
    WholeOver(total as real);
    forall e: Entry
      ensures e in Entries(values, 0, total) <==>
              e.index < |values| && values[e.index] > 0 && e.value == values[e.index]
              && e.weight == Over(e.value as real, total as real)
    {
      EntriesAre(values, 0, total, e);
    }
    TopEntry(values, total);
  }

  lemma TopEntry(values: seq<int>, total: nat)
    requires total != 0 && U16_MAX in values
    ensures exists e :: e in Entries(values, 0, total) && e.value == U16_MAX
  {
    hide Over, Entries;
    var k :| 0 <= k < |values| && values[k] == U16_MAX;
    EntriesAre(values, 0, total, Entry(k, Over(U16_MAX as real, total as real), U16_MAX));
  }

  method SubmitWeights(weights: seq<real>, rawLimit: nat) returns (r: Conformity)
    ensures r == ConformWeightVector(weights, rawLimit)
  {
    var clip := ClipWeights(weights, rawLimit);
    if !clip.Conformed? { return Rejected(clip); }
    ConformedSumsToOne(weights, rawLimit);
    PositiveLargest(clip.shares);
    hide ClipToMaxWeight, Largest, Levels, PositiveSum, Entries;
    var top := Largest(clip.shares);
    var quantized := Levels(clip.shares, top);
    var total := PositiveSum(quantized);
    if total == 0 { return AllZero; }
    r := Submitted(Entries(quantized, 0, total), clip.clipped);
  }

  // ----- the integer cap check -----------------------------------------------

  function LargestValue(v: seq<int>): (m: int)
    requires v != []
    ensures m in v && forall x :: x in v ==> x <= m
  {
    if |v| == 1 then v[0]
    else
      var m := LargestValue(v[1..]);
      assert v == [v[0]] + v[1..];
      if v[0] >= m then v[0] else m
  }

  /** The plan's gate, on the submitted 16-bit values alone
      (planrace/testnet_weights.py:477-482). */
  predicate CapGate(values: seq<int>, rawLimit: nat)
    requires values != []
  {
    LargestValue(values) * U16_MAX <= rawLimit * SumInt(values)
  }

  lemma CrossMultiply(x: real, t: real, r: real, u: real)
    requires t > 0.0 && u > 0.0
    ensures Over(x, t) <= Over(r, u) <==> Times(x, u) <= Times(r, t)
  {
    QuotientAtMost(x, t, Over(r, u));
    OverTimes(r, u);
    assert Times(Times(Over(r, u), t), u) == Times(r, t) by { Rearranged(Over(r, u), t, u); }
    TimesFlip(x, u);
    TimesFlip(Times(Over(r, u), t), u);
    OrderScale(u, x, Times(Over(r, u), t));
  }

  lemma Rearranged(a: real, b: real, c: real)
    ensures Times(Times(a, b), c) == Times(Times(a, c), b)
  {
    assert a * b * c == a * c * b;
  }

  lemma IntegerCross(x: int, total: int, rawLimit: nat)
    requires total > 0
    ensures x * U16_MAX <= rawLimit * total <==> Over(x as real, total as real) <= Limit(rawLimit)
  {
    CrossMultiply(x as real, total as real, rawLimit as real, U16_MAX as real);
    assert (x * U16_MAX) as real == Times(x as real, U16_MAX as real);
    assert (rawLimit * total) as real == Times(rawLimit as real, total as real);
  }

  /** The integer gate holds exactly when every readback weight respects the limit, with
      no rounding in between. */
  lemma CapGateIff(values: seq<int>, rawLimit: nat)
    requires values != [] && SumInt(values) > 0
    ensures CapGate(values, rawLimit) <==>
            forall i :: 0 <= i < |values| ==> Over(values[i] as real, SumInt(values) as real) <= Limit(rawLimit)
  {
    var total, top := SumInt(values), LargestValue(values);
    IntegerCross(top, total, rawLimit);
    var k :| 0 <= k < |values| && values[k] == top;
    hide SumInt, LargestValue, Limit, Over;
    forall i | 0 <= i < |values| && Over(top as real, total as real) <= Limit(rawLimit)
      ensures Over(values[i] as real, total as real) <= Limit(rawLimit)
    {
      assert values[i] in values;
      OverMonotone(values[i] as real, top as real, total as real);
    }
  }

  // ----- clipping, quantising and the gate together --------------------------

  lemma {:induction false} LargestIs(v: seq<int>, top: int)
    requires v != [] && top in v && forall i :: 0 <= i < |v| ==> v[i] <= top
    ensures LargestValue(v) == top
  {
    var m := LargestValue(v);
    var k :| 0 <= k < |v| && v[k] == m;
  }

  /** For quantised shares the gate compares the rounded sum with a constant. */
  lemma QuantizedGateIff(shares: seq<real>, rawLimit: nat)
    requires ShareVector(shares)
    ensures Largest(shares) > 0.0
    ensures CapGate(Quantized(shares), rawLimit) <==> U16_MAX * U16_MAX <= rawLimit * SumInt(Quantized(shares))
  {
    LevelsBetween(shares);
    hide Levels, Largest;
    LargestIs(Quantized(shares), U16_MAX);
  }

  /** Shares that stay below the limit by the error bound pass the gate. */
  lemma MarginPassesGate(shares: seq<real>, rawLimit: nat)
    requires ShareVector(shares)
    requires forall i :: 0 <= i < |shares| ==>
               shares[i] <= Limit(rawLimit) - Over(|shares| as real + 1.0, 131070.0)
    ensures Largest(shares) > 0.0 && CapGate(Quantized(shares), rawLimit)
  {
    QuantizationBound(shares);
    var q := Quantized(shares);
    NonNegativeInts(q);
    hide Largest, Limit, ShareVector, Quantized, Over;
    forall i | 0 <= i < |q| ensures Over(q[i] as real, SumInt(q) as real) <= Limit(rawLimit) {
      ReadbackIs(shares, i);
      assert Readback(shares, i) == Over(q[i] as real, SumInt(q) as real);
    }
    CapGateIff(q, rawLimit);
  }

  const EXACT: seq<real> := [21846.0, 21846.0, 21843.0]

  lemma ExactShares()
    ensures AllNonNegative(EXACT) && Sum(EXACT) == 65535.0
    ensures var top := Limit(21846);
            Shares(EXACT, 65535.0) == [top, top, Over(21843.0, 65535.0)]
            && Largest(Shares(EXACT, 65535.0)) == top > 0.0 && Over(21843.0, 65535.0) < top
  {
    assert EXACT[1..] == [21846.0, 21843.0] && EXACT[1..][1..] == [21843.0] && EXACT[1..][1..][1..] == [];
    assert Sum([21843.0]) == 21843.0 + Sum([]);
    var shares := Shares(EXACT, 65535.0);
    assert |shares| == 3 && shares[0] == Limit(21846) && shares[1] == Limit(21846);
    assert shares[2] == Over(21843.0, 65535.0);
    QuotientSign(21846.0, 65535.0);
    QuotientBelow(21843.0, 65535.0, Limit(21846));
    TimesFlip(Limit(21846), 65535.0);
    OverTimes(21846.0, 65535.0);
    var k :| 0 <= k < |shares| && shares[k] == Largest(shares);
  }

  lemma ExactLevel()
    ensures Limit(21846) != 0.0 && Level(Over(21843.0, 65535.0), Limit(21846)) == 65526
  {
    var a, t := Over(21843.0, 65535.0), Limit(21846);
    OverTimes(21843.0, 65535.0);
    OverTimes(21846.0, 65535.0);
    assert a * 65535.0 == 21843.0 && t * 65535.0 == 21846.0;
    var r := Over(a, t);
    OverTimes(a, t);
    assert r * t == a;
    assert r * 21846.0 == 21843.0 by { assert r * (t * 65535.0) == (r * t) * 65535.0; }
    var x := Times(r, U16_MAX as real);
    assert x == r * 65535.0;
    assert x * 21846.0 == 21843.0 * 65535.0;
    assert 65526.0 <= x < 65526.4;
    assert x.Floor == 65526;
  }

  /** A vector that meets its limit exactly and is not clipped, but whose submitted values
      the gate refuses: rounding the third weight down lifts the others above the limit. */
  lemma LimitMetGateFails()
    ensures var r := ClipToMaxWeight(EXACT, 21846);
            && r.Conformed? && !r.clipped && WithinLimit(r.shares, Limit(21846))
            && ShareVector(r.shares) && Largest(r.shares) > 0.0
            && Quantized(r.shares) == [65535, 65535, 65526]
            && !CapGate(Quantized(r.shares), 21846)
  {
    ExactShares();
    ExactClip();
    ClippingDistributes(EXACT, 21846);
    ExactLevels();
    hide ClipToMaxWeight, Shares, Largest, Quantized, Sum, LargestValue, SumInt;
    SumOfThree(65535, 65535, 65526);
    QuantizedGateIff(Shares(EXACT, 65535.0), 21846);
  }

  lemma ExactClip()
    ensures ClipToMaxWeight(EXACT, 21846) == Conformed(Shares(EXACT, 65535.0), false)
  {
    ExactShares();
    hide Shares, Limit, Largest, Sum, ClipAbove;
  }

  lemma ExactLevels()
    ensures Largest(Shares(EXACT, 65535.0)) > 0.0
    ensures Quantized(Shares(EXACT, 65535.0)) == [65535, 65535, 65526]
  {
    ExactShares();
    ExactLevel();
    LevelEnds(Limit(21846));
    hide Shares, Limit, Largest, Level, Sum, Levels;
    ThreeLevels(Limit(21846), Limit(21846), Over(21843.0, 65535.0), Limit(21846));
  }

  lemma ThreeLevels(x: real, y: real, z: real, top: real)
    requires top != 0.0
    ensures Levels([x, y, z], top) == [Level(x, top), Level(y, top), Level(z, top)]
  {
    hide Level;
    var r := Levels([x, y, z], top);
    assert |r| == 3 && r[0] == Level(x, top) && r[1] == Level(y, top) && r[2] == Level(z, top);
  }

  lemma SumOfThree(a: int, b: int, c: int)
    ensures SumInt([a, b, c]) == a + b + c
  {
    assert [a, b, c][1..] == [b, c] && [b, c][1..] == [c] && [c][1..] == [];
    assert SumInt([c]) == c + SumInt([]);
  }
}
