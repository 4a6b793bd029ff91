/** What `_clip_to_max_weight` returns (planrace/testnet_weights.py:228-262), with neither
    sorting nor prefix sums: the shares themselves, equal shares, or the shares capped at a
    cutoff that is determined by the shares below it. */
module ClippingMeaning {
  import opened Statistics
  import opened Clipping
  import opened ClippingLaws

  /** A share is below the cutoff when it is less than the limit's part of the sum of all
      shares capped at it, plus 1e-7. */
  ghost predicate StaysBelow(shares: seq<real>, limit: real, x: real) {
    x < limit * (Sum(CapAt(shares, x)) + 0.0000001)
  }

  /** The sum of those of `some` that are below the cutoff. */
  ghost function SumBelow(shares: seq<real>, limit: real, some: seq<real>): real {
    if some == [] then 0.0
    else (if StaysBelow(shares, limit, some[0]) then some[0] else 0.0) + SumBelow(shares, limit, some[1..])
  }

  /** How many of `some` are not below the cutoff. */
  ghost function CountNotBelow(shares: seq<real>, limit: real, some: seq<real>): nat {
    if some == [] then 0
    else (if StaysBelow(shares, limit, some[0]) then 0 else 1) + CountNotBelow(shares, limit, some[1..])
  }

  // ----- independence of order -----------------------------------------------

  lemma TestIgnoresOrder(v: seq<real>, limit: real, x: real)
    ensures StaysBelow(Sort(v), limit, x) <==> StaysBelow(v, limit, x)
  {
    CapSort(v, x);
  }

  lemma {:induction false} BelowInsert(s: seq<real>, limit: real, x: real, some: seq<real>)
    ensures SumBelow(s, limit, Insert(x, some))
         == (if StaysBelow(s, limit, x) then x else 0.0) + SumBelow(s, limit, some)
    ensures CountNotBelow(s, limit, Insert(x, some))
         == (if StaysBelow(s, limit, x) then 0 else 1) + CountNotBelow(s, limit, some)
  {
    hide StaysBelow;
    if some == [] || x <= some[0] {
      assert ([x] + some)[1..] == some;
    } else {
      BelowInsert(s, limit, x, some[1..]);
      assert ([some[0]] + Insert(x, some[1..]))[1..] == Insert(x, some[1..]);
    }
  }

  lemma {:induction false} BelowSort(v: seq<real>, limit: real, some: seq<real>)
    ensures SumBelow(Sort(v), limit, Sort(some)) == SumBelow(v, limit, some)
    ensures CountNotBelow(Sort(v), limit, Sort(some)) == CountNotBelow(v, limit, some)
  {
    hide StaysBelow;
    if some != [] {
      BelowSort(v, limit, some[1..]);
      BelowInsert(Sort(v), limit, some[0], Sort(some[1..]));
      TestIgnoresOrder(v, limit, some[0]);
    }
  }

  lemma {:induction false} BelowPrefix(s: seq<real>, limit: real, some: seq<real>, b: nat)
    requires b <= |some|
    requires forall j :: 0 <= j < |some| ==> (StaysBelow(s, limit, some[j]) <==> j < b)
    ensures SumBelow(s, limit, some) == Sum(some[..b])
    ensures CountNotBelow(s, limit, some) == |some| - b
  {
    hide StaysBelow;
    if some != [] {
      var rest := some[1..];
      assert forall j :: 0 <= j < |rest| ==> rest[j] == some[j + 1];
      if b > 0 {
        BelowPrefix(s, limit, rest, b - 1);
        assert some[..b][1..] == rest[..b - 1];
      } else {
        BelowPrefix(s, limit, rest, 0);
        assert some[..0] == [] && rest[..0] == [];
      }
    }
  }

  // ----- the cutoff ----------------------------------------------------------

  /** `k` is the cutoff: what the shares above it would hold at the cutoff, and the shares
      below it, leave it the limit's part of the whole, less 1e-7. */
  ghost predicate IsCutoff(shares: seq<real>, limit: real, k: real) {
    && limit * CountNotBelow(shares, limit, shares) as real < 1.0
    && k == limit * (SumBelow(shares, limit, shares) + CountNotBelow(shares, limit, shares) as real * k) - 0.0000001
  }

  lemma TestIs(s: seq<real>, limit: real, i: nat)
    requires Sorted(s) && AllNonNegative(s) && i < |s|
    ensures Denominator(s, i) != 0.0
    ensures StaysBelow(s, limit, s[i]) <==> Passes(s, limit, i)
  {
    PassesIff(s, limit, i);
    assert Times(limit, Sum(CapAt(s, s[i])) + EPSILON) == limit * (Sum(CapAt(s, s[i])) + 0.0000001);
  }

  lemma CutoffFromPassing(weights: seq<real>, rawLimit: nat)
    requires Searching(weights, rawLimit)
    ensures var shares := Shares(weights, Sum(weights));
            IsCutoff(shares, Limit(rawLimit), Cutoff(weights, rawLimit))
  {
    hide *;
    SearchingMeans(weights, rawLimit);
    var shares, limit := Shares(weights, Sum(weights)), Limit(rawLimit);
    var s, b, k := Ordered(weights), PassingCount(weights, rawLimit), Cutoff(weights, rawLimit);
    CutoffIs(weights, rawLimit);
    OrderedShape(weights);
    PassingAre(weights, rawLimit);
    BelowPrefix(s, limit, s, b);
    BelowSort(shares, limit, shares);
    SolveCutoff(k, limit, Prefix(s, b), (|s| - b) as real);
    PrefixIs(s, b);
    CutoffSolves(shares, limit, k, Prefix(s, b), |s| - b);
  }

  lemma PrefixIs(s: seq<real>, b: nat)
    requires b <= |s|
    ensures Prefix(s, b) == Sum(s[..b])
  {
  }

  lemma CutoffSolves(shares: seq<real>, limit: real, k: real, kept: real, above: nat)
    requires SumBelow(shares, limit, shares) == kept && CountNotBelow(shares, limit, shares) == above
    requires 1.0 - Times(limit, above as real) > 0.0
    requires k == Times(limit, kept + Times(above as real, k)) - EPSILON
    ensures IsCutoff(shares, limit, k)
  {
    var n := CountNotBelow(shares, limit, shares) as real;
    assert limit * n < 1.0 by { assert Times(limit, n) == limit * n; }
    assert k == limit * (kept + n * k) - 0.0000001;
    hide SumBelow, CountNotBelow;
  }

  lemma PassingAre(weights: seq<real>, rawLimit: nat)
    requires Searching(weights, rawLimit)
    ensures var s, limit := Ordered(weights), Limit(rawLimit);
            forall j :: 0 <= j < |s| ==> (StaysBelow(s, limit, s[j]) <==> j < PassingCount(weights, rawLimit))
  {
    var s, limit := Ordered(weights), Limit(rawLimit);
    OrderedShape(weights);
    CutoffFound(weights, rawLimit);
    hide Passes, StaysBelow, Ordered, PassingCount, CutoffScale, Times, Limit, Searching;
    forall j | 0 <= j < |s| ensures StaysBelow(s, limit, s[j]) <==> Passes(s, limit, j) {
      TestIs(s, limit, j);
    }
  }

  // ----- the result ----------------------------------------------------------

  /** The weights over their total. */
  ghost predicate SharesOf(weights: seq<real>, v: seq<real>) {
    |v| == |weights| && forall i :: 0 <= i < |v| ==> Sum(weights) != 0.0 && v[i] == weights[i] / Sum(weights)
  }

  lemma SharesAre(weights: seq<real>, v: seq<real>)
    requires SharesOf(weights, v) && Sum(weights) != 0.0
    ensures v == Shares(weights, Sum(weights))
  {
  }

  /** Some share exceeds the limit. */
  ghost predicate SomeAbove(shares: seq<real>, limit: real) {
    exists i :: 0 <= i < |shares| && shares[i] > limit
  }

  lemma SomeAboveIff(shares: seq<real>, limit: real)
    requires shares != []
    ensures SomeAbove(shares, limit) <==> Largest(shares) > limit
  {
  }

  /** Every share capped at the cutoff, over what the capped shares sum to. */
  ghost predicate CappedShares(shares: seq<real>, k: real, r: seq<real>) {
    && |r| == |shares| && Sum(CapAt(shares, k)) != 0.0
    && forall i :: 0 <= i < |r| ==> r[i] == (if shares[i] <= k then shares[i] else k) / Sum(CapAt(shares, k))
  }

  /** The three regimes of a vector with a positive total and an admitted limit: the shares
      themselves while none exceeds the limit; equal shares when full caps cannot hold the
      whole; else the shares capped at the cutoff, unless nothing is left to divide by. */
  ghost predicate ClipsTo(shares: seq<real>, rawLimit: nat, r: Clip)
    requires shares != []
  {
    var limit, n := rawLimit as real / 65535.0, |shares|;
    if rawLimit == 65535 || !SomeAbove(shares, limit) then r == Conformed(shares, false)
    else if n as real * limit <= 1.0
      then r.Conformed? && r.clipped && |r.shares| == n && forall i :: 0 <= i < n ==> r.shares[i] == 1.0 / n as real
    else
      exists k :: IsCutoff(shares, limit, k)
        && if Sum(CapAt(shares, k)) == 0.0 then r == DivisionByZero
           else r.Conformed? && r.clipped && CappedShares(shares, k, r.shares)
  }

  lemma LimitIs(rawLimit: nat)
    ensures Limit(rawLimit) == rawLimit as real / 65535.0
  {
  }

  lemma SearchMeans(weights: seq<real>, rawLimit: nat)
    requires Searching(weights, rawLimit)
    ensures var shares, k, r := Shares(weights, Sum(weights)), Cutoff(weights, rawLimit),
                                ClipToMaxWeight(weights, rawLimit);
            if Sum(CapAt(shares, k)) == 0.0 then r == DivisionByZero
            else r.Conformed? && r.clipped && CappedShares(shares, k, r.shares)
  {
    var shares, k := Shares(weights, Sum(weights)), Cutoff(weights, rawLimit);
    ClippedShares(weights, rawLimit);
    SearchFlag(weights, rawLimit);
    CapSort(shares, k);
    assert Remaining(weights, rawLimit) == Sum(CapAt(shares, k));
    hide ClipToMaxWeight, Cutoff, Remaining, CapAt, Searching;
  }

  lemma EarlyRegimes(weights: seq<real>, rawLimit: nat)
    requires 0 < rawLimit <= 65535 && AllNonNegative(weights) && weights != [] && Sum(weights) > 0.0
    ensures var shares, limit, r := Shares(weights, Sum(weights)), Limit(rawLimit), ClipToMaxWeight(weights, rawLimit);
            if rawLimit == 65535 || Largest(shares) <= limit then r == Conformed(shares, false)
            else if Times(|weights| as real, limit) <= 1.0
              then r.Conformed? && r.clipped && |r.shares| == |weights|
                   && forall i :: 0 <= i < |weights| ==> r.shares[i] == Over(1.0, |weights| as real)
            else Searching(weights, rawLimit)
  {
    hide ClipAbove, Largest, Shares, Limit, Times, Over;
  }

  /** The outcome of clipping: which inputs are refused, and which regime answers the
      others. */
  lemma ClipMeans(weights: seq<real>, rawLimit: nat, shares: seq<real>)
    requires AllNonNegative(weights) && SharesOf(weights, shares)
    ensures var r := ClipToMaxWeight(weights, rawLimit);
            && (r == BadLimit <==> rawLimit == 0 || rawLimit > 65535)
            && (r == BadTotal <==> 0 < rawLimit <= 65535 && (weights == [] || Sum(weights) <= 0.0))
            && (0 < rawLimit <= 65535 && weights != [] && Sum(weights) > 0.0 ==> ClipsTo(shares, rawLimit, r))
  {
    Refusals(weights, rawLimit);
    if 0 < rawLimit <= 65535 && weights != [] && Sum(weights) > 0.0 {
      SharesAre(weights, shares);
      hide *;
      RegimeMeans(weights, rawLimit);
    }
  }

  lemma RegimeMeans(weights: seq<real>, rawLimit: nat)
    requires AllNonNegative(weights) && weights != [] && Sum(weights) > 0.0 && 0 < rawLimit <= 65535
    ensures Shares(weights, Sum(weights)) != []
    ensures ClipsTo(Shares(weights, Sum(weights)), rawLimit, ClipToMaxWeight(weights, rawLimit))
  {
    hide *;
    if Searching(weights, rawLimit) {
      SearchMeans(weights, rawLimit);
      CutoffFromPassing(weights, rawLimit);
      SearchRegime(weights, rawLimit);
      SearchClips(Shares(weights, Sum(weights)), rawLimit, Cutoff(weights, rawLimit),
                  ClipToMaxWeight(weights, rawLimit));
    } else {
      EarlyMeans(weights, rawLimit);
      EarlyClips(Shares(weights, Sum(weights)), rawLimit, ClipToMaxWeight(weights, rawLimit));
    }
  }

  lemma EarlyMeans(weights: seq<real>, rawLimit: nat)
    requires AllNonNegative(weights) && weights != [] && Sum(weights) > 0.0 && 0 < rawLimit <= 65535
    requires !Searching(weights, rawLimit)
    ensures var shares, limit, r := Shares(weights, Sum(weights)), rawLimit as real / 65535.0,
                                    ClipToMaxWeight(weights, rawLimit);
            && shares != []
            && if rawLimit == 65535 || !SomeAbove(shares, limit) then r == Conformed(shares, false)
               else Times(|shares| as real, limit) <= 1.0
                    && r.Conformed? && r.clipped && |r.shares| == |shares|
                    && forall i :: 0 <= i < |shares| ==> r.shares[i] == Over(1.0, |shares| as real)
  {
    var shares := Shares(weights, Sum(weights));
    assert |shares| == |weights|;
    hide *;
    LimitIs(rawLimit);
    SomeAboveIff(shares, Limit(rawLimit));
    EarlyRegimes(weights, rawLimit);
  }

  lemma SearchRegime(weights: seq<real>, rawLimit: nat)
    requires Searching(weights, rawLimit)
    ensures var shares, limit := Shares(weights, Sum(weights)), rawLimit as real / 65535.0;
            && rawLimit < 65535 && shares != [] && limit == Limit(rawLimit)
            && SomeAbove(shares, limit) && Times(|shares| as real, limit) > 1.0
  {
    hide Limit, Largest, SomeAbove, Times, Sum;
    LimitIs(rawLimit);
    SomeAboveIff(Shares(weights, Sum(weights)), Limit(rawLimit));
  }

  lemma SearchClips(shares: seq<real>, rawLimit: nat, k: real, r: Clip)
    requires shares != [] && rawLimit < 65535 && SomeAbove(shares, rawLimit as real / 65535.0)
    requires Times(|shares| as real, rawLimit as real / 65535.0) > 1.0
    requires IsCutoff(shares, rawLimit as real / 65535.0, k)
    requires if Sum(CapAt(shares, k)) == 0.0 then r == DivisionByZero
             else r.Conformed? && r.clipped && CappedShares(shares, k, r.shares)
    ensures ClipsTo(shares, rawLimit, r)
  {
    hide IsCutoff, CappedShares, SomeAbove, CapAt, Sum;
  }

  lemma EarlyClips(shares: seq<real>, rawLimit: nat, r: Clip)
    requires shares != []
    requires var limit := rawLimit as real / 65535.0;
             if rawLimit == 65535 || !SomeAbove(shares, limit) then r == Conformed(shares, false)
             else Times(|shares| as real, limit) <= 1.0
                  && r.Conformed? && r.clipped && |r.shares| == |shares|
                  && forall i :: 0 <= i < |shares| ==> r.shares[i] == Over(1.0, |shares| as real)
    ensures ClipsTo(shares, rawLimit, r)
  {
    hide SomeAbove;
  }

  lemma Refusals(weights: seq<real>, rawLimit: nat)
    ensures var r := ClipToMaxWeight(weights, rawLimit);
            && (r == BadLimit <==> rawLimit == 0 || rawLimit > 65535)
            && (r == BadTotal <==> 0 < rawLimit <= 65535 && (weights == [] || Sum(weights) <= 0.0))
  {
    hide ClipAbove, Largest, Shares, Limit, Times, Equal, Over, Sum;
    if 0 < rawLimit <= 65535 && weights != [] && Sum(weights) > 0.0 {
      AboveOutcome(weights, Sum(weights), Limit(rawLimit));
    }
  }

  lemma AboveOutcome(weights: seq<real>, total: real, limit: real)
    requires total != 0.0
    ensures ClipAbove(weights, total, limit).DivisionByZero? || ClipAbove(weights, total, limit).Conformed?
  {
    hide Shares, Times, CutoffScale, CountPassing;
  }
}
