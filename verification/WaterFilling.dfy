/** `_capped_normalize` (planrace/scoring_v2.py:743-775): shares proportional to the
    raw masses, cut at a concentration cap, the excess redistributed. The loop is a
    water-filling: one level multiplies every mass that stays under the cap. */
module WaterFilling {
  import opened Statistics
  import opened MapTotals

  /** The literals of the source. */
  const CAP_TOLERANCE: real := 0.000000000000001   // 1e-15
  const SHORTFALL: real := 0.000000000001          // 1e-12

  function Proposed(mass: real, value: real, total: real): real
    requires total != 0.0
  {
    Over(Times(mass, value), total)
  }

  /** Keys whose proportional share exceeds the cap by more than the tolerance. */
  function Capped(raw: Masses, left: set<string>, mass: real, total: real, cap: real, tol: real): set<string>
    requires left <= raw.Keys && total != 0.0
  {
    set k | k in left && Proposed(mass, raw[k], total) > cap + tol
  }

  lemma SmallerRemainder(left: set<string>, capped: set<string>)
    requires capped <= left && capped != {}
    ensures |left - capped| == |left| - |capped| < |left|
  {
  }

  /** What `k` receives when `mass` is still to be spread over the keys `left`:
      the loop as a recursion. */
  ghost function Share(raw: Masses, left: set<string>, mass: real, cap: real, tol: real, k: string): real
    requires k in left && left <= raw.Keys
    decreases |left|
  {
    var total := SumOver(raw, left);
    if total <= 0.0 then Over(mass, |left| as real)
    else
      var capped := Capped(raw, left, mass, total, cap, tol);
      if capped == {} then Proposed(mass, raw[k], total)
      else if k in capped then cap
      else
        SmallerRemainder(left, capped);
        Share(raw, left - capped, mass - Times(|capped| as real, cap), cap, tol, k)
  }

  ghost function Fill(raw: Masses, left: set<string>, mass: real, cap: real, tol: real): (w: Masses)
    requires left <= raw.Keys
    ensures w.Keys == left
  {
    map k | k in left :: Share(raw, left, mass, cap, tol, k)
  }

  /** The multiplier that the last round of the loop applies. */
  ghost function Level(raw: Masses, left: set<string>, mass: real, cap: real, tol: real): real
    requires left <= raw.Keys
    decreases |left|
  {
    var total := SumOver(raw, left);
    if total <= 0.0 then 0.0
    else
      var capped := Capped(raw, left, mass, total, cap, tol);
      if capped == {} || capped == left then Over(mass, total)
      else
        SmallerRemainder(left, capped);
        Level(raw, left - capped, mass - Times(|capped| as real, cap), cap, tol)
  }

  // ----- one round -----------------------------------------------------------

  lemma ProposedAsLevel(mass: real, value: real, total: real)
    requires total > 0.0
    ensures Proposed(mass, value, total) == Times(Over(mass, total), value)
  {
  }

  ghost function Shares(raw: Masses, left: set<string>, mass: real, total: real): (w: Masses)
    requires left <= raw.Keys && total != 0.0
    ensures w.Keys == left
  {
    map k | k in left :: Proposed(mass, raw[k], total)
  }

  lemma SharesTotal(raw: Masses, left: set<string>, s: set<string>, mass: real, total: real)
    requires s <= left <= raw.Keys && total > 0.0
    ensures SumOver(Shares(raw, left, mass, total), s) == Times(Over(mass, total), SumOver(raw, s))
  {
    var level, w := Over(mass, total), Shares(raw, left, mass, total);
    forall k | k in s ensures w[k] == Times(level, raw[k]) {
      ProposedAsLevel(mass, raw[k], total);
    }
    SumScaled(raw, w, s, level);
  }

  /** Capping takes no more than what the capped keys had been offered. */
  lemma CappedMass(raw: Masses, left: set<string>, mass: real, cap: real, tol: real)
    requires left <= raw.Keys && SumOver(raw, left) > 0.0 && tol >= 0.0
    ensures var total := SumOver(raw, left);
            var capped := Capped(raw, left, mass, total, cap, tol);
            && Times(|capped| as real, cap + tol) <= Times(Over(mass, total), SumOver(raw, capped))
            && (capped == left != {} ==> Times(|left| as real, cap + tol) < mass)
  {
    var total := SumOver(raw, left);
    var capped := Capped(raw, left, mass, total, cap, tol);
    var offered := Shares(raw, left, mass, total);
    var fixed := map k | k in capped :: cap + tol;
    SharesTotal(raw, left, capped, mass, total);
    SumConstant(fixed, capped, cap + tol);
    SumMonotone(fixed, offered, capped, 0.0);
    if capped == left && left != {} {
      SumStrict(fixed, offered, capped);
      OverTimes(mass, total);
    }
  }

  lemma TimesMonotone(n: real, a: real, b: real)
    requires n >= 0.0 && a <= b
    ensures Times(n, a) <= Times(n, b)
  {
    assert n * (b - a) >= 0.0;
  }

  /** Moving the capped keys out leaves a non-negative mass and a level that is no lower. */
  lemma NextRound(mass: real, total: real, taken: real, held: real, rest: real)
    requires total > 0.0 && rest >= 0.0 && total == held + rest && mass >= 0.0
    requires taken <= Times(Over(mass, total), held)
    ensures mass - taken >= 0.0
    ensures rest > 0.0 ==> Over(mass - taken, rest) >= Over(mass, total)
    ensures rest > 0.0 && mass > 0.0 ==> mass - taken > 0.0
  {
    var level := Over(mass, total);
    OverTimes(mass, total);
    TimesSum(level, held, rest);
    assert level >= 0.0;
    assert Times(level, rest) >= 0.0;
    if rest > 0.0 {
      TimesOver(level, rest);
      OverMonotone(Times(level, rest), mass - taken, rest);
    }
    if rest > 0.0 && mass > 0.0 {
      assert level > 0.0;
      assert Times(level, rest) > 0.0;
    }
  }

  /** The keys that stay under the cap get exactly what the next round gives them. */
  lemma FillStep(raw: Masses, left: set<string>, mass: real, cap: real, tol: real)
    requires left <= raw.Keys && SumOver(raw, left) > 0.0
    requires Capped(raw, left, mass, SumOver(raw, left), cap, tol) != {}
    ensures var capped := Capped(raw, left, mass, SumOver(raw, left), cap, tol);
            var rest := left - capped;
            var spare := mass - Times(|capped| as real, cap);
            var w := Fill(raw, left, mass, cap, tol);
            && (forall k :: k in capped ==> w[k] == cap)
            && (forall k :: k in rest ==> w[k] == Fill(raw, rest, spare, cap, tol)[k])
            && SumOver(w, left)
               == Times(|capped| as real, cap) + SumOver(Fill(raw, rest, spare, cap, tol), rest)
            && |rest| == |left| - |capped| < |left|
  {
    var capped := Capped(raw, left, mass, SumOver(raw, left), cap, tol);
    var rest, spare := left - capped, mass - Times(|capped| as real, cap);
    var w, next := Fill(raw, left, mass, cap, tol), Fill(raw, rest, spare, cap, tol);
    SmallerRemainder(left, capped);
    SumSplit(w, left, capped);
    SumConstant(w, capped, cap);
    SumCongruent(w, next, rest);
  }

  // ----- the whole loop ------------------------------------------------------

  ghost predicate NonNegative(raw: Masses) {
    forall k :: k in raw ==> raw[k] >= 0.0
  }

  ghost predicate Positive(raw: Masses) {
    forall k :: k in raw ==> raw[k] > 0.0
  }

  /** How much of the mass the caps of the keys `left` cannot hold. */
  function Excess(n: nat, mass: real, cap: real): real {
    mass - Times(n as real, cap)
  }

  lemma ExcessKept(n: nat, c: nat, mass: real, cap: real)
    requires c <= n
    ensures Excess(n - c, mass - Times(c as real, cap), cap) == Excess(n, mass, cap)
  {
    assert (n - c) as real == n as real - c as real;
  }

  lemma EqualSplit(n: nat, mass: real, cap: real)
    requires n > 0
    ensures Over(mass, n as real) <= cap + MaxReal(0.0, Excess(n, mass, cap))
  {
    var x, r := Over(mass, n as real), n as real;
    OverTimes(mass, r);
    assert Times(r, cap) + Excess(n, mass, cap) == Times(x, r);
    if x > cap {
      assert Times(x, r) - Times(r, cap) == Times(r, x - cap);
      TimesAtLeast(n, x - cap);
    }
  }

  /** The mass is spent completely, except when every key sits at a cap that is too
      small for it; no key exceeds the cap by more than the tolerance or the excess. */
  ghost predicate Conserving(w: Masses, left: set<string>, mass: real, cap: real, tol: real)
    requires left <= w.Keys
  {
    var excess := Excess(|left|, mass, cap);
    && (forall k :: k in left ==> 0.0 <= w[k] <= cap + MaxReal(tol, MaxReal(0.0, excess)))
    && (SumOver(w, left) == mass || (excess > tol && forall k :: k in left ==> w[k] == cap))
  }

  lemma {:induction false} FillConserves(raw: Masses, left: set<string>, mass: real, cap: real, tol: real)
    requires left <= raw.Keys && left != {} && NonNegative(raw)
    requires mass >= 0.0 && cap > 0.0 && tol >= 0.0
    ensures Conserving(Fill(raw, left, mass, cap, tol), left, mass, cap, tol)
    decreases |left|
  {
    var total := SumOver(raw, left);
    if total <= 0.0 {
      EqualRound(raw, left, mass, cap, tol);
    } else {
      hide Conserving, Fill, SumOver, Proposed;
      var capped := Capped(raw, left, mass, total, cap, tol);
      if capped == {} {
        UncappedRound(raw, left, mass, cap, tol);
      } else {
        CappedRound(raw, left, mass, cap, tol);
        var rest, spare := left - capped, mass - Times(|capped| as real, cap);
        if rest != {} {
          FillConserves(raw, rest, spare, cap, tol);
        }
        CappedConserves(raw, left, mass, cap, tol);
      }
    }
  }

  lemma EqualRound(raw: Masses, left: set<string>, mass: real, cap: real, tol: real)
    requires left <= raw.Keys && left != {} && SumOver(raw, left) <= 0.0
    requires mass >= 0.0 && cap > 0.0 && tol >= 0.0
    ensures Conserving(Fill(raw, left, mass, cap, tol), left, mass, cap, tol)
  {
    var w, n := Fill(raw, left, mass, cap, tol), |left| as real;
    SumConstant(w, left, Over(mass, n));
    OverTimes(mass, n);
    TimesFlip(n, Over(mass, n));
    hide Times, Over, SumOver;
    EqualSplit(|left|, mass, cap);
  }

  lemma CappedConserves(raw: Masses, left: set<string>, mass: real, cap: real, tol: real)
    requires left <= raw.Keys && NonNegative(raw) && mass >= 0.0 && cap > 0.0 && tol >= 0.0
    requires SumOver(raw, left) > 0.0
    requires Capped(raw, left, mass, SumOver(raw, left), cap, tol) != {}
    requires var capped := Capped(raw, left, mass, SumOver(raw, left), cap, tol);
             var rest, spare := left - capped, mass - Times(|capped| as real, cap);
             rest == {} || Conserving(Fill(raw, rest, spare, cap, tol), rest, spare, cap, tol)
    ensures Conserving(Fill(raw, left, mass, cap, tol), left, mass, cap, tol)
  {
    hide Share, Excess, Times, Proposed, SumOver, Over;
    CappedRound(raw, left, mass, cap, tol);
  }

  lemma UncappedRound(raw: Masses, left: set<string>, mass: real, cap: real, tol: real)
    requires left <= raw.Keys && NonNegative(raw) && mass >= 0.0
    requires SumOver(raw, left) > 0.0
    requires Capped(raw, left, mass, SumOver(raw, left), cap, tol) == {}
    ensures SumOver(Fill(raw, left, mass, cap, tol), left) == mass
    ensures forall k :: k in left ==> 0.0 <= Fill(raw, left, mass, cap, tol)[k] <= cap + tol
    ensures Conserving(Fill(raw, left, mass, cap, tol), left, mass, cap, tol)
  {
    var total := SumOver(raw, left);
    var w := Fill(raw, left, mass, cap, tol);
    SharesTotal(raw, left, left, mass, total);
    OverTimes(mass, total);
    SumCongruent(w, Shares(raw, left, mass, total), left);
    forall k | k in left ensures 0.0 <= w[k] <= cap + tol {
      ProposedAsLevel(mass, raw[k], total);
      assert k !in Capped(raw, left, mass, total, cap, tol);
      assert Over(mass, total) >= 0.0;
    }
  }

  /** A round that caps some keys hands a consistent remainder to the next one. */
  lemma CappedRound(raw: Masses, left: set<string>, mass: real, cap: real, tol: real)
    requires left <= raw.Keys && NonNegative(raw) && mass >= 0.0 && cap > 0.0 && tol >= 0.0
    requires SumOver(raw, left) > 0.0
    requires Capped(raw, left, mass, SumOver(raw, left), cap, tol) != {}
    ensures var total := SumOver(raw, left);
            var capped := Capped(raw, left, mass, total, cap, tol);
            var rest, spare := left - capped, mass - Times(|capped| as real, cap);
            var w, next := Fill(raw, left, mass, cap, tol), Fill(raw, rest, spare, cap, tol);
            && spare >= 0.0 && |rest| < |left|
            && Excess(|rest|, spare, cap) == Excess(|left|, mass, cap)
            && (rest == {} ==> Excess(|left|, mass, cap) > tol)
            && (forall k :: k in capped ==> w[k] == cap)
            && (forall k :: k in rest ==> w[k] == next[k])
            && SumOver(w, left) == mass - spare + SumOver(next, rest)
            && (SumOver(raw, rest) > 0.0 ==> Over(spare, SumOver(raw, rest)) >= Over(mass, total))
            && (SumOver(raw, rest) > 0.0 && mass > 0.0 ==> spare > 0.0)
  {
    hide Share, Fill, Proposed, SumOver, Over, Times;
    FillStep(raw, left, mass, cap, tol);
    CappedBooks(raw, left, mass, cap, tol);
  }

  /** The arithmetic of such a round. */
  lemma CappedBooks(raw: Masses, left: set<string>, mass: real, cap: real, tol: real)
    requires left <= raw.Keys && NonNegative(raw) && mass >= 0.0 && cap > 0.0 && tol >= 0.0
    requires SumOver(raw, left) > 0.0
    requires Capped(raw, left, mass, SumOver(raw, left), cap, tol) != {}
    ensures var total := SumOver(raw, left);
            var capped := Capped(raw, left, mass, total, cap, tol);
            var rest, spare := left - capped, mass - Times(|capped| as real, cap);
            && spare >= 0.0
            && Excess(|rest|, spare, cap) == Excess(|left|, mass, cap)
            && (rest == {} ==> Excess(|left|, mass, cap) > tol)
            && (SumOver(raw, rest) > 0.0 ==> Over(spare, SumOver(raw, rest)) >= Over(mass, total))
            && (SumOver(raw, rest) > 0.0 && mass > 0.0 ==> spare > 0.0)
  {
    hide Proposed, SumOver, Over, Times;
    var total := SumOver(raw, left);
    var capped := Capped(raw, left, mass, total, cap, tol);
    var rest := left - capped;
    SmallerRemainder(left, capped);
    CappedMass(raw, left, mass, cap, tol);
    SumSplit(raw, left, capped);
    SumNonNegative(raw, rest);
    TimesMonotone(|capped| as real, cap, cap + tol);
    NextRound(mass, total, Times(|capped| as real, cap), SumOver(raw, capped), SumOver(raw, rest));
    ExcessKept(|left|, |capped|, mass, cap);
    if rest == {} {
      assert capped == left;
      TimesSum(|left| as real, cap, tol);
      TimesAtLeast(|left|, tol);
    }
  }

  lemma TimesAtLeast(n: nat, x: real)
    requires n >= 1 && x >= 0.0
    ensures Times(n as real, x) >= x
  {
    assert (n as real - 1.0) * x >= 0.0;
  }

  /** Every key is either at the cap, and the level would lift it above, or gets its
      mass times the level, which stays within `tol` of the cap. */
  ghost predicate WaterFilled(raw: Masses, w: Masses, left: set<string>, cap: real, tol: real, level: real)
    requires left <= raw.Keys && left <= w.Keys
  {
    forall k :: k in left ==>
      || (w[k] == cap && Times(level, raw[k]) > cap)
      || (w[k] == Times(level, raw[k]) && w[k] <= cap + tol)
  }

  lemma {:induction false} FillIsWaterFilling(raw: Masses, left: set<string>, mass: real, cap: real, tol: real)
    requires left <= raw.Keys && left != {} && Positive(raw)
    requires mass > 0.0 && cap > 0.0 && tol >= 0.0
    ensures SumOver(raw, left) > 0.0
    ensures WaterFilled(raw, Fill(raw, left, mass, cap, tol), left, cap, tol, Level(raw, left, mass, cap, tol))
    ensures Level(raw, left, mass, cap, tol) >= Over(mass, SumOver(raw, left)) > 0.0
    decreases |left|
  {
    PositiveSum(raw, left);
    var total := SumOver(raw, left);
    var capped := Capped(raw, left, mass, total, cap, tol);
    PositiveLevel(mass, total);
    if capped == {} || capped == left {
      LastRoundFilled(raw, left, mass, cap, tol);
    } else {
      CappedRound(raw, left, mass, cap, tol);
      var rest, spare := left - capped, mass - Times(|capped| as real, cap);
      assert rest != {};
      PositiveSum(raw, rest);
      FillIsWaterFilling(raw, rest, spare, cap, tol);
      hide Share, Fill, SumOver, Times, Over, Proposed;
      CappedFilled(raw, left, mass, cap, tol);
    }
  }

  lemma PositiveSum(raw: Masses, left: set<string>)
    requires left <= raw.Keys && left != {} && Positive(raw)
    ensures SumOver(raw, left) > 0.0
  {
    SumAtLeast(raw, left, Pick(left));
  }

  lemma PositiveLevel(mass: real, total: real)
    requires mass > 0.0 && total > 0.0
    ensures Over(mass, total) > 0.0
  {
  }

  lemma LastRoundFilled(raw: Masses, left: set<string>, mass: real, cap: real, tol: real)
    requires left <= raw.Keys && Positive(raw) && tol >= 0.0 && SumOver(raw, left) > 0.0
    requires var capped := Capped(raw, left, mass, SumOver(raw, left), cap, tol);
             capped == {} || capped == left
    ensures WaterFilled(raw, Fill(raw, left, mass, cap, tol), left, cap, tol, Over(mass, SumOver(raw, left)))
  {
    var total := SumOver(raw, left);
    var capped := Capped(raw, left, mass, total, cap, tol);
    hide SumOver, Times, Over, Proposed;
    forall k | k in left
      ensures var w, level := Fill(raw, left, mass, cap, tol), Over(mass, total);
              || (w[k] == cap && Times(level, raw[k]) > cap)
              || (w[k] == Times(level, raw[k]) && w[k] <= cap + tol)
    {
      ProposedAsLevel(mass, raw[k], total);
      assert k in capped <==> Proposed(mass, raw[k], total) > cap + tol;
    }
  }

  lemma TimesMonotoneLeft(a: real, b: real, x: real)
    requires a <= b && x >= 0.0
    ensures Times(a, x) <= Times(b, x)
  {
    assert (b - a) * x >= 0.0;
  }

  lemma CappedFilled(raw: Masses, left: set<string>, mass: real, cap: real, tol: real)
    requires left <= raw.Keys && Positive(raw) && mass > 0.0 && cap > 0.0 && tol >= 0.0
    requires SumOver(raw, left) > 0.0
    requires var capped := Capped(raw, left, mass, SumOver(raw, left), cap, tol);
             var rest, spare := left - capped, mass - Times(|capped| as real, cap);
             && capped != {} && rest != {}
             && WaterFilled(raw, Fill(raw, rest, spare, cap, tol), rest, cap, tol, Level(raw, rest, spare, cap, tol))
             && Level(raw, rest, spare, cap, tol) >= Over(mass, SumOver(raw, left))
    ensures WaterFilled(raw, Fill(raw, left, mass, cap, tol), left, cap, tol, Level(raw, left, mass, cap, tol))
  {
    var total := SumOver(raw, left);
    var capped := Capped(raw, left, mass, total, cap, tol);
    var rest, spare := left - capped, mass - Times(|capped| as real, cap);
    var level := Level(raw, rest, spare, cap, tol);
    SmallerRemainder(left, capped);
    assert Level(raw, left, mass, cap, tol) == level;
    CappedRound(raw, left, mass, cap, tol);
    var w := Fill(raw, left, mass, cap, tol);
    hide Share, Fill, SumOver, Times, Over, Proposed, Level;
    forall k | k in left
      ensures || (w[k] == cap && Times(level, raw[k]) > cap)
              || (w[k] == Times(level, raw[k]) && w[k] <= cap + tol)
    {
      if k in capped {
        ProposedAsLevel(mass, raw[k], total);
        TimesMonotoneLeft(Over(mass, total), level, raw[k]);
      }
    }
  }

  // ----- comparing two fillings ----------------------------------------------

  /** The capped proportional share, up to `tol` from above. Every water filling is
      near-filled; so is one whose last shortfall was put on a single key. */
  ghost predicate NearFilled(raw: Masses, w: Masses, cap: real, tol: real, level: real)
    requires w.Keys == raw.Keys
  {
    forall k :: k in raw ==>
      MinReal(cap, Times(level, raw[k])) <= w[k] <= MinReal(cap, Times(level, raw[k])) + tol
  }

  lemma WaterFilledIsNear(raw: Masses, w: Masses, cap: real, tol: real, level: real)
    requires w.Keys == raw.Keys && tol >= 0.0
    requires WaterFilled(raw, w, raw.Keys, cap, tol, level)
    ensures NearFilled(raw, w, cap, tol, level)
  {
    hide Times;
  }

  lemma LiftedKey(a: real, wa: real, b: real, wb: real, cap: real, tol: real)
    requires a <= b && tol >= 0.0
    requires wa <= MinReal(cap, a) + tol && MinReal(cap, b) <= wb
    ensures wa <= wb + tol
  {
  }

  /** Lowering one mass and keeping the others never raises that key's weight and
      never lowers another one's, up to the tolerance times the number of keys. */
  lemma LoweredMass(
      raw: Masses, w: Masses, level: real, raw': Masses, w': Masses, level': real,
      d: string, cap: real, tol: real)
    requires raw.Keys == raw'.Keys == w.Keys == w'.Keys && d in raw
    requires Positive(raw) && Positive(raw') && level > 0.0 && level' > 0.0 && tol >= 0.0
    requires raw'[d] <= raw[d] && forall k :: k in raw && k != d ==> raw'[k] == raw[k]
    requires NearFilled(raw, w, cap, tol, level)
    requires NearFilled(raw', w', cap, tol, level')
    requires Total(w) == Total(w')
    ensures w'[d] <= w[d] + Times(|raw| as real, tol)
    ensures forall k :: k in raw && k != d ==> w[k] <= w'[k] + Times(|raw| as real, tol)
  {
    hide Times, SumOver;
    var keys := raw.Keys;
    if level' >= level {
      forall k | k in keys - {d} ensures w[k] <= w'[k] + tol {
        TimesMonotoneLeft(level, level', raw[k]);
        LiftedKey(Times(level, raw[k]), w[k], Times(level', raw'[k]), w'[k], cap, tol);
      }
      OthersRise(w, w', d, tol);
    } else {
      forall k | k in keys ensures w'[k] <= w[k] + tol {
        LoweredTerm(level', level, raw'[k], raw[k]);
        LiftedKey(Times(level', raw'[k]), w'[k], Times(level, raw[k]), w[k], cap, tol);
      }
      AllSink(w, w', tol);
    }
  }

  lemma OthersRise(w: Masses, w': Masses, d: string, tol: real)
    requires w.Keys == w'.Keys && d in w && tol >= 0.0 && Total(w) == Total(w')
    requires forall k :: k in w.Keys - {d} ==> w[k] <= w'[k] + tol
    ensures w'[d] <= w[d] + Times(|w| as real, tol)
    ensures forall k :: k in w && k != d ==> w[k] <= w'[k] + Times(|w| as real, tol)
  {
    SumMonotone(w, w', w.Keys - {d}, tol);
    SumRemove(w, w.Keys, d);
    SumRemove(w', w.Keys, d);
    CountSlack(|w.Keys|, tol);
    TimesAtLeast(|w.Keys|, tol);
  }

  lemma AllSink(w: Masses, w': Masses, tol: real)
    requires w.Keys == w'.Keys && |w| > 0 && tol >= 0.0 && Total(w) == Total(w')
    requires forall k :: k in w ==> w'[k] <= w[k] + tol
    ensures forall k :: k in w ==> w'[k] <= w[k] + Times(|w| as real, tol)
    ensures forall k :: k in w ==> w[k] <= w'[k] + Times(|w| as real, tol)
  {
    CountSlack(|w.Keys|, tol);
    TimesAtLeast(|w.Keys|, tol);
    forall k | k in w ensures w[k] <= w'[k] + Times(|w| as real, tol) {
      SumMonotone(w', w, w.Keys - {k}, tol);
      SumRemove(w, w.Keys, k);
      SumRemove(w', w.Keys, k);
    }
  }

  lemma CountSlack(n: nat, tol: real)
    requires n > 0 && tol >= 0.0
    ensures Times((n - 1) as real, tol) <= Times(n as real, tol)
  {
    ScaleByCount(n, tol);
  }

  lemma LoweredTerm(a: real, b: real, x: real, y: real)
    requires 0.0 < a <= b && 0.0 < x <= y
    ensures Times(a, x) <= Times(b, y)
  {
    TimesMonotoneLeft(a, b, x);
    TimesMonotone(b, x, y);
  }

  /** A heavier mass never receives less, up to the tolerance. */
  lemma WaterFillingKeepsOrder(raw: Masses, w: Masses, cap: real, tol: real, level: real, i: string, j: string)
    requires w.Keys == raw.Keys && level > 0.0 && tol >= 0.0
    requires NearFilled(raw, w, cap, tol, level)
    requires i in raw && j in raw && raw[i] <= raw[j]
    ensures w[i] <= w[j] + tol
  {
    TimesMonotone(level, raw[i], raw[j]);
    LiftedKey(Times(level, raw[i]), w[i], Times(level, raw[j]), w[j], cap, tol);
  }

  // ----- scale ---------------------------------------------------------------

  lemma ProposedScale(c: real, mass: real, value: real, total: real)
    requires c > 0.0 && total > 0.0
    ensures Times(c, total) > 0.0
    ensures Proposed(mass, Times(c, value), Times(c, total)) == Proposed(mass, value, total)
  {
    var p := Proposed(mass, value, total);
    OverTimes(Times(mass, value), total);
    assert Times(p, total) == Times(mass, value);
    assert Times(p, Times(c, total)) == Times(mass, Times(c, value));
    TimesOver(p, Times(c, total));
  }

  /** Only proportions matter: a common factor in the masses changes no share. */
  lemma {:induction false} ShareScale(
      c: real, raw: Masses, raw': Masses, left: set<string>, mass: real, cap: real, tol: real, k: string)
    requires c > 0.0 && raw.Keys == raw'.Keys && k in left && left <= raw.Keys
    requires forall j :: j in raw ==> raw'[j] == Times(c, raw[j])
    ensures Share(raw', left, mass, cap, tol, k) == Share(raw, left, mass, cap, tol, k)
    decreases |left|
  {
    var total := SumOver(raw, left);
    SumScaled(raw, raw', left, c);
    TimesSign(c, total);
    if total > 0.0 {
      var capped := Capped(raw, left, mass, total, cap, tol);
      forall j | j in left ensures Proposed(mass, raw'[j], Times(c, total)) == Proposed(mass, raw[j], total) {
        ProposedScale(c, mass, raw[j], total);
      }
      hide Proposed, Times, SumOver;
      assert Capped(raw', left, mass, Times(c, total), cap, tol) == capped;
      if capped != {} && k !in capped {
        SmallerRemainder(left, capped);
        ShareScale(c, raw, raw', left - capped, mass - Times(|capped| as real, cap), cap, tol, k);
      }
    }
  }

  lemma TimesSign(c: real, x: real)
    requires c > 0.0
    ensures Times(c, x) > 0.0 <==> x > 0.0
  {
    OrderScale(c, x, 0.0);
    assert Times(c, 0.0) == 0.0;
  }

  // ----- equal masses --------------------------------------------------------

  /** Keys of equal mass receive exactly the same, masses of zero included. */
  lemma {:induction false} EqualMassesEqualShares(
      raw: Masses, left: set<string>, mass: real, cap: real, tol: real, a: string, b: string)
    requires left <= raw.Keys && a in left && b in left && raw[a] == raw[b]
    ensures Share(raw, left, mass, cap, tol, a) == Share(raw, left, mass, cap, tol, b)
    decreases |left|
  {
    var total := SumOver(raw, left);
    hide SumOver, Proposed;
    if total > 0.0 {
      var capped := Capped(raw, left, mass, total, cap, tol);
      if capped != {} && a !in capped {
        SmallerRemainder(left, capped);
        EqualMassesEqualShares(raw, left - capped, mass - Times(|capped| as real, cap), cap, tol, a, b);
      }
    }
  }
}
