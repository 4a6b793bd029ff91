/** The complete `_capped_normalize`: the recipient check, the loop, and the residue
    step, as the interpreter runs them and as a function of the masses. */
module CappedNormalization {
  import opened Statistics
  import opened MapTotals
  import opened WaterFilling
  import Text

  datatype Normalized = Weights(w: Masses) | TooFewRecipients

  // ----- the residue step ----------------------------------------------------

  /** The order `(weights[item], item)`. */
  predicate Before(w: Masses, a: string, b: string)
    requires a in w && b in w
  {
    w[a] < w[b] || (w[a] == w[b] && Text.LessEq(a, b))
  }

  ghost predicate IsLightest(w: Masses, s: set<string>, k: string)
    requires s <= w.Keys
  {
    k in s && forall j :: j in s ==> Before(w, k, j)
  }

  lemma {:induction false} LightestExists(w: Masses, s: set<string>)
    requires s <= w.Keys && s != {}
    ensures exists k :: IsLightest(w, s, k)
    decreases |s|
  {
    var j := Pick(s);
    Text.Reflexive(j);
    if s == {j} {
      assert IsLightest(w, s, j);
    } else {
      LightestExists(w, s - {j});
      var k :| IsLightest(w, s - {j}, k);
      LighterOfTwo(w, s, j, k);
    }
  }

  lemma LighterOfTwo(w: Masses, s: set<string>, j: string, k: string)
    requires s <= w.Keys && j in s && IsLightest(w, s - {j}, k)
    ensures IsLightest(w, s, if Before(w, j, k) then j else k)
  {
    Text.Reflexive(j);
    Text.Total(j, k);
    if Before(w, j, k) {
      forall i | i in s ensures Before(w, j, i) {
        if i != j {
          assert i in s - {j} && Before(w, k, i);
          if w[j] == w[i] { Text.Transitive(j, k, i); }
        }
      }
    }
  }

  lemma LightestUnique(w: Masses, s: set<string>, a: string, b: string)
    requires s <= w.Keys && IsLightest(w, s, a) && IsLightest(w, s, b)
    ensures a == b
  {
    assert Before(w, a, b) && Before(w, b, a);
    Text.Antisymmetric(a, b);
  }

  ghost function Lightest(w: Masses): (k: string)
    requires |w| != 0
    ensures IsLightest(w, w.Keys, k)
  {
    LightestExists(w, w.Keys);
    var k :| IsLightest(w, w.Keys, k); k
  }

  /** The residue goes to the lightest key if it fits there; when it does not, it fits
      on no heavier one either. */
  ghost function Settle(w: Masses, cap: real, tol: real): (r: Masses)
    ensures r.Keys == w.Keys
  {
    var residue := 1.0 - Total(w);
    if Abs(residue) > tol && |w| != 0 && w[Lightest(w)] + residue <= cap + SHORTFALL
    then w[Lightest(w) := w[Lightest(w)] + residue]
    else w
  }

  /** The source is the instance `tol == CAP_TOLERANCE`. */
  ghost function Normalize(raw: Masses, cap: real, tol: real): (r: Normalized)
    ensures r.Weights? ==> r.w.Keys == raw.Keys
  {
    if Times(|raw| as real, cap) < 1.0 - SHORTFALL then TooFewRecipients
    else Weights(Settle(Fill(raw, raw.Keys, 1.0, cap, tol), cap, tol))
  }

  // ----- what the result is --------------------------------------------------

  lemma SettleNoResidue(w: Masses, cap: real, tol: real)
    requires tol >= 0.0 && Total(w) == 1.0
    ensures Settle(w, cap, tol) == w
  {
  }

  lemma SettleShortfall(w: Masses, cap: real, tol: real)
    requires |w| != 0 && forall k :: k in w ==> w[k] == cap
    requires tol < 1.0 - Times(|w| as real, cap) <= SHORTFALL && tol >= 0.0
    ensures Total(Settle(w, cap, tol)) == 1.0
    ensures forall k :: k in w ==> cap <= Settle(w, cap, tol)[k] <= cap + SHORTFALL
  {
    SumConstant(w, w.Keys, cap);
    var k, r := Lightest(w), Settle(w, cap, tol);
    var residue := 1.0 - Total(w);
    assert r == w[k := cap + residue];
    SumRemove(w, w.Keys, k);
    SumRemove(r, w.Keys, k);
    SumCongruent(w, r, w.Keys - {k});
  }

  ghost predicate Distribution(raw: Masses, w: Masses, bound: real) {
    && w.Keys == raw.Keys
    && Total(w) == 1.0
    && forall k :: k in w ==> 0.0 <= w[k] <= bound
  }

  /** Whenever the recipient check passes, the weights sum to one and the cap holds:
      to within the tolerance when the caps can hold the whole mass, and to within
      the admitted shortfall otherwise. */
  lemma NormalizeDistributes(raw: Masses, cap: real, tol: real)
    requires NonNegative(raw) && 0.0 < cap <= 1.0 && 0.0 <= tol <= SHORTFALL
    ensures Normalize(raw, cap, tol).TooFewRecipients? <==> Times(|raw| as real, cap) < 1.0 - SHORTFALL
    ensures Normalize(raw, cap, tol).Weights? ==>
              Distribution(raw, Normalize(raw, cap, tol).w, cap + SHORTFALL)
    ensures Normalize(raw, cap, tol).Weights? && Times(|raw| as real, cap) >= 1.0 ==>
              && Normalize(raw, cap, tol).w == Fill(raw, raw.Keys, 1.0, cap, tol)
              && Distribution(raw, Normalize(raw, cap, tol).w, cap + tol)
  {
    if Times(|raw| as real, cap) >= 1.0 - SHORTFALL {
      NonEmptyRecipients(|raw|, cap);
      assert |raw.Keys| == |raw|;
      FillConserves(raw, raw.Keys, 1.0, cap, tol);
      DistributesFrom(raw, cap, tol);
    }
  }

  lemma NonEmptyRecipients(n: nat, cap: real)
    requires Times(n as real, cap) >= 1.0 - SHORTFALL
    ensures n != 0
  {
  }

  lemma DistributesFrom(raw: Masses, cap: real, tol: real)
    requires |raw| != 0 && 0.0 < cap <= 1.0 && 0.0 <= tol <= SHORTFALL
    requires Times(|raw| as real, cap) >= 1.0 - SHORTFALL
    requires Conserving(Fill(raw, raw.Keys, 1.0, cap, tol), raw.Keys, 1.0, cap, tol)
    ensures var w := Settle(Fill(raw, raw.Keys, 1.0, cap, tol), cap, tol);
            && Distribution(raw, w, cap + SHORTFALL)
            && (Times(|raw| as real, cap) >= 1.0 ==>
                  w == Fill(raw, raw.Keys, 1.0, cap, tol) && Distribution(raw, w, cap + tol))
  {
    var w := Fill(raw, raw.Keys, 1.0, cap, tol);
    assert |w.Keys| == |raw.Keys| == |raw| == |w|;
    hide Times, Settle, Fill, SumOver;
    if SumOver(w, raw.Keys) == 1.0 {
      SettleNoResidue(w, cap, tol);
    } else {
      SettleShortfall(w, cap, tol);
    }
  }

  ghost function NormalizedLevel(raw: Masses, cap: real, tol: real): real {
    Level(raw, raw.Keys, 1.0, cap, tol)
  }

  /** For positive masses the result is a water filling: exactly, when the caps can
      hold the whole mass, and up to the shortfall otherwise. */
  lemma NormalizeWaterFills(raw: Masses, cap: real, tol: real)
    requires Positive(raw) && 0.0 < cap <= 1.0 && 0.0 <= tol <= SHORTFALL
    requires Normalize(raw, cap, tol).Weights?
    ensures Normalize(raw, cap, tol).w.Keys == raw.Keys
    ensures NormalizedLevel(raw, cap, tol) > 0.0
    ensures Times(|raw| as real, cap) >= 1.0 ==>
              WaterFilled(raw, Normalize(raw, cap, tol).w, raw.Keys, cap, tol, NormalizedLevel(raw, cap, tol))
    ensures NearFilled(raw, Normalize(raw, cap, tol).w, cap,
                       if Times(|raw| as real, cap) >= 1.0 then tol else SHORTFALL,
                       NormalizedLevel(raw, cap, tol))
  {
    NonEmptyRecipients(|raw|, cap);
    assert raw.Keys != {};
    var w, level := Fill(raw, raw.Keys, 1.0, cap, tol), NormalizedLevel(raw, cap, tol);
    FillIsWaterFilling(raw, raw.Keys, 1.0, cap, tol);
    FillConserves(raw, raw.Keys, 1.0, cap, tol);
    WaterFilledIsNear(raw, w, cap, tol, level);
    NormalizeDistributes(raw, cap, tol);
    if Times(|raw| as real, cap) < 1.0 {
      hide Times, Fill, SumOver, Level;
      SettledIsNear(raw, w, cap, tol, level);
    }
  }

  lemma SettledIsNear(raw: Masses, w: Masses, cap: real, tol: real, level: real)
    requires w.Keys == raw.Keys && |raw| != 0 && 0.0 <= tol <= SHORTFALL && cap > 0.0
    requires 1.0 - SHORTFALL <= Times(|raw| as real, cap)
    requires WaterFilled(raw, w, raw.Keys, cap, tol, level) && NearFilled(raw, w, cap, tol, level)
    requires Conserving(w, raw.Keys, 1.0, cap, tol)
    ensures NearFilled(raw, Settle(w, cap, tol), cap, SHORTFALL, level)
  {
    assert |w.Keys| == |raw.Keys| == |raw| == |w|;
    hide Times, Settle, SumOver;
    if SumOver(w, raw.Keys) == 1.0 {
      SettleNoResidue(w, cap, tol);
    } else {
      SettleShortfall(w, cap, tol);
      forall k | k in raw
        ensures MinReal(cap, Times(level, raw[k])) <= Settle(w, cap, tol)[k]
             <= MinReal(cap, Times(level, raw[k])) + SHORTFALL
      {
        assert w[k] == cap;
      }
    }
  }

  /** A smaller raw mass never gets a larger weight: up to the tolerance when the caps can
      hold the whole mass, up to the admitted shortfall otherwise. */
  lemma NormalizeKeepsOrder(raw: Masses, cap: real, tol: real, i: string, j: string)
    requires Positive(raw) && 0.0 < cap <= 1.0 && 0.0 <= tol <= SHORTFALL
    requires i in raw && j in raw && raw[i] <= raw[j] && Normalize(raw, cap, tol).Weights?
    ensures var w := Normalize(raw, cap, tol).w;
            i in w && j in w && w[i] <= w[j] + (if Times(|raw| as real, cap) >= 1.0 then tol else SHORTFALL)
  {
    NormalizeWaterFills(raw, cap, tol);
    hide Normalize, NormalizedLevel, Times;
    WaterFillingKeepsOrder(raw, Normalize(raw, cap, tol).w, cap,
                           if Times(|raw| as real, cap) >= 1.0 then tol else SHORTFALL,
                           NormalizedLevel(raw, cap, tol), i, j);
  }

  /** The whole function ignores the unit the masses are measured in. */
  lemma NormalizeScale(c: real, raw: Masses, raw': Masses, cap: real, tol: real)
    requires c > 0.0 && raw.Keys == raw'.Keys
    requires forall k :: k in raw ==> raw'[k] == Times(c, raw[k])
    ensures Normalize(raw', cap, tol) == Normalize(raw, cap, tol)
  {
    assert |raw| == |raw.Keys| == |raw'.Keys| == |raw'|;
    forall k | k in raw
      ensures Fill(raw', raw.Keys, 1.0, cap, tol)[k] == Fill(raw, raw.Keys, 1.0, cap, tol)[k]
    {
      ShareScale(c, raw, raw', raw.Keys, 1.0, cap, tol, k);
    }
    assert Fill(raw', raw.Keys, 1.0, cap, tol) == Fill(raw, raw.Keys, 1.0, cap, tol);
  }

  /** Lowering one mass never helps that key and never hurts another one: exactly at
      tolerance zero, and up to the tolerance per recipient at the source's literals. */
  lemma NormalizeMonotone(raw: Masses, raw': Masses, d: string, cap: real, tol: real)
    requires raw.Keys == raw'.Keys && d in raw && Positive(raw) && Positive(raw')
    requires 0.0 < cap <= 1.0 && 0.0 <= tol <= SHORTFALL
    requires raw'[d] <= raw[d] && forall k :: k in raw && k != d ==> raw'[k] == raw[k]
    requires Normalize(raw, cap, tol).Weights?
    ensures Normalize(raw', cap, tol).Weights?
    ensures var w, w' := Normalize(raw, cap, tol).w, Normalize(raw', cap, tol).w;
            var slack := Times(|raw| as real,
                               if Times(|raw| as real, cap) >= 1.0 then tol else SHORTFALL);
            && w.Keys == w'.Keys == raw.Keys
            && w'[d] <= w[d] + slack
            && forall k :: k in raw && k != d ==> w[k] <= w'[k] + slack
  {
    assert |raw| == |raw.Keys| == |raw'.Keys| == |raw'|;
    NormalizeDistributes(raw, cap, tol);
    NormalizeDistributes(raw', cap, tol);
    NormalizeWaterFills(raw, cap, tol);
    NormalizeWaterFills(raw', cap, tol);
    hide Times, Normalize, NormalizedLevel, SumOver;
    LoweredMass(raw, Normalize(raw, cap, tol).w, NormalizedLevel(raw, cap, tol),
                raw', Normalize(raw', cap, tol).w, NormalizedLevel(raw', cap, tol),
                d, cap, if Times(|raw| as real, cap) >= 1.0 then tol else SHORTFALL);
  }

  /** Every key is at the cap but the one with the first identifier, which has what the caps
      leave. */
  ghost predicate FirstTakesResidue(w: Masses, cap: real) {
    exists k :: k in w && (forall j :: j in w ==> Text.LessEq(k, j))
      && w[k] == cap + (1.0 - Times(|w| as real, cap)) && forall j :: j in w && j != k ==> w[j] == cap
  }

  lemma SettleAtCap(w: Masses, cap: real, tol: real)
    requires |w| != 0 && forall k :: k in w ==> w[k] == cap
    requires tol < 1.0 - Times(|w| as real, cap) <= SHORTFALL && tol >= 0.0
    ensures |Settle(w, cap, tol)| == |w| && FirstTakesResidue(Settle(w, cap, tol), cap)
  {
    SumConstant(w, w.Keys, cap);
    var k, r := Lightest(w), Settle(w, cap, tol);
    assert r == w[k := cap + (1.0 - Times(|w| as real, cap))];
    assert r.Keys == w.Keys && |r| == |r.Keys| == |w.Keys| == |w|;
    forall j | j in w ensures Text.LessEq(k, j) {
      assert Before(w, k, j);
    }
  }

  /** The weights are those of the loop when they sum to one; otherwise every one is at the
      cap and the first identifier takes the residue. */
  lemma ResiduePlaced(raw: Masses, cap: real, tol: real)
    requires NonNegative(raw) && 0.0 < cap <= 1.0 && 0.0 <= tol <= SHORTFALL
    requires Normalize(raw, cap, tol).Weights?
    ensures var w, filled := Normalize(raw, cap, tol).w, Fill(raw, raw.Keys, 1.0, cap, tol);
            (Total(filled) == 1.0 && w == filled) || (Total(filled) != 1.0 && FirstTakesResidue(w, cap))
  {
    var w := Fill(raw, raw.Keys, 1.0, cap, tol);
    NormalizeIs(raw, cap, tol);
    assert Times(|raw| as real, cap) >= 1.0 - SHORTFALL;
    NonEmptyRecipients(|raw|, cap);
    assert |w.Keys| == |raw.Keys| == |raw| == |w|;
    FillConserves(raw, raw.Keys, 1.0, cap, tol);
    hide Times, Settle, Fill, SumOver, FirstTakesResidue, Normalize;
    if SumOver(w, raw.Keys) == 1.0 {
      SettleNoResidue(w, cap, tol);
    } else {
      SettleAtCap(w, cap, tol);
    }
  }

  /** While no proportional share exceeds the cap by more than the tolerance, the weights are
      the proportional shares. */
  lemma SmallSharesUnchanged(raw: Masses, cap: real, tol: real)
    requires NonNegative(raw) && Total(raw) > 0.0 && tol >= 0.0 && Normalize(raw, cap, tol).Weights?
    requires forall k :: k in raw ==> raw[k] / Total(raw) <= cap + tol
    ensures forall k :: k in raw ==> Normalize(raw, cap, tol).w[k] == raw[k] / Total(raw)
  {
    var total, w := Total(raw), Fill(raw, raw.Keys, 1.0, cap, tol);
    forall k | k in raw ensures Proposed(1.0, raw[k], total) == raw[k] / total { UnitProposed(raw[k], total); }
    hide Proposed, Settle, SumOver;
    assert Capped(raw, raw.Keys, 1.0, total, cap, tol) == {};
    UncappedRound(raw, raw.Keys, 1.0, cap, tol);
    SettleNoResidue(w, cap, tol);
    NormalizeIs(raw, cap, tol);
  }

  lemma UnitProposed(value: real, total: real)
    requires total != 0.0
    ensures Proposed(1.0, value, total) == value / total
  {
    assert Times(1.0, value) == value;
  }

  /** Without any mass the weight is split equally. */
  lemma MasslessSplitEqually(raw: Masses, cap: real, tol: real)
    requires raw != map[] && (forall k :: k in raw ==> raw[k] == 0.0) && tol >= 0.0
    requires Normalize(raw, cap, tol).Weights?
    ensures forall k :: k in raw ==> Normalize(raw, cap, tol).w[k] == 1.0 / |raw| as real
  {
    var n := |raw| as real;
    var w := Fill(raw, raw.Keys, 1.0, cap, tol);
    SumConstant(raw, raw.Keys, 0.0);
    assert SumOver(raw, raw.Keys) == 0.0;
    assert |raw.Keys| == |raw| > 0;
    assert forall k :: k in raw ==> w[k] == Over(1.0, n);
    SumConstant(w, raw.Keys, Over(1.0, n));
    OverTimes(1.0, n);
    TimesFlip(n, Over(1.0, n));
    hide Fill, SumOver, Normalize, Times;
    SettleNoResidue(w, cap, tol);
    NormalizeIs(raw, cap, tol);
  }

  lemma NormalizeIs(raw: Masses, cap: real, tol: real)
    requires Normalize(raw, cap, tol).Weights?
    ensures Normalize(raw, cap, tol).w == Settle(Fill(raw, raw.Keys, 1.0, cap, tol), cap, tol)
  {
    hide Settle, Fill;
  }

  // ----- the loop ------------------------------------------------------------

  /** Picks the lightest of the candidates. */
  method FindLightest(w: Masses, s: set<string>) returns (k: string)
    requires s <= w.Keys && s != {}
    ensures IsLightest(w, s, k)
  {
    k :| k in s;
    var rest, seen := s - {k}, {k};
    Text.Reflexive(k);
    while rest != {}
      invariant rest <= s && seen == s - rest
      invariant IsLightest(w, seen, k)
      decreases |rest|
    {
      var j :| j in rest;
      LighterOfTwo(w, seen + {j}, j, k) by { assert seen + {j} - {j} == seen; }
      if Before(w, j, k) { k := j; }
      rest, seen := rest - {j}, seen + {j};
    }
    assert seen == s;
  }

  /** The last loop of the source: candidates in ascending `(weight, id)` order, the
      first one that can take the residue takes it. */
  method PlaceResidue(weights: Masses, cap: real) returns (r: Masses)
    ensures r == Settle(weights, cap, CAP_TOLERANCE)
  {
    r := weights;
    var sum := SumValues(weights, weights.Keys);
    var residue := 1.0 - sum;
    if Abs(residue) > CAP_TOLERANCE {
      var candidates := weights.Keys;
      while candidates != {}
        invariant candidates <= weights.Keys && r == weights
        invariant candidates != weights.Keys ==>
                    |weights| != 0 && weights[Lightest(weights)] + residue > cap + SHORTFALL
        decreases |candidates|
      {
        var k := FindLightest(weights, candidates);
        if candidates == weights.Keys {
          LightestUnique(weights, weights.Keys, k, Lightest(weights));
        } else {
          assert Before(weights, Lightest(weights), k);
        }
        if weights[k] + residue <= cap + SHORTFALL {
          r := weights[k := weights[k] + residue];
          break;
        }
        candidates := candidates - {k};
      }
    }
  }

  /** What the main loop keeps: assigned keys have their final share, and the others
      would get theirs from the remaining mass. */
  ghost predicate Progress(raw: Masses, cap: real, weights: Masses, remaining: Masses, mass: real) {
    && remaining.Keys <= raw.Keys && weights.Keys == raw.Keys - remaining.Keys
    && (forall k :: k in remaining ==> remaining[k] == raw[k])
    && (forall k :: k in weights ==> weights[k] == Share(raw, raw.Keys, 1.0, cap, CAP_TOLERANCE, k))
    && (forall k :: k in remaining ==>
          Share(raw, raw.Keys, 1.0, cap, CAP_TOLERANCE, k)
          == Share(raw, remaining.Keys, mass, cap, CAP_TOLERANCE, k))
  }

  lemma ProgressStart(raw: Masses, cap: real)
    ensures Progress(raw, cap, map[], raw, 1.0)
  {
  }

  lemma ProgressDone(raw: Masses, cap: real, weights: Masses, remaining: Masses, mass: real, last: Masses)
    requires Progress(raw, cap, weights, remaining, mass)
    requires last.Keys == remaining.Keys
    requires forall k :: k in last ==> last[k] == Share(raw, remaining.Keys, mass, cap, CAP_TOLERANCE, k)
    ensures weights + last == Fill(raw, raw.Keys, 1.0, cap, CAP_TOLERANCE)
  {
    hide Share;
  }

  lemma ProgressEnd(raw: Masses, cap: real, weights: Masses, remaining: Masses, mass: real)
    requires Progress(raw, cap, weights, remaining, mass) && remaining.Keys == {}
    ensures weights == Fill(raw, raw.Keys, 1.0, cap, CAP_TOLERANCE)
  {
    ProgressDone(raw, cap, weights, remaining, mass, map[]);
    assert weights + map[] == weights;
  }

  lemma ProgressEqual(raw: Masses, cap: real, weights: Masses, remaining: Masses, mass: real, last: Masses)
    requires Progress(raw, cap, weights, remaining, mass)
    requires last.Keys == remaining.Keys && SumOver(raw, remaining.Keys) <= 0.0
    requires forall k :: k in last ==> last[k] == Over(mass, |remaining.Keys| as real)
    ensures weights + last == Fill(raw, raw.Keys, 1.0, cap, CAP_TOLERANCE)
  {
    ProgressDone(raw, cap, weights, remaining, mass, last);
  }

  lemma ProgressUncapped(
      raw: Masses, cap: real, weights: Masses, remaining: Masses, mass: real, total: real, last: Masses)
    requires Progress(raw, cap, weights, remaining, mass)
    requires last.Keys == remaining.Keys && total == SumOver(raw, remaining.Keys) > 0.0
    requires forall k :: k in last ==> last[k] == Proposed(mass, remaining[k], total) <= cap + CAP_TOLERANCE
    ensures weights + last == Fill(raw, raw.Keys, 1.0, cap, CAP_TOLERANCE)
  {
    assert Capped(raw, remaining.Keys, mass, total, cap, CAP_TOLERANCE) == {};
    ProgressDone(raw, cap, weights, remaining, mass, last);
  }

  lemma ProgressTotal(raw: Masses, cap: real, weights: Masses, remaining: Masses, mass: real)
    requires Progress(raw, cap, weights, remaining, mass)
    ensures remaining.Keys <= raw.Keys
    ensures SumOver(remaining, remaining.Keys) == SumOver(raw, remaining.Keys)
    ensures SumOver(raw, remaining.Keys) > 0.0 ==>
              var total := SumOver(raw, remaining.Keys);
              Capped(raw, remaining.Keys, mass, total, cap, CAP_TOLERANCE)
              == Capped(remaining, remaining.Keys, mass, total, cap, CAP_TOLERANCE)
  {
    hide Proposed;
    SumCongruent(raw, remaining, remaining.Keys);
  }

  lemma ProgressCapped(
      raw: Masses, cap: real, weights: Masses, remaining: Masses, mass: real, total: real,
      capped: set<string>, weights': Masses, remaining': Masses, spare: real)
    requires Progress(raw, cap, weights, remaining, mass)
    requires spare == mass - Times(|capped| as real, cap)
    requires total == SumOver(raw, remaining.Keys) > 0.0 && capped != {}
    requires capped == Capped(raw, remaining.Keys, mass, total, cap, CAP_TOLERANCE)
    requires CapApplied(weights, remaining, cap, capped, weights', remaining')
    ensures Progress(raw, cap, weights', remaining', spare)
    ensures |remaining'.Keys| < |remaining.Keys|
  {
    hide Share, Times, SumOver, Proposed;
    var left := remaining.Keys;
    assert capped <= left;
    assert left <= raw.Keys && weights.Keys == raw.Keys - left;
    assert weights'.Keys == weights.Keys + capped;
    hide *;
    CapKeysStep(raw, left, mass, cap, capped, spare);
    MovedKeys(raw.Keys, left, capped);
    ProgressAssigned(raw, cap, weights, remaining, mass, capped, weights', remaining');
    ProgressWaiting(raw, cap, weights, remaining, mass, capped, weights', remaining', spare);
    ProgressMade(raw, cap, weights', remaining', spare);
  }

  lemma ProgressMade(raw: Masses, cap: real, weights: Masses, remaining: Masses, mass: real)
    requires remaining.Keys <= raw.Keys && weights.Keys == raw.Keys - remaining.Keys
    requires forall k :: k in weights ==>
               k in raw.Keys && weights[k] == Share(raw, raw.Keys, 1.0, cap, CAP_TOLERANCE, k)
    requires forall k :: k in remaining ==>
               k in raw.Keys && remaining[k] == raw[k]
               && Share(raw, raw.Keys, 1.0, cap, CAP_TOLERANCE, k)
                  == Share(raw, remaining.Keys, mass, cap, CAP_TOLERANCE, k)
    ensures Progress(raw, cap, weights, remaining, mass)
  {
    hide Share;
  }

  lemma MovedKeys(all: set<string>, left: set<string>, capped: set<string>)
    requires capped <= left <= all
    ensures (all - left) + capped == all - (left - capped)
  {
  }

  lemma ProgressAssigned(
      raw: Masses, cap: real, weights: Masses, remaining: Masses, mass: real,
      capped: set<string>, weights': Masses, remaining': Masses)
    requires Progress(raw, cap, weights, remaining, mass) && capped <= remaining.Keys
    requires CapApplied(weights, remaining, cap, capped, weights', remaining')
    requires forall k :: k in capped ==> Share(raw, remaining.Keys, mass, cap, CAP_TOLERANCE, k) == cap
    ensures forall k :: k in weights' ==>
              k in raw.Keys && weights'[k] == Share(raw, raw.Keys, 1.0, cap, CAP_TOLERANCE, k)
  {
    hide Share;
    forall k | k in weights'
      ensures k in raw.Keys && weights'[k] == Share(raw, raw.Keys, 1.0, cap, CAP_TOLERANCE, k)
    {
      if k in capped { assert k in remaining; } else { assert k in weights; }
    }
  }

  lemma ProgressWaiting(
      raw: Masses, cap: real, weights: Masses, remaining: Masses, mass: real,
      capped: set<string>, weights': Masses, remaining': Masses, spare: real)
    requires Progress(raw, cap, weights, remaining, mass) && capped <= remaining.Keys
    requires CapApplied(weights, remaining, cap, capped, weights', remaining')
    requires forall k :: k in remaining.Keys - capped ==>
               Share(raw, remaining.Keys, mass, cap, CAP_TOLERANCE, k)
               == Share(raw, remaining.Keys - capped, spare, cap, CAP_TOLERANCE, k)
    ensures remaining'.Keys == remaining.Keys - capped
    ensures forall k :: k in remaining' ==>
              k in raw.Keys && remaining'[k] == raw[k]
              && Share(raw, raw.Keys, 1.0, cap, CAP_TOLERANCE, k)
                 == Share(raw, remaining'.Keys, spare, cap, CAP_TOLERANCE, k)
  {
    hide Share;
    forall k | k in remaining'
      ensures k in raw.Keys && remaining'[k] == raw[k]
      ensures Share(raw, raw.Keys, 1.0, cap, CAP_TOLERANCE, k)
           == Share(raw, remaining'.Keys, spare, cap, CAP_TOLERANCE, k)
    {
      assert k in remaining && k in remaining.Keys - capped;
    }
  }

  lemma CapKeysStep(raw: Masses, left: set<string>, mass: real, cap: real, capped: set<string>, spare: real)
    requires spare == mass - Times(|capped| as real, cap)
    requires left <= raw.Keys && SumOver(raw, left) > 0.0 && capped != {}
    requires capped == Capped(raw, left, mass, SumOver(raw, left), cap, CAP_TOLERANCE)
    ensures |left - capped| < |left|
    ensures forall k :: k in capped ==> Share(raw, left, mass, cap, CAP_TOLERANCE, k) == cap
    ensures forall k :: k in left - capped ==>
              Share(raw, left, mass, cap, CAP_TOLERANCE, k)
              == Share(raw, left - capped, spare, cap, CAP_TOLERANCE, k)
  {
    hide Times, SumOver, Proposed;
    SmallerRemainder(left, capped);
  }

  ghost predicate CapApplied(
      weights: Masses, remaining: Masses, cap: real, capped: set<string>, weights': Masses, remaining': Masses)
  {
    && remaining'.Keys == remaining.Keys - capped
    && (forall k :: k in remaining' ==> k in remaining && remaining'[k] == remaining[k])
    && weights'.Keys == weights.Keys + capped
    && (forall k :: k in weights' ==>
          if k in capped then weights'[k] == cap else k in weights && weights'[k] == weights[k])
  }

  lemma CapOneMore(
      weights: Masses, remaining: Masses, cap: real, done: set<string>,
      weights': Masses, remaining': Masses, k: string)
    requires CapApplied(weights, remaining, cap, done, weights', remaining')
    requires k !in done
    ensures CapApplied(weights, remaining, cap, done + {k}, weights'[k := cap], remaining' - {k})
  {
  }

  /** The inner loop: every capped key is fixed, paid for and removed. */
  method CapKeys(weights: Masses, remaining: Masses, mass: real, cap: real, capped: set<string>)
    returns (weights': Masses, remaining': Masses, mass': real)
    ensures CapApplied(weights, remaining, cap, capped, weights', remaining')
    ensures mass' == mass - Times(|capped| as real, cap)
  {
    hide Times, CapApplied;
    weights', remaining', mass' := weights, remaining, mass;
    var todo := capped;
    assert CapApplied(weights, remaining, cap, {}, weights, remaining) by { NothingCapped(weights, remaining, cap); }
    assert capped - todo == {};
    while todo != {}
      invariant todo <= capped
      invariant CapApplied(weights, remaining, cap, capped - todo, weights', remaining')
      invariant mass' - Times(|todo| as real, cap) == mass - Times(|capped| as real, cap)
      decreases |todo|
    {
      var k :| k in todo;
      ScaleByCount(|todo|, cap);
      CapOneMore(weights, remaining, cap, capped - todo, weights', remaining', k);
      weights' := weights'[k := cap];
      mass' := mass' - cap;
      remaining' := remaining' - {k};
      assert capped - todo + {k} == capped - (todo - {k});
      todo := todo - {k};
    }
    assert capped - todo == capped;
    ZeroTimes(cap);
  }

  lemma NothingCapped(weights: Masses, remaining: Masses, cap: real)
    ensures CapApplied(weights, remaining, cap, {}, weights, remaining)
  {
  }

  /** `_capped_normalize`. */
  method CappedNormalize(raw: Masses, cap: real) returns (r: Normalized)
    ensures r == Normalize(raw, cap, CAP_TOLERANCE)
  {
    if Times(|raw| as real, cap) < 1.0 - SHORTFALL {
      return TooFewRecipients;
    }
    var weights := FillLoop(raw, cap);
    weights := PlaceResidue(weights, cap);
    r := Weights(weights);
  }

  /** The proportional offers, and the keys whose offer is above the cap. */
  method Propose(remaining: Masses, mass: real, total: real, cap: real)
    returns (proposed: Masses, capped: set<string>)
    requires total > 0.0
    ensures proposed.Keys == remaining.Keys
    ensures forall k :: k in proposed ==> proposed[k] == Proposed(mass, remaining[k], total)
    ensures capped == Capped(remaining, remaining.Keys, mass, total, cap, CAP_TOLERANCE)
    ensures capped == {} ==> forall k :: k in proposed ==> proposed[k] <= cap + CAP_TOLERANCE
  {
    hide Proposed;
    proposed := map k | k in remaining :: Proposed(mass, remaining[k], total);
    capped := set k | k in proposed && proposed[k] > cap + CAP_TOLERANCE;
    if capped == {} {
      assert forall k :: k in proposed ==> k !in capped;
    }
  }

  /** The `while remaining` loop. */
  method FillLoop(raw: Masses, cap: real) returns (weights: Masses)
    ensures weights == Fill(raw, raw.Keys, 1.0, cap, CAP_TOLERANCE)
  {
    hide Progress, SumOver, Share, Fill, Times, Over, Proposed, CapApplied;
    var remaining: Masses := raw;
    weights := map[];
    var remainingMass := 1.0;
    ProgressStart(raw, cap);
    while remaining.Keys != {}
      invariant Progress(raw, cap, weights, remaining, remainingMass)
      decreases |remaining.Keys|
    {
      ProgressTotal(raw, cap, weights, remaining, remainingMass);
      var total := SumValues(remaining, remaining.Keys);
      if total <= 0.0 {
        var equal := Over(remainingMass, |remaining.Keys| as real);
        var last := map k | k in remaining :: equal;
        ProgressEqual(raw, cap, weights, remaining, remainingMass, last);
        weights := weights + last;
        return;
      }
      var proposed, capped := Propose(remaining, remainingMass, total, cap);
      if capped == {} {
        ProgressUncapped(raw, cap, weights, remaining, remainingMass, total, proposed);
        weights := weights + proposed;
        return;
      }
      var weights', remaining', mass' := CapKeys(weights, remaining, remainingMass, cap, capped);
      ProgressCapped(raw, cap, weights, remaining, remainingMass, total, capped, weights', remaining', mass');
      weights, remaining, remainingMass := weights', remaining', mass';
    }
    ProgressEnd(raw, cap, weights, remaining, remainingMass);
  }
}
