/** Allocation over aggregates in which one miner's entry was replaced by clones that
    each carry an equal part of its reward. */
module ClonedAllocation {
  import opened Statistics
  import opened Wrappers
  import opened MapTotals
  import opened CappedNormalization
  import opened Aggregation
  import opened AggregationScaling
  import opened Allocation
  import opened AllocationLaws
  import Deduplication

  lemma Reassociate<T>(x: seq<T>, y: seq<T>, z: seq<T>)
    ensures (x + y) + z == x + (y + z)
  {
  }

  // ----- cloned aggregates ---------------------------------------------------

  function Clones(g: MinerAggregate, copies: seq<string>, c: real): Aggregates {
    if copies == [] then [] else [ScaledAggregate(g, copies[0], c)] + Clones(g, copies[1..], c)
  }

  function Cloned(aggs: Aggregates, a: string, copies: seq<string>, c: real): Aggregates {
    if aggs == [] then []
    else (if aggs[0].minerId == a then Clones(aggs[0], copies, c) else [aggs[0]])
         + Cloned(aggs[1..], a, copies, c)
  }

  lemma ClonedCons(g: MinerAggregate, rest: Aggregates, a: string, copies: seq<string>, c: real)
    ensures Cloned([g] + rest, a, copies, c)
         == (if g.minerId == a then Clones(g, copies, c) else [g]) + Cloned(rest, a, copies, c)
  {
    assert ([g] + rest)[1..] == rest;
  }

  lemma {:induction false} ClonedAppend(x: Aggregates, y: Aggregates, a: string, copies: seq<string>, c: real)
    ensures Cloned(x + y, a, copies, c) == Cloned(x, a, copies, c) + Cloned(y, a, copies, c)
  {
    if x == [] {
      assert x + y == y;
      assert Cloned(x, a, copies, c) == [];
    } else {
      hide *;
      assert x == [x[0]] + x[1..];
      ClonedCons(x[0], x[1..], a, copies, c);
      ClonedCons(x[0], x[1..] + y, a, copies, c);
      ClonedAppend(x[1..], y, a, copies, c);
      assert x + y == [x[0]] + (x[1..] + y);
      Reassociate(if x[0].minerId == a then Clones(x[0], copies, c) else [x[0]],
                  Cloned(x[1..], a, copies, c), Cloned(y, a, copies, c));
    }
  }

  lemma ClonedOne(g: MinerAggregate, a: string, copies: seq<string>, c: real)
    ensures Cloned([g], a, copies, c) == if g.minerId == a then Clones(g, copies, c) else [g]
  {
  }

  lemma ClonesSnoc(g: MinerAggregate, copies: seq<string>, id: string, c: real)
    ensures Clones(g, copies + [id], c) == Clones(g, copies, c) + [ScaledAggregate(g, id, c)]
  {
    hide ScaledAggregate;
    if copies == [] {
      assert copies + [id] == [id];
    } else {
      ClonesSnoc(g, copies[1..], id, c);
      assert (copies + [id])[1..] == copies[1..] + [id];
    }
  }

  // ----- filters -------------------------------------------------------------

  lemma {:induction false} EligibleAppend(x: Aggregates, y: Aggregates)
    ensures EligibleOnly(x + y) == EligibleOnly(x) + EligibleOnly(y)
  {
    if x == [] {
      assert x + y == y;
    } else {
      hide *;
      assert x == [x[0]] + x[1..] && x + y == [x[0]] + (x[1..] + y);
      EligibleCons(x[0], x[1..]);
      EligibleCons(x[0], x[1..] + y);
      EligibleAppend(x[1..], y);
      Reassociate(if Earns(x[0]) then [x[0]] else [], EligibleOnly(x[1..]), EligibleOnly(y));
    }
  }

  lemma {:induction false} MembersAppend(x: Aggregates, y: Aggregates, d: string)
    ensures Members(x + y, d) == Members(x, d) + Members(y, d)
  {
    if x == [] {
      assert x + y == y;
    } else {
      hide *;
      assert x == [x[0]] + x[1..] && x + y == [x[0]] + (x[1..] + y);
      MembersCons(x[0], x[1..], d);
      MembersCons(x[0], x[1..] + y, d);
      MembersAppend(x[1..], y, d);
      Reassociate(if x[0].behaviorDigest == d then [x[0]] else [], Members(x[1..], d), Members(y, d));
    }
  }

  lemma CloneEarns(g: MinerAggregate, id: string, c: real)
    requires c > 0.0
    ensures Earns(ScaledAggregate(g, id, c)) == Earns(g)
  {
    SignScale(c, g.reward);
  }

  lemma {:induction false} EligibleClones(g: MinerAggregate, copies: seq<string>, c: real)
    requires c > 0.0
    ensures EligibleOnly(Clones(g, copies, c)) == if Earns(g) then Clones(g, copies, c) else []
  {
    if copies != [] {
      EligibleClones(g, copies[1..], c);
      CloneEarns(g, copies[0], c);
      hide ScaledAggregate, Earns;
      assert Clones(g, copies, c)[1..] == Clones(g, copies[1..], c);
    }
  }

  lemma {:induction false} MembersClones(g: MinerAggregate, copies: seq<string>, c: real, d: string)
    ensures Members(Clones(g, copies, c), d) == if g.behaviorDigest == d then Clones(g, copies, c) else []
  {
    if copies != [] {
      MembersClones(g, copies[1..], c, d);
      assert Clones(g, copies, c)[1..] == Clones(g, copies[1..], c);
    }
  }

  lemma EligibleOne(g: MinerAggregate)
    ensures EligibleOnly([g]) == if Earns(g) then [g] else []
  {
  }

  lemma EligibleCons(g: MinerAggregate, rest: Aggregates)
    ensures EligibleOnly([g] + rest) == (if Earns(g) then [g] else []) + EligibleOnly(rest)
  {
    assert ([g] + rest)[1..] == rest;
  }

  lemma {:induction false} EligibleCloned(aggs: Aggregates, a: string, copies: seq<string>, c: real)
    requires c > 0.0
    ensures EligibleOnly(Cloned(aggs, a, copies, c)) == Cloned(EligibleOnly(aggs), a, copies, c)
  {
    if aggs != [] {
      var g, rest := aggs[0], aggs[1..];
      assert aggs == [g] + rest;
      EligibleCloned(rest, a, copies, c);
      EligibleClonedCons(g, rest, a, copies, c);
    }
  }

  lemma EligibleClonedCons(g: MinerAggregate, rest: Aggregates, a: string, copies: seq<string>, c: real)
    requires c > 0.0
    requires EligibleOnly(Cloned(rest, a, copies, c)) == Cloned(EligibleOnly(rest), a, copies, c)
    ensures EligibleOnly(Cloned([g] + rest, a, copies, c)) == Cloned(EligibleOnly([g] + rest), a, copies, c)
  {
    hide *;
    ClonedCons(g, rest, a, copies, c);
    EligibleCons(g, rest);
    if g.minerId == a {
      EligibleAppend(Clones(g, copies, c), Cloned(rest, a, copies, c));
      EligibleClones(g, copies, c);
    } else {
      EligibleAppend([g], Cloned(rest, a, copies, c));
      EligibleOne(g);
    }
    if Earns(g) {
      ClonedCons(g, EligibleOnly(rest), a, copies, c);
    } else {
      assert [] + EligibleOnly(rest) == EligibleOnly(rest);
      assert [] + Cloned(EligibleOnly(rest), a, copies, c) == Cloned(EligibleOnly(rest), a, copies, c);
    }
  }

  lemma MembersOne(g: MinerAggregate, d: string)
    ensures Members([g], d) == if g.behaviorDigest == d then [g] else []
  {
  }

  lemma MembersCons(g: MinerAggregate, rest: Aggregates, d: string)
    ensures Members([g] + rest, d) == (if g.behaviorDigest == d then [g] else []) + Members(rest, d)
  {
    assert ([g] + rest)[1..] == rest;
  }

  lemma {:induction false} MembersCloned(e: Aggregates, a: string, copies: seq<string>, c: real, d: string)
    ensures Members(Cloned(e, a, copies, c), d) == Cloned(Members(e, d), a, copies, c)
  {
    if e != [] {
      var g, rest := e[0], e[1..];
      assert e == [g] + rest;
      MembersCloned(rest, a, copies, c, d);
      MembersClonedCons(g, rest, a, copies, c, d);
    }
  }

  lemma MembersClonedCons(g: MinerAggregate, rest: Aggregates, a: string, copies: seq<string>, c: real, d: string)
    requires Members(Cloned(rest, a, copies, c), d) == Cloned(Members(rest, d), a, copies, c)
    ensures Members(Cloned([g] + rest, a, copies, c), d) == Cloned(Members([g] + rest, d), a, copies, c)
  {
    hide *;
    ClonedCons(g, rest, a, copies, c);
    MembersCons(g, rest, d);
    if g.minerId == a {
      MembersAppend(Clones(g, copies, c), Cloned(rest, a, copies, c), d);
      MembersClones(g, copies, c, d);
    } else {
      MembersAppend([g], Cloned(rest, a, copies, c), d);
      MembersOne(g, d);
    }
    if g.behaviorDigest == d {
      ClonedCons(g, Members(rest, d), a, copies, c);
    } else {
      assert [] + Members(rest, d) == Members(rest, d);
      assert [] + Cloned(Members(rest, d), a, copies, c) == Cloned(Members(rest, d), a, copies, c);
    }
  }

  // ----- masses and sums -----------------------------------------------------

  /** The clones' parts add up to the original reward. */
  ghost predicate Whole(copies: seq<string>, c: real) {
    c > 0.0 && forall x: real :: Times(|copies| as real, Times(c, x)) == x
  }

  lemma {:induction false} StrategyMassAppend(x: Aggregates, y: Aggregates, s: string)
    ensures StrategyMass(x + y, s) == StrategyMass(x, s) + StrategyMass(y, s)
  {
    if x == [] {
      assert x + y == y;
    } else {
      StrategyMassAppend(x[1..], y, s);
      assert (x + y)[1..] == x[1..] + y;
    }
  }

  lemma {:induction false} ClonesMass(g: MinerAggregate, copies: seq<string>, c: real, s: string)
    ensures StrategyMass(Clones(g, copies, c), s)
         == if g.strategyDigest == s then Times(|copies| as real, Times(c, g.reward)) else 0.0
    ensures RewardSum(Clones(g, copies, c)) == Times(|copies| as real, Times(c, g.reward))
  {
    if copies != [] {
      ClonesMass(g, copies[1..], c, s);
      assert Clones(g, copies, c)[1..] == Clones(g, copies[1..], c);
      ScaleByCount(|copies|, Times(c, g.reward));
    }
  }

  lemma {:induction false} RewardSumAppend(x: Aggregates, y: Aggregates)
    ensures RewardSum(x + y) == RewardSum(x) + RewardSum(y)
  {
    if x == [] {
      assert x + y == y;
    } else {
      RewardSumAppend(x[1..], y);
      assert (x + y)[1..] == x[1..] + y;
    }
  }

  lemma {:induction false} ClonedMass(members: Aggregates, a: string, copies: seq<string>, c: real, s: string)
    requires Whole(copies, c)
    ensures StrategyMass(Cloned(members, a, copies, c), s) == StrategyMass(members, s)
    ensures RewardSum(Cloned(members, a, copies, c)) == RewardSum(members)
  {
    if members != [] {
      var g, rest := members[0], members[1..];
      var head := if g.minerId == a then Clones(g, copies, c) else [g];
      ClonedMass(rest, a, copies, c, s);
      StrategyMassAppend(head, Cloned(rest, a, copies, c), s);
      RewardSumAppend(head, Cloned(rest, a, copies, c));
      ClonesMass(g, copies, c, s);
      assert Times(|copies| as real, Times(c, g.reward)) == g.reward;
    }
  }

  lemma {:induction false} ClonesMember(g: MinerAggregate, copies: seq<string>, c: real, h: MinerAggregate)
    ensures h in Clones(g, copies, c) <==> exists id :: id in copies && h == ScaledAggregate(g, id, c)
  {
    if copies != [] {
      ClonesMember(g, copies[1..], c, h);
      hide ScaledAggregate;
      assert copies == [copies[0]] + copies[1..];
      assert copies[0] in copies;
    }
  }

  lemma {:induction false} ClonedMember(e: Aggregates, a: string, copies: seq<string>, c: real, h: MinerAggregate)
    ensures h in Cloned(e, a, copies, c) <==>
            exists g :: g in e && (if g.minerId == a then h in Clones(g, copies, c) else h == g)
  {
    if e != [] {
      ClonedMember(e[1..], a, copies, c, h);
      hide Clones;
      assert e == [e[0]] + e[1..];
      assert e[0] in e;
    }
  }

  // ----- origins and heirs ---------------------------------------------------

  ghost predicate CloneOf(g: MinerAggregate, h: MinerAggregate, a: string, copies: seq<string>, c: real) {
    if g.minerId == a then h.minerId in copies && h == ScaledAggregate(g, h.minerId, c) else h == g
  }

  function Heir(g: MinerAggregate, a: string, copies: seq<string>, c: real): MinerAggregate
    requires copies != []
  {
    if g.minerId == a then ScaledAggregate(g, copies[0], c) else g
  }

  lemma CloneOrigin(e: Aggregates, a: string, copies: seq<string>, c: real, h: MinerAggregate)
    requires h in Cloned(e, a, copies, c)
    ensures exists g :: g in e && CloneOf(g, h, a, copies, c)
  {
    ClonedMember(e, a, copies, c, h);
    var g :| g in e && (if g.minerId == a then h in Clones(g, copies, c) else h == g);
    if g.minerId == a {
      ClonesMember(g, copies, c, h);
      var id :| id in copies && h == ScaledAggregate(g, id, c);
      assert h.minerId == id;
    }
    assert CloneOf(g, h, a, copies, c);
  }

  lemma CloneExists(e: Aggregates, a: string, copies: seq<string>, c: real, g: MinerAggregate, h: MinerAggregate)
    requires g in e && CloneOf(g, h, a, copies, c)
    ensures h in Cloned(e, a, copies, c)
  {
    ClonedMember(e, a, copies, c, h);
    if g.minerId == a { ClonesMember(g, copies, c, h); }
  }

  lemma HeirIsClone(g: MinerAggregate, a: string, copies: seq<string>, c: real)
    requires copies != []
    ensures CloneOf(g, Heir(g, a, copies, c), a, copies, c)
  {
  }

  lemma CloneKeepsDigests(g: MinerAggregate, h: MinerAggregate, a: string, copies: seq<string>, c: real)
    requires CloneOf(g, h, a, copies, c)
    ensures h.behaviorDigest == g.behaviorDigest && h.strategyDigest == g.strategyDigest
  {
  }

  lemma DigestsCloned(e: Aggregates, a: string, copies: seq<string>, c: real)
    requires copies != []
    ensures Digests(Cloned(e, a, copies, c)) == Digests(e)
  {
    hide Cloned, CloneOf, Heir;
    var e' := Cloned(e, a, copies, c);
    forall d | d in Digests(e') ensures d in Digests(e) {
      var h :| h in e' && h.behaviorDigest == d;
      CloneOrigin(e, a, copies, c, h);
      var g :| g in e && CloneOf(g, h, a, copies, c);
      CloneKeepsDigests(g, h, a, copies, c);
    }
    forall d | d in Digests(e) ensures d in Digests(e') {
      var g :| g in e && g.behaviorDigest == d;
      var h := Heir(g, a, copies, c);
      HeirIsClone(g, a, copies, c);
      CloneExists(e, a, copies, c, g, h);
      CloneKeepsDigests(g, h, a, copies, c);
    }
  }

  // ----- group masses --------------------------------------------------------

  lemma ClonedNonEmpty(e: Aggregates, a: string, copies: seq<string>, c: real)
    requires copies != []
    ensures Cloned(e, a, copies, c) == [] <==> e == []
  {
    if e != [] {
      hide Cloned, CloneOf, Heir;
      HeirIsClone(e[0], a, copies, c);
      CloneExists(e, a, copies, c, e[0], Heir(e[0], a, copies, c));
    }
  }

  lemma MinMassCloned(m: Aggregates, a: string, copies: seq<string>, c: real)
    requires copies != [] && Whole(copies, c) && m != []
    ensures Cloned(m, a, copies, c) != []
    ensures MinMass(Cloned(m, a, copies, c), Cloned(m, a, copies, c)) == MinMass(m, m)
  {
    hide Cloned, CloneOf, Heir, MinMass, StrategyMass, Whole;
    var m' := Cloned(m, a, copies, c);
    ClonedNonEmpty(m, a, copies, c);
    MinMassIsMinimum(m, m);
    MinMassIsMinimum(m', m');
    var g :| g in m && MinMass(m, m) == StrategyMass(m, g.strategyDigest);
    var h' :| h' in m' && MinMass(m', m') == StrategyMass(m', h'.strategyDigest);
    var g' := Heir(g, a, copies, c);
    HeirIsClone(g, a, copies, c);
    CloneExists(m, a, copies, c, g, g');
    CloneKeepsDigests(g, g', a, copies, c);
    CloneOrigin(m, a, copies, c, h');
    var h :| h in m && CloneOf(h, h', a, copies, c);
    CloneKeepsDigests(h, h', a, copies, c);
    ClonedMass(m, a, copies, c, g.strategyDigest);
    ClonedMass(m, a, copies, c, h.strategyDigest);
  }

  lemma GroupMassCloned(e: Aggregates, a: string, copies: seq<string>, c: real, d: string)
    requires copies != [] && Whole(copies, c) && d in Digests(e)
    ensures d in Digests(Cloned(e, a, copies, c))
    ensures GroupMass(Cloned(e, a, copies, c), d) == GroupMass(e, d)
  {
    DigestsCloned(e, a, copies, c);
    MembersNonEmpty(e, d);
    MembersCloned(e, a, copies, c, d);
    hide Cloned, MinMass, Whole;
    MinMassCloned(Members(e, d), a, copies, c);
  }

  lemma RawGroupsCloned(e: Aggregates, a: string, copies: seq<string>, c: real)
    requires copies != [] && Whole(copies, c)
    ensures RawGroups(Cloned(e, a, copies, c)) == RawGroups(e)
  {
    DigestsCloned(e, a, copies, c);
    forall d | d in Digests(e)
      ensures d in Digests(Cloned(e, a, copies, c))
      ensures GroupMass(Cloned(e, a, copies, c), d) == GroupMass(e, d)
    {
      GroupMassCloned(e, a, copies, c, d);
    }
    hide GroupMass, Cloned, Whole;
  }

  // ----- identities ----------------------------------------------------------

  /** The copies are new to the network, except that the miner may be one of them. */
  ghost predicate FreshIn(e: Aggregates, a: string, copies: seq<string>) {
    && (forall i, j :: 0 <= i < j < |copies| ==> copies[i] != copies[j])
    && forall g :: g in e && g.minerId in copies ==> g.minerId == a
  }

  lemma UniqueAppend(x: Aggregates, y: Aggregates)
    requires UniqueIds(x) && UniqueIds(y)
    requires forall g, h :: g in x && h in y ==> g.minerId != h.minerId
    ensures UniqueIds(x + y)
  {
    var z := x + y;
    forall i, j | 0 <= i < j < |z| ensures z[i].minerId != z[j].minerId {
      if i < |x| <= j {
        assert z[i] in x && z[j] in y;
      }
    }
  }

  lemma {:induction false} ClonesAt(g: MinerAggregate, copies: seq<string>, c: real)
    ensures |Clones(g, copies, c)| == |copies|
    ensures forall i :: 0 <= i < |copies| ==> Clones(g, copies, c)[i].minerId == copies[i]
  {
    if copies != [] { ClonesAt(g, copies[1..], c); }
  }

  lemma {:induction false} UniqueCloned(e: Aggregates, a: string, copies: seq<string>, c: real)
    requires UniqueIds(e) && FreshIn(e, a, copies)
    ensures UniqueIds(Cloned(e, a, copies, c))
  {
    if e != [] {
      var rest, head := e[1..], if e[0].minerId == a then Clones(e[0], copies, c) else [e[0]];
      UniqueCloned(rest, a, copies, c);
      ClonesAt(e[0], copies, c);
      assert UniqueIds(head);
      forall g, h | g in head && h in Cloned(rest, a, copies, c) ensures g.minerId != h.minerId {
        CloneOrigin(rest, a, copies, c, h);
        var h' :| h' in rest && CloneOf(h', h, a, copies, c);
        assert h' in e && e[0] in e;
        assert e[0].minerId != h'.minerId;
        if e[0].minerId == a {
          ClonesMember(e[0], copies, c, g);
        }
      }
      UniqueAppend(head, Cloned(rest, a, copies, c));
    }
  }

  // ----- weights -------------------------------------------------------------

  lemma PartOfWeight(x: real, c: real, y: real, n: real)
    requires n != 0.0
    ensures Over(Times(x, Times(c, y)), n) == Times(c, Over(Times(x, y), n))
  {
    assert Times(x, Times(c, y)) == x * c * y == Times(c, Times(x, y));
  }

  lemma ClonedEntry(
      w: Masses, w': Masses, groups: Masses, e: Aggregates, a: string, copies: seq<string>, c: real,
      g: MinerAggregate, h: MinerAggregate)
    requires Whole(copies, c)
    requires Entries(w, groups, e) && Entries(w', groups, Cloned(e, a, copies, c))
    requires g in e && CloneOf(g, h, a, copies, c)
    ensures g.minerId in w && h.minerId in w'
    ensures w'[h.minerId] == if g.minerId == a then Times(c, w[g.minerId]) else w[g.minerId]
  {
    var e' := Cloned(e, a, copies, c);
    CloneExists(e, a, copies, c, g, h);
    CloneKeepsDigests(g, h, a, copies, c);
    var d := g.behaviorDigest;
    MembersCloned(e, a, copies, c, d);
    ClonedMass(Members(e, d), a, copies, c, d);
    assert g.minerId in MinerIds(e) && h.minerId in MinerIds(e');
    assert d in Digests(e);
    assert w[g.minerId] == MemberWeight(groups, Members(e, d), g);
    assert w'[h.minerId] == MemberWeight(groups, Members(e', d), h);
    PartOfWeight(groups[d], c, g.reward, RewardSum(Members(e, d)));
  }

  /** What cloning does to the weights of a planned allocation. */
  ghost predicate SharedOut(w: Masses, w': Masses, a: string, copies: seq<string>, c: real) {
    && w'.Keys == (w.Keys - {a}) + (if a in w then (set m | m in copies) else {})
    && (forall m :: m in w && m != a ==> m in w' && w'[m] == w[m])
    && (a in w ==> forall m :: m in copies ==> m in w' && w'[m] == Times(c, w[a]))
  }

  lemma ClonedKeys(
      w: Masses, w': Masses, groups: Masses, e: Aggregates, a: string, copies: seq<string>, c: real)
    requires Entries(w, groups, e) && Entries(w', groups, Cloned(e, a, copies, c)) 
    ensures w'.Keys == (w.Keys - {a}) + (if a in w then (set m | m in copies) else {})
  {
    var e' := Cloned(e, a, copies, c);
    assert w.Keys == MinerIds(e) && w'.Keys == MinerIds(e');
    hide *;
    forall m | m in w'.Keys ensures (m in w.Keys && m != a) || (a in w.Keys && m in copies) {
      IdOrigin(e, a, copies, c, m);
    }
    forall m | m in w.Keys && m != a ensures m in w'.Keys { IdKept(e, a, copies, c, m); }
    forall m | m in copies && a in w.Keys ensures m in w'.Keys { IdCopied(e, a, copies, c, m); }
    KeysFrom(w.Keys, w'.Keys, a, copies);
  }

  lemma KeysFrom(ids: set<string>, ids': set<string>, a: string, copies: seq<string>)
    requires forall m :: m in ids' ==> (m in ids && m != a) || (a in ids && m in copies)
    requires forall m :: m in ids && m != a ==> m in ids'
    requires forall m :: m in copies && a in ids ==> m in ids'
    ensures ids' == (ids - {a}) + (if a in ids then (set m | m in copies) else {})
  {
  }

  lemma IdOrigin(e: Aggregates, a: string, copies: seq<string>, c: real, m: string)
    requires m in MinerIds(Cloned(e, a, copies, c))
    ensures (m in MinerIds(e) && m != a) || (a in MinerIds(e) && m in copies)
  {
    hide Cloned;
    var h :| h in Cloned(e, a, copies, c) && h.minerId == m;
    CloneOrigin(e, a, copies, c, h);
    var g :| g in e && CloneOf(g, h, a, copies, c);
    assert g.minerId in MinerIds(e);
  }

  lemma IdKept(e: Aggregates, a: string, copies: seq<string>, c: real, m: string)
    requires m in MinerIds(e) && m != a
    ensures m in MinerIds(Cloned(e, a, copies, c))
  {
    hide Cloned;
    var g :| g in e && g.minerId == m;
    CloneExists(e, a, copies, c, g, g);
  }

  lemma IdCopied(e: Aggregates, a: string, copies: seq<string>, c: real, m: string)
    requires a in MinerIds(e) && m in copies
    ensures m in MinerIds(Cloned(e, a, copies, c))
  {
    hide Cloned;
    var g :| g in e && g.minerId == a;
    CloneExists(e, a, copies, c, g, ScaledAggregate(g, m, c));
  }

  lemma ClonedWeights(
      w: Masses, w': Masses, groups: Masses, e: Aggregates, a: string, copies: seq<string>, c: real)
    requires Whole(copies, c) && FreshIn(e, a, copies)
    requires Entries(w, groups, e) && Entries(w', groups, Cloned(e, a, copies, c))
    ensures SharedOut(w, w', a, copies, c)
  {
    ClonedKeys(w, w', groups, e, a, copies, c);
    assert w.Keys == MinerIds(e);
    assert MinerIds(e) == w.Keys;
    hide *;
    forall m | m in w && m != a ensures m in w' && w'[m] == w[m] {
      OtherWeight(w, w', groups, e, a, copies, c, m);
    }
    if a in w {
      forall m | m in copies ensures m in w' && w'[m] == Times(c, w[a]) {
        CloneWeight(w, w', groups, e, a, copies, c, m);
      }
    }
    SharedFrom(w, w', a, copies, c);
  }

  lemma SharedFrom(w: Masses, w': Masses, a: string, copies: seq<string>, c: real)
    requires w'.Keys == (w.Keys - {a}) + (if a in w then (set m | m in copies) else {})
    requires forall m :: m in w && m != a ==> m in w' && w'[m] == w[m]
    requires a in w ==> forall m :: m in copies ==> m in w' && w'[m] == Times(c, w[a])
    ensures SharedOut(w, w', a, copies, c)
  {
  }

  lemma OtherWeight(
      w: Masses, w': Masses, groups: Masses, e: Aggregates, a: string, copies: seq<string>, c: real, m: string)
    requires Whole(copies, c) && m in MinerIds(e) && m != a
    requires Entries(w, groups, e) && Entries(w', groups, Cloned(e, a, copies, c))
    ensures m in w && m in w' && w'[m] == w[m]
  {
    var g :| g in e && g.minerId == m;
    hide Entries, Cloned, Whole;
    ClonedEntry(w, w', groups, e, a, copies, c, g, g);
  }

  lemma CloneWeight(
      w: Masses, w': Masses, groups: Masses, e: Aggregates, a: string, copies: seq<string>, c: real, m: string)
    requires Whole(copies, c) && a in MinerIds(e) && m in copies
    requires Entries(w, groups, e) && Entries(w', groups, Cloned(e, a, copies, c))
    ensures a in w && m in w' && w'[m] == Times(c, w[a])
  {
    var g :| g in e && g.minerId == a;
    hide Entries, Cloned, Whole;
    ClonedEntry(w, w', groups, e, a, copies, c, g, ScaledAggregate(g, m, c));
  }

  /** Replacing one miner's aggregate by clones with equal parts of its reward leaves
      the outcome, every group's weight and every other miner's weight unchanged. */
  lemma AllocationCloned(aggs: Aggregates, a: string, copies: seq<string>, c: real, policy: Policy, tol: real)
    requires UniqueIds(aggs) && FreshIn(aggs, a, copies) && copies != [] && Whole(copies, c)
    ensures var r, r' := Allocate(aggs, policy, tol), Allocate(Cloned(aggs, a, copies, c), policy, tol);
            && (r.NotPlanned? ==> r'.NotPlanned? && r'.reason == r.reason)
            && (r.Planned? ==>
                  r'.Planned? && r'.strategyWeights == r.strategyWeights
                  && SharedOut(r.weights, r'.weights, a, copies, c))
  {
    var aggs' := Cloned(aggs, a, copies, c);
    var e, e' := EligibleOnly(aggs), EligibleOnly(aggs');
    assert c > 0.0;
    EligibleCloned(aggs, a, copies, c);
    assert e' == Cloned(e, a, copies, c);
    assert FreshIn(e, a, copies);
    OutcomeCloned(aggs, aggs', a, copies, c, policy, tol);
    var r, r' := Allocate(aggs, policy, tol), Allocate(aggs', policy, tol);
    hide *;
    UniqueCloned(aggs, a, copies, c);
    if r.Planned? {
      AllocationEntries(aggs, policy, tol);
      AllocationEntries(aggs', policy, tol);
      ClonedWeights(r.weights, r'.weights, r.strategyWeights, e, a, copies, c);
    }
  }

  lemma OutcomeCloned(
      aggs: Aggregates, aggs': Aggregates, a: string, copies: seq<string>, c: real, policy: Policy, tol: real)
    requires copies != [] && Whole(copies, c)
    requires EligibleOnly(aggs') == Cloned(EligibleOnly(aggs), a, copies, c)
    ensures var r, r' := Allocate(aggs, policy, tol), Allocate(aggs', policy, tol);
            && (r.NotPlanned? ==> r'.NotPlanned? && r'.reason == r.reason)
            && (r.Planned? ==> r'.Planned? && r'.strategyWeights == r.strategyWeights)
  {
    hide Normalize, RawGroups, AssignGroups, Cloned, EligibleOnly, DuplicatesOf, Whole;
    var e := EligibleOnly(aggs);
    ClonedNonEmpty(e, a, copies, c);
    DigestsCloned(e, a, copies, c);
    RawGroupsCloned(e, a, copies, c);
  }

  /** The clones together hold what the original held. */
  lemma ClonesTogether(w: Masses, w': Masses, a: string, copies: seq<string>, c: real)
    requires SharedOut(w, w', a, copies, c) && Whole(copies, c) && a in w
    requires forall i, j :: 0 <= i < j < |copies| ==> copies[i] != copies[j]
    ensures (set m | m in copies) <= w'.Keys
    ensures SumOver(w', set m | m in copies) == w[a]
  {
    var s := set m | m in copies;
    Deduplication.DistinctCardinality(copies);
    SumConstant(w', s, Times(c, w[a]));
  }
}
