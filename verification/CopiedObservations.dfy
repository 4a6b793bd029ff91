/** A network in which several identities mirror one miner, up to its aggregates. */
module CopiedObservations {
  import opened Statistics
  import opened Wrappers
  import opened Deduplication
  import opened AggregationScaling
  import opened Network

  // ----- mirroring -----------------------------------------------------------

  function Relabelled(o: Observation, copies: seq<string>): (r: seq<Observation>)
    ensures |r| == |copies|
    ensures forall i :: 0 <= i < |copies| ==> r[i] == o.(minerId := copies[i])
  {
    if copies == [] then [] else [o.(minerId := copies[0])] + Relabelled(o, copies[1..])
  }

  /** Every observation of miner `a` is replaced by one for each of the copies. */
  function Mirrored(obs: seq<Observation>, a: string, copies: seq<string>): seq<Observation> {
    if obs == [] then []
    else (if obs[0].minerId == a then Relabelled(obs[0], copies) else [obs[0]]) + Mirrored(obs[1..], a, copies)
  }

  function CopiedRoster(roster: seq<string>, a: string, copies: seq<string>): seq<string> {
    if roster == [] then []
    else (if roster[0] == a then copies else [roster[0]]) + CopiedRoster(roster[1..], a, copies)
  }

  /** `a` shares none of its passing strategies with anybody else. */
  ghost predicate Exclusive(obs: seq<Observation>, a: string) {
    forall o, p :: o in obs && p in obs && Passing(o) && Passing(p) && KeyOf(o) == KeyOf(p) && o.minerId == a
      ==> p.minerId == a
  }

  ghost predicate FreshCopies(obs: seq<Observation>, a: string, copies: seq<string>) {
    && copies != [] && Distinct(copies)
    && forall o :: o in obs && o.minerId in copies ==> o.minerId == a
  }

  function Part(copies: seq<string>): (c: real)
    requires copies != []
    ensures c > 0.0
  {
    Over(1.0, |copies| as real)
  }

  /** `x` is `o`, or one of the copies of `o`. */
  ghost predicate Mirrors(o: Observation, x: Observation, a: string, copies: seq<string>) {
    if o.minerId == a then x.minerId in copies && x == o.(minerId := x.minerId) else x == o
  }

  lemma {:induction false} MirroredOrigin(obs: seq<Observation>, a: string, copies: seq<string>, x: Observation)
    requires x in Mirrored(obs, a, copies)
    ensures exists o :: o in obs && Mirrors(o, x, a, copies)
  {
    var head := if obs[0].minerId == a then Relabelled(obs[0], copies) else [obs[0]];
    assert obs[0] in obs;
    if x in head {
      assert Mirrors(obs[0], x, a, copies);
    } else {
      MirroredOrigin(obs[1..], a, copies, x);
      var o :| o in obs[1..] && Mirrors(o, x, a, copies);
      assert o in obs;
    }
  }

  // ----- groups --------------------------------------------------------------

  lemma {:induction false} GroupAppend(x: seq<Observation>, y: seq<Observation>, key: CacheKey)
    ensures Group(x + y, key) == Group(x, key) + Group(y, key)
  {
    if x == [] {
      assert x + y == y;
    } else {
      GroupAppend(x[1..], y, key);
      assert (x + y)[1..] == x[1..] + y;
    }
  }

  lemma {:induction false} GroupRelabelled(o: Observation, copies: seq<string>, key: CacheKey)
    ensures Group(Relabelled(o, copies), key) == if InGroup(o, key) then Relabelled(o, copies) else []
  {
    if copies != [] {
      GroupRelabelled(o, copies[1..], key);
      var r := Relabelled(o, copies);
      assert r[1..] == Relabelled(o, copies[1..]);
      assert InGroup(r[0], key) == InGroup(o, key);
    }
  }

  lemma {:induction false} GroupMirrored(obs: seq<Observation>, a: string, copies: seq<string>, key: CacheKey)
    ensures Group(Mirrored(obs, a, copies), key) == Mirrored(Group(obs, key), a, copies)
  {
    if obs != [] {
      var head := if obs[0].minerId == a then Relabelled(obs[0], copies) else [obs[0]];
      var rest := Mirrored(obs[1..], a, copies);
      GroupMirrored(obs[1..], a, copies, key);
      GroupAppend(head, rest, key);
      if obs[0].minerId == a { GroupRelabelled(obs[0], copies, key); }
      if InGroup(obs[0], key) {
        assert Group(obs, key) == [obs[0]] + Group(obs[1..], key);
        assert Group(obs, key)[1..] == Group(obs[1..], key);
      }
    }
  }

  lemma {:induction false} MirroredWithout(obs: seq<Observation>, a: string, copies: seq<string>)
    requires forall o :: o in obs ==> o.minerId != a
    ensures Mirrored(obs, a, copies) == obs
  {
    if obs != [] {
      assert obs[0] in obs;
      MirroredWithout(obs[1..], a, copies);
    }
  }

  /** A group of the mirrored miner holds one observation. */
  lemma OwnGroup(obs: seq<Observation>, a: string, o: Observation)
    requires Exclusive(obs, a) && o in obs && Passing(o) && o.minerId == a
    requires Distinct(Miners(Group(obs, KeyOf(o))))
    ensures Group(obs, KeyOf(o)) == [o]
  {
    var group := Group(obs, KeyOf(o));
    assert o in group;
    forall i | 0 <= i < |group| ensures Miners(group)[i] == a {
      assert group[i] in group;
    }
    OneIdentity(Miners(group), a);
  }

  lemma OneIdentity(ids: seq<string>, a: string)
    requires Distinct(ids) && forall i :: 0 <= i < |ids| ==> ids[i] == a
    ensures |ids| <= 1
  {
    DistinctCardinality(ids);
    assert (set id | id in ids) <= {a};
    SingletonBound((set id | id in ids), a);
  }

  lemma SingletonBound(s: set<string>, a: string)
    requires s <= {a}
    ensures |s| <= 1
  {
    if a in s { assert s == {a}; } else { assert s == {}; }
  }

  lemma OwnMirroredGroup(obs: seq<Observation>, a: string, copies: seq<string>, o: Observation)
    requires Exclusive(obs, a) && o in obs && Passing(o) && o.minerId == a
    requires Distinct(Miners(Group(obs, KeyOf(o))))
    ensures Group(Mirrored(obs, a, copies), KeyOf(o)) == Relabelled(o, copies)
  {
    OwnGroup(obs, a, o);
    GroupMirrored(obs, a, copies, KeyOf(o));
    assert Mirrored([o], a, copies) == Relabelled(o, copies) + Mirrored([], a, copies);
  }

  lemma OtherMirroredGroup(obs: seq<Observation>, a: string, copies: seq<string>, p: Observation)
    requires Exclusive(obs, a) && p in obs && Passing(p) && p.minerId != a
    ensures Group(Mirrored(obs, a, copies), KeyOf(p)) == Group(obs, KeyOf(p))
  {
    GroupMirrored(obs, a, copies, KeyOf(p));
    MirroredWithout(Group(obs, KeyOf(p)), a, copies);
  }

  // ----- the deduplicator accepts the mirrored network ------------------------

  lemma MinersRelabelled(o: Observation, copies: seq<string>)
    ensures Miners(Relabelled(o, copies)) == copies
  {
  }

  lemma MirroredMetadata(obs: seq<Observation>, a: string, copies: seq<string>)
    requires ConsistentMetadata(obs)
    ensures ConsistentMetadata(Mirrored(obs, a, copies))
  {
    var m := Mirrored(obs, a, copies);
    forall i, j | 0 <= i < j < |m| && m[i].taskId == m[j].taskId
      ensures MetadataOf(m[i]) == MetadataOf(m[j])
    {
      MirroredOrigin(obs, a, copies, m[i]);
      MirroredOrigin(obs, a, copies, m[j]);
      var x :| x in obs && Mirrors(x, m[i], a, copies);
      var y :| y in obs && Mirrors(y, m[j], a, copies);
      SameTaskSameMetadata(obs, x, y);
    }
  }

  lemma SameTaskSameMetadata(obs: seq<Observation>, x: Observation, y: Observation)
    requires ConsistentMetadata(obs) && x in obs && y in obs && x.taskId == y.taskId
    ensures MetadataOf(x) == MetadataOf(y)
  {
    var i :| 0 <= i < |obs| && obs[i] == x;
    var j :| 0 <= j < |obs| && obs[j] == y;
    assert i < j ==> MetadataOf(obs[i]) == MetadataOf(obs[j]);
    assert j < i ==> MetadataOf(obs[j]) == MetadataOf(obs[i]);
  }

  lemma MirroredComplaint(obs: seq<Observation>, a: string, copies: seq<string>, o: Observation)
    requires Exclusive(obs, a) && Distinct(copies) && o in obs && Passing(o)
    requires Complaint(Group(obs, KeyOf(o))) == None
    ensures Complaint(Group(Mirrored(obs, a, copies), KeyOf(o))) == None
  {
    if o.minerId == a {
      OwnMirroredGroup(obs, a, copies, o);
      MinersRelabelled(o, copies);
      hide Group, Mirrored;
      assert forall x :: x in Relabelled(o, copies) ==> x.evidenceDigest == o.evidenceDigest && x.reward == o.reward;
    } else {
      OtherMirroredGroup(obs, a, copies, o);
    }
  }

  lemma AcceptedGroup(obs: seq<Observation>, o: Observation)
    requires Deduplicate(obs).Ok? && o in obs && Passing(o)
    ensures Complaint(Group(obs, KeyOf(o))) == None
  {
    DeduplicateAccepts(obs);
    hide Complaint, Group;
  }

  lemma AcceptedFrom(m: seq<Observation>)
    requires ConsistentMetadata(m)
    requires forall x :: x in m && Passing(x) ==> Complaint(Group(m, KeyOf(x))) == None
    ensures Deduplicate(m).Ok?
  {
    hide Complaint, Group, ConsistentMetadata;
    DeduplicateAccepts(m);
  }

  lemma MirroredAccepted(obs: seq<Observation>, a: string, copies: seq<string>)
    requires Deduplicate(obs).Ok? && Exclusive(obs, a) && FreshCopies(obs, a, copies)
    ensures Deduplicate(Mirrored(obs, a, copies)).Ok?
  {
    var m := Mirrored(obs, a, copies);
    assert ConsistentMetadata(obs) && Distinct(copies);
    MirroredMetadata(obs, a, copies);
    hide Deduplicate, Group, Complaint, Mirrored, ConsistentMetadata, Exclusive, FreshCopies, Distinct;
    forall x | x in m && Passing(x) ensures Complaint(Group(m, KeyOf(x))) == None {
      MirroredOrigin(obs, a, copies, x);
      var o :| o in obs && Mirrors(o, x, a, copies);
      assert KeyOf(o) == KeyOf(x) && Passing(o);
      AcceptedGroup(obs, o);
      MirroredComplaint(obs, a, copies, o);
    }
    AcceptedFrom(m);
  }

  // ----- what each miner is left with -----------------------------------------

  lemma PartOf(x: real, copies: seq<string>)
    requires copies != []
    ensures Over(x, |copies| as real) == Times(Part(copies), Over(x, 1.0))
  {
    var n := |copies| as real;
    TimesQuotient(x, 1.0, n);
    assert Times(x, 1.0) == x;
    TimesFlip(x, Over(1.0, n));
    assert Over(x, 1.0) == x;
  }

  lemma OwnSplit(obs: seq<Observation>, a: string, copies: seq<string>, o: Observation, id: string)
    requires Deduplicate(obs).Ok? && Exclusive(obs, a) && copies != []
    requires o in obs && o.minerId == a && id in copies
    requires o.(minerId := id) in Mirrored(obs, a, copies)
    ensures ThinnedOne(Split(obs, o), Split(Mirrored(obs, a, copies), o.(minerId := id)), id, Part(copies))
  {
    if Passing(o) {
      DeduplicateAccepts(obs);
      assert Complaint(Group(obs, KeyOf(o))) == None;
      OwnGroup(obs, a, o);
      OwnMirroredGroup(obs, a, copies, o);
      var x := o.(minerId := id);
      assert KeyOf(x) == KeyOf(o) && Passing(x);
      PartOf(o.reward, copies);
    }
  }

  lemma OtherSplit(obs: seq<Observation>, a: string, copies: seq<string>, p: Observation)
    requires Exclusive(obs, a) && p in obs && p.minerId != a && p in Mirrored(obs, a, copies)
    ensures Split(Mirrored(obs, a, copies), p) == Split(obs, p)
  {
    if Passing(p) { OtherMirroredGroup(obs, a, copies, p); }
  }

  lemma SplitAllAppend(all: seq<Observation>, x: seq<Observation>, y: seq<Observation>)
    requires (forall o :: o in x ==> o in all) && (forall o :: o in y ==> o in all)
    ensures SplitAll(all, x + y) == SplitAll(all, x) + SplitAll(all, y)
  {
    var l, r := SplitAll(all, x + y), SplitAll(all, x) + SplitAll(all, y);
    forall i | 0 <= i < |l| ensures l[i] == r[i] {
      assert (x + y)[i] == if i < |x| then x[i] else y[i - |x|];
    }
  }

  /** Of the copies of one observation, `m` holds its own. */
  lemma {:induction false} ByMinerRelabelled(all: seq<Observation>, o: Observation, copies: seq<string>, m: string)
    requires Distinct(copies) && forall x :: x in Relabelled(o, copies) ==> x in all
    ensures m in copies ==> o.(minerId := m) in all
    ensures ByMiner(SplitAll(all, Relabelled(o, copies)), m)
         == if m in copies then [Split(all, o.(minerId := m))] else []
  {
    if copies != [] {
      var r := Relabelled(o, copies);
      assert r[0] in r;
      assert r[1..] == Relabelled(o, copies[1..]);
      assert Distinct(copies[1..]);
      ByMinerRelabelled(all, o, copies[1..], m);
      var s := SplitAll(all, r);
      assert s[1..] == SplitAll(all, r[1..]);
      assert s[0] == Split(all, r[0]) && s[0].minerId == copies[0];
      assert m in copies[1..] ==> m != copies[0];
    }
  }

  lemma MirroredMembers(obs: seq<Observation>, a: string, copies: seq<string>)
    requires obs != []
    ensures var head := if obs[0].minerId == a then Relabelled(obs[0], copies) else [obs[0]];
            && Mirrored(obs, a, copies) == head + Mirrored(obs[1..], a, copies)
            && (forall x :: x in head ==> x in Mirrored(obs, a, copies))
            && (forall x :: x in Mirrored(obs[1..], a, copies) ==> x in Mirrored(obs, a, copies))
  {
    hide Relabelled;
  }

  /** `ByMiner` of a mirrored list, head and rest. */
  lemma MirroredStep(all: seq<Observation>, part: seq<Observation>, a: string, copies: seq<string>, m: string)
    requires part != [] && forall x :: x in Mirrored(part, a, copies) ==> x in all
    ensures var head := if part[0].minerId == a then Relabelled(part[0], copies) else [part[0]];
            && (forall x :: x in head ==> x in all)
            && (forall x :: x in Mirrored(part[1..], a, copies) ==> x in all)
            && ByMiner(SplitAll(all, Mirrored(part, a, copies)), m)
               == ByMiner(SplitAll(all, head), m) + ByMiner(SplitAll(all, Mirrored(part[1..], a, copies)), m)
  {
    MirroredMembers(part, a, copies);
    hide *;
    var head := if part[0].minerId == a then Relabelled(part[0], copies) else [part[0]];
    SplitAllAppend(all, head, Mirrored(part[1..], a, copies));
    ByMinerAppend(SplitAll(all, head), SplitAll(all, Mirrored(part[1..], a, copies)), m);
  }

  /** The same for a list that is not mirrored. */
  lemma PlainStep(all: seq<Observation>, part: seq<Observation>, m: string)
    requires part != [] && forall x :: x in part ==> x in all
    ensures part[0] in all
    ensures ByMiner(SplitAll(all, part), m)
         == (if Split(all, part[0]).minerId == m then [Split(all, part[0])] else [])
            + ByMiner(SplitAll(all, part[1..]), m)
  {
    assert part == [part[0]] + part[1..];
    hide *;
    assert part[0] in part;
    SplitCons(all, part[0], part[1..]);
    ByMinerCons(Split(all, part[0]), SplitAll(all, part[1..]), m);
  }

  lemma SplitKeepsMiner(all: seq<Observation>, o: Observation)
    requires o in all
    ensures Split(all, o).minerId == o.minerId
  {
  }

  /** Miners that are not among the copies keep their deduplicated observations. */
  lemma {:induction false} OthersKeep(
      obs: seq<Observation>, part: seq<Observation>, a: string, copies: seq<string>, m: string)
    requires Deduplicate(obs).Ok? && Exclusive(obs, a) && FreshCopies(obs, a, copies)
    requires (forall o :: o in part ==> o in obs)
    requires forall x :: x in Mirrored(part, a, copies) ==> x in Mirrored(obs, a, copies)
    requires m != a && m !in copies
    ensures ByMiner(SplitAll(Mirrored(obs, a, copies), Mirrored(part, a, copies)), m)
         == ByMiner(SplitAll(obs, part), m)
  {
    if part != [] {
      var all, o, rest := Mirrored(obs, a, copies), part[0], part[1..];
      assert Distinct(copies) && o in part;
      MirroredStep(all, part, a, copies, m);
      PlainStep(obs, part, m);
      OthersKeep(obs, rest, a, copies, m);
      SplitKeepsMiner(obs, o);
      hide *;
      if o.minerId == a {
        ByMinerRelabelled(all, o, copies, m);
      } else {
        assert o in [o];
        OtherSplit(obs, a, copies, o);
        SplitOne(all, o);
        ByMinerOne(Split(all, o), m);
      }
    }
  }

  /** Each copy is left with the miner's deduplicated observations, thinned. */
  lemma {:induction false} CopiesThinned(
      obs: seq<Observation>, part: seq<Observation>, a: string, copies: seq<string>, m: string)
    requires Deduplicate(obs).Ok? && Exclusive(obs, a) && FreshCopies(obs, a, copies)
    requires (forall o :: o in part ==> o in obs)
    requires forall x :: x in Mirrored(part, a, copies) ==> x in Mirrored(obs, a, copies)
    requires m in copies
    ensures Thinned(ByMiner(SplitAll(obs, part), a),
                    ByMiner(SplitAll(Mirrored(obs, a, copies), Mirrored(part, a, copies)), m), m, Part(copies))
  {
    if part != [] {
      var all, o, rest := Mirrored(obs, a, copies), part[0], part[1..];
      assert Distinct(copies) && copies != [] && o in part && o in obs;
      assert o.minerId in copies ==> o.minerId == a;
      MirroredStep(all, part, a, copies, m);
      PlainStep(obs, part, a);
      CopiesThinned(obs, rest, a, copies, m);
      SplitKeepsMiner(obs, o);
      hide *;
      if o.minerId == a {
        ByMinerRelabelled(all, o, copies, m);
        OwnSplit(obs, a, copies, o, m);
        ThinnedCons(Split(obs, o), ByMiner(SplitAll(obs, rest), a), Split(all, o.(minerId := m)),
                    ByMiner(SplitAll(all, Mirrored(rest, a, copies)), m), m, Part(copies));
      } else {
        assert o in [o];
        SplitOne(all, o);
        SplitKeepsMiner(all, o);
        ByMinerOne(Split(all, o), m);
      }
    }
  }

  lemma ThinnedCons(x: Observation, a: seq<Observation>, y: Observation, b: seq<Observation>, id: string, c: real)
    requires ThinnedOne(x, y, id, c) && Thinned(a, b, id, c)
    ensures Thinned([x] + a, [y] + b, id, c)
  {
    hide ThinnedOne;
  }

  lemma SplitOne(all: seq<Observation>, o: Observation)
    requires o in all
    ensures SplitAll(all, [o]) == [Split(all, o)]
  {
  }

  lemma ByMinerOne(o: Observation, m: string)
    ensures ByMiner([o], m) == if o.minerId == m then [o] else []
  {
  }
}
