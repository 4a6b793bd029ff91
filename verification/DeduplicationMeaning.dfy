/** What `deduplicate_task_rewards` accepts and returns (planrace/scoring_v2.py:513-555), in
    terms of the positions of the observations and of no function of the model. */
module DeduplicationMeaning {
  import opened Wrappers
  import opened Deduplication

  /** Two passing observations of one strategy on one commitment. */
  ghost predicate Shares(a: Observation, b: Observation) {
    && a.available && a.compliant && a.correct && b.available && b.compliant && b.correct
    && a.taskCommitment == b.taskCommitment && a.strategyDigest == b.strategyDigest
  }

  /** One task has one epoch, family and commitment. */
  ghost predicate OneMeaningPerTask(obs: seq<Observation>) {
    forall i, j :: 0 <= i < |obs| && 0 <= j < |obs| && obs[i].taskId == obs[j].taskId ==>
      && obs[i].epoch == obs[j].epoch && obs[i].family == obs[j].family
      && obs[i].taskCommitment == obs[j].taskCommitment
  }

  /** Observations that share an evaluation come from different miners. */
  ghost predicate DifferentMiners(obs: seq<Observation>) {
    forall i, j :: 0 <= i < j < |obs| && Shares(obs[i], obs[j]) ==> obs[i].minerId != obs[j].minerId
  }

  /** They carry the same evidence, and rewards within 1e-9. */
  ghost predicate SameEvidence(obs: seq<Observation>) {
    forall i, j :: 0 <= i < |obs| && 0 <= j < |obs| && Shares(obs[i], obs[j]) ==>
      && obs[i].evidenceDigest == obs[j].evidenceDigest
      && obs[i].reward - obs[j].reward <= 0.000000001
  }

  lemma MetadataIs(obs: seq<Observation>)
    ensures ConsistentMetadata(obs) <==> OneMeaningPerTask(obs)
  {
    if ConsistentMetadata(obs) {
      forall i, j | 0 <= i < |obs| && 0 <= j < |obs| && obs[i].taskId == obs[j].taskId
        ensures MetadataOf(obs[i]) == MetadataOf(obs[j])
      {
        if i < j { assert MetadataOf(obs[i]) == MetadataOf(obs[j]); }
      }
    }
  }

  /** The positions of a group. */
  ghost function GroupAt(obs: seq<Observation>, o: Observation): set<nat> {
    set i | 0 <= i < |obs| && Shares(o, obs[i])
  }

  lemma GroupAtSnoc(rest: seq<Observation>, last: Observation, o: Observation)
    ensures |GroupAt(rest + [last], o)| == |GroupAt(rest, o)| + if Shares(o, last) then 1 else 0
  {
    var was, now := GroupAt(rest, o), GroupAt(rest + [last], o);
    assert forall i :: i in was ==> i in now;
    assert forall i :: i in now ==> i in was || (i == |rest| && Shares(o, last));
    assert |rest| !in was;
    if Shares(o, last) { assert now == was + {|rest|}; } else { assert now == was; }
  }

  lemma InGroupIs(o: Observation, x: Observation)
    requires Passing(o)
    ensures InGroup(x, KeyOf(o)) <==> Shares(o, x)
  {
  }

  lemma {:induction false} GroupCount(obs: seq<Observation>, o: Observation)
    requires Passing(o)
    ensures |Group(obs, KeyOf(o))| == |GroupAt(obs, o)|
  {
    if obs != [] {
      var rest, last := obs[..|obs| - 1], obs[|obs| - 1];
      assert obs == rest + [last];
      GroupCount(rest, o);
      GroupSnoc(rest, last, KeyOf(o));
      GroupAtSnoc(rest, last, o);
      InGroupIs(o, last);
      hide Group, GroupAt;
    }
  }

  /** `i` is the first position of the group. */
  ghost predicate FirstOf(obs: seq<Observation>, o: Observation, i: nat) {
    i < |obs| && Shares(o, obs[i]) && forall j :: 0 <= j < i ==> !Shares(o, obs[j])
  }

  lemma {:induction false} GroupFirst(obs: seq<Observation>, o: Observation, i: nat)
    requires Passing(o) && FirstOf(obs, o, i)
    ensures Group(obs, KeyOf(o)) != [] && Group(obs, KeyOf(o))[0] == obs[i]
  {
    InGroupIs(o, obs[0]);
    if i > 0 {
      assert obs[1..][i - 1] == obs[i];
      assert FirstOf(obs[1..], o, i - 1);
      GroupFirst(obs[1..], o, i - 1);
    }
  }

  // ----- acceptance ----------------------------------------------------------

  lemma {:induction false} PlaceInGroup(obs: seq<Observation>, key: CacheKey, i: nat) returns (p: nat)
    requires i < |obs| && InGroup(obs[i], key)
    ensures p < |Group(obs, key)| && Group(obs, key)[p] == obs[i]
  {
    if i == 0 {
      p := 0;
    } else {
      var q := PlaceInGroup(obs[1..], key, i - 1);
      p := if InGroup(obs[0], key) then q + 1 else q;
    }
  }

  lemma GroupStep(obs: seq<Observation>, key: CacheKey)
    ensures obs == [] ==> Group(obs, key) == []
    ensures obs != [] && InGroup(obs[0], key) ==> Group(obs, key) == [obs[0]] + Group(obs[1..], key)
    ensures obs != [] && !InGroup(obs[0], key) ==> Group(obs, key) == Group(obs[1..], key)
  {
  }

  lemma {:induction false} PlacesInGroup(obs: seq<Observation>, key: CacheKey, i: nat, j: nat)
    returns (p: nat, q: nat)
    requires i < j < |obs| && InGroup(obs[i], key) && InGroup(obs[j], key)
    ensures p < q < |Group(obs, key)| && Group(obs, key)[p] == obs[i] && Group(obs, key)[q] == obs[j]
  {
    GroupStep(obs, key);
    hide Group, InGroup;
    if i == 0 {
      var r := PlaceInGroup(obs[1..], key, j - 1);
      p, q := 0, r + 1;
    } else {
      var r, s := PlacesInGroup(obs[1..], key, i - 1, j - 1);
      if InGroup(obs[0], key) { p, q := r + 1, s + 1; } else { p, q := r, s; }
    }
  }

  lemma {:induction false} PlaceOf(obs: seq<Observation>, key: CacheKey, p: nat) returns (i: nat)
    requires p < |Group(obs, key)|
    ensures i < |obs| && InGroup(obs[i], key) && Group(obs, key)[p] == obs[i]
  {
    if InGroup(obs[0], key) && p == 0 {
      i := 0;
    } else {
      var j := PlaceOf(obs[1..], key, if InGroup(obs[0], key) then p - 1 else p);
      i := j + 1;
    }
  }

  lemma {:induction false} PlacesOf(obs: seq<Observation>, key: CacheKey, p: nat, q: nat) returns (i: nat, j: nat)
    requires p < q < |Group(obs, key)|
    ensures i < j < |obs| && InGroup(obs[i], key) && InGroup(obs[j], key)
    ensures Group(obs, key)[p] == obs[i] && Group(obs, key)[q] == obs[j]
  {
    GroupStep(obs, key);
    hide Group, InGroup;
    if InGroup(obs[0], key) && p == 0 {
      var k := PlaceOf(obs[1..], key, q - 1);
      i, j := 0, k + 1;
    } else if InGroup(obs[0], key) {
      var k, l := PlacesOf(obs[1..], key, p - 1, q - 1);
      i, j := k + 1, l + 1;
    } else {
      var k, l := PlacesOf(obs[1..], key, p, q);
      i, j := k + 1, l + 1;
    }
  }

  lemma GroupDistinct(obs: seq<Observation>, key: CacheKey)
    ensures Distinct(Miners(Group(obs, key))) <==>
            forall i, j :: 0 <= i < j < |obs| && InGroup(obs[i], key) && InGroup(obs[j], key) ==>
              obs[i].minerId != obs[j].minerId
  {
    var g := Group(obs, key);
    hide Group, InGroup;
    if Distinct(Miners(g)) {
      forall i, j | 0 <= i < j < |obs| && InGroup(obs[i], key) && InGroup(obs[j], key)
        ensures obs[i].minerId != obs[j].minerId
      {
        var p, q := PlacesInGroup(obs, key, i, j);
        assert Miners(g)[p] != Miners(g)[q];
      }
    } else {
      var p, q :| 0 <= p < q < |Miners(g)| && Miners(g)[p] == Miners(g)[q];
      var i, j := PlacesOf(obs, key, p, q);
    }
  }

  lemma MinersAre(obs: seq<Observation>)
    ensures DifferentMiners(obs) <==> forall o :: o in obs && Passing(o) ==> Distinct(Miners(Group(obs, KeyOf(o))))
  {
    hide Group, Miners, Distinct;
    if DifferentMiners(obs) {
      forall o | o in obs && Passing(o) ensures Distinct(Miners(Group(obs, KeyOf(o)))) {
        GroupDistinct(obs, KeyOf(o));
      }
    }
    if forall o :: o in obs && Passing(o) ==> Distinct(Miners(Group(obs, KeyOf(o)))) {
      forall i, j | 0 <= i < j < |obs| && Shares(obs[i], obs[j]) ensures obs[i].minerId != obs[j].minerId {
        assert obs[i] in obs && Passing(obs[i]);
        GroupDistinct(obs, KeyOf(obs[i]));
      }
    }
  }

  lemma EvidenceIs(obs: seq<Observation>)
    ensures SameEvidence(obs) <==> forall o :: o in obs && Passing(o) ==> ConsistentEvidence(Group(obs, KeyOf(o)))
  {
    if SameEvidence(obs) {
      forall o | o in obs && Passing(o) ensures ConsistentEvidence(Group(obs, KeyOf(o))) {
        forall a, b | a in Group(obs, KeyOf(o)) && b in Group(obs, KeyOf(o))
          ensures a.evidenceDigest == b.evidenceDigest && a.reward - b.reward <= REWARD_SPREAD
        {
          var i :| 0 <= i < |obs| && obs[i] == a;
          var j :| 0 <= j < |obs| && obs[j] == b;
          assert Shares(obs[i], obs[j]);
        }
      }
    }
    if forall o :: o in obs && Passing(o) ==> ConsistentEvidence(Group(obs, KeyOf(o))) {
      forall i, j | 0 <= i < |obs| && 0 <= j < |obs| && Shares(obs[i], obs[j])
        ensures obs[i].evidenceDigest == obs[j].evidenceDigest && obs[i].reward - obs[j].reward <= REWARD_SPREAD
      {
        assert obs[i] in Group(obs, KeyOf(obs[i])) && obs[j] in Group(obs, KeyOf(obs[i]));
      }
    }
  }

  lemma ComplaintIs(group: seq<Observation>)
    ensures Complaint(group) == None <==> Distinct(Miners(group)) && ConsistentEvidence(group)
    ensures Complaint(group) == Some(DuplicateMiner) <==> !Distinct(Miners(group))
    ensures Complaint(group) != Some(InconsistentMetadata)
  {
    hide Distinct, Miners, ConsistentEvidence;
  }

  /** The observations are accepted exactly when every task has one meaning, an evaluation is
      claimed by a miner once, and its claims agree. */
  lemma AcceptedIff(obs: seq<Observation>)
    ensures Deduplicate(obs).Ok? <==> OneMeaningPerTask(obs) && DifferentMiners(obs) && SameEvidence(obs)
  {
    DeduplicateAccepts(obs);
    MetadataIs(obs);
    MinersAre(obs);
    EvidenceIs(obs);
    hide *;
    forall o | o in obs && Passing(o)
      ensures Complaint(Group(obs, KeyOf(o))) == None <==>
              Distinct(Miners(Group(obs, KeyOf(o)))) && ConsistentEvidence(Group(obs, KeyOf(o)))
    {
      ComplaintIs(Group(obs, KeyOf(o)));
    }
  }

  lemma {:induction false} FaultFromGroup(all: seq<Observation>, keys: seq<CacheKey>)
    requires GroupFault(all, keys).Some?
    ensures exists key :: key in keys && Complaint(Group(all, key)) == GroupFault(all, keys)
  {
    hide Complaint, Group;
    if Complaint(Group(all, keys[0])).None? {
      FaultFromGroup(all, keys[1..]);
    } else {
      assert keys[0] in keys;
    }
  }

  /** A refusal names a fault that is there: inconsistent tasks before anything else. */
  lemma RefusedFor(obs: seq<Observation>)
    ensures Deduplicate(obs) == Err(InconsistentMetadata) <==> !OneMeaningPerTask(obs)
    ensures Deduplicate(obs) == Err(DuplicateMiner) ==> !DifferentMiners(obs)
    ensures Deduplicate(obs) == Err(InconsistentEvidence) ==> !SameEvidence(obs)
  {
    MetadataIs(obs);
    MinersAre(obs);
    EvidenceIs(obs);
    var keys := OpenedKeys(obs);
    hide Group, Complaint, GroupFault, OpenedKeys, OneMeaningPerTask, ConsistentMetadata, DifferentMiners, SameEvidence,
         Distinct, Miners, ConsistentEvidence, SplitAll;
    if GroupFault(obs, keys).Some? {
      FaultFromGroup(obs, keys);
      var key :| key in keys && Complaint(Group(obs, key)) == GroupFault(obs, keys);
      ComplaintIs(Group(obs, key));
      OpenedKeyAt(obs, key);
      var o := Group(obs, key)[0];
      assert o in Group(obs, key);
      MemberOfGroup(obs, key, o);
    }
  }

  lemma MemberOfGroup(obs: seq<Observation>, key: CacheKey, o: Observation)
    requires o in Group(obs, key)
    ensures o in obs && Passing(o) && KeyOf(o) == key
  {
  }

  // ----- the result ----------------------------------------------------------

  /** The part of one observation: of `n` that share an evaluation, one n-th of the reward of
      the first. */
  ghost predicate PartOf(obs: seq<Observation>, o: Observation, r: Observation) {
    exists i: nat :: FirstOf(obs, o, i) && |GroupAt(obs, o)| > 0
              && r == o.(reward := obs[i].reward / |GroupAt(obs, o)| as real,
                         duplicateGroupSize := |GroupAt(obs, o)|)
  }

  lemma {:induction false} SomeFirst(obs: seq<Observation>, o: Observation) returns (i: nat)
    requires o in obs && Passing(o)
    ensures FirstOf(obs, o, i)
  {
    if Shares(o, obs[0]) {
      i := 0;
    } else {
      assert obs == [obs[0]] + obs[1..];
      assert o in obs[1..];
      var j := SomeFirst(obs[1..], o);
      i := j + 1;
      assert forall k :: 0 < k < i ==> obs[k] == obs[1..][k - 1];
    }
  }

  lemma SplitIsPart(obs: seq<Observation>, o: Observation)
    requires o in obs && Passing(o)
    ensures PartOf(obs, o, Split(obs, o))
  {
    var i := SomeFirst(obs, o);
    GroupFirst(obs, o, i);
    GroupCount(obs, o);
    var group := Group(obs, KeyOf(o));
    assert Split(obs, o)
        == o.(reward := group[0].reward / |group| as real, duplicateGroupSize := |group|);
    hide Group, GroupAt, FirstOf, Split;
  }

  /** Accepted observations come back in their places: untouched unless they passed, and with
      their part of the evaluation's reward if they did. */
  lemma PartsReturned(obs: seq<Observation>)
    requires Deduplicate(obs).Ok?
    ensures var r := Deduplicate(obs).value;
            && |r| == |obs|
            && forall i :: 0 <= i < |obs| ==>
                 if obs[i].available && obs[i].compliant && obs[i].correct then PartOf(obs, obs[i], r[i])
                 else r[i] == obs[i]
  {
    var r := Deduplicate(obs).value;
    assert r == SplitAll(obs, obs);
    hide Deduplicate, PartOf, Split;
    forall i | 0 <= i < |obs|
      ensures if Passing(obs[i]) then PartOf(obs, obs[i], r[i]) else r[i] == obs[i]
    {
      assert obs[i] in obs;
      if Passing(obs[i]) { SplitIsPart(obs, obs[i]); } else { NotSplit(obs, obs[i]); }
    }
  }

  lemma NotSplit(obs: seq<Observation>, o: Observation)
    requires !Passing(o)
    ensures Split(obs, o) == o
  {
  }
}
