/** Evaluate-once accounting: `deduplicate_task_rewards` (planrace/scoring_v2.py:513-555).
    Every passing observation of one strategy on one task gets an equal part of a
    single evaluation's reward. */
module Deduplication {
  import opened Statistics
  import opened Wrappers
  import Text

  datatype Observation = Observation(
    minerId: string,
    epoch: nat,
    family: string,
    taskId: string,
    taskCommitment: string,
    evidenceDigest: string,
    reward: real,
    available: bool,
    correct: bool,
    compliant: bool,
    strategyDigest: string,
    behaviorDigest: string,
    duplicateGroupSize: nat)

  predicate Passing(o: Observation) {
    o.available && o.compliant && o.correct
  }

  /** What the sandbox cache is keyed by. */
  datatype CacheKey = CacheKey(taskCommitment: string, strategyDigest: string)

  function KeyOf(o: Observation): CacheKey {
    CacheKey(o.taskCommitment, o.strategyDigest)
  }

  predicate InGroup(o: Observation, key: CacheKey) {
    Passing(o) && KeyOf(o) == key
  }

  datatype Metadata = Metadata(epoch: nat, family: string, taskCommitment: string)

  function MetadataOf(o: Observation): Metadata {
    Metadata(o.epoch, o.family, o.taskCommitment)
  }

  datatype DedupError = InconsistentMetadata | DuplicateMiner | InconsistentEvidence

  const REWARD_SPREAD: real := 0.000000001   // 1e-9

  function Group(obs: seq<Observation>, key: CacheKey): (g: seq<Observation>)
    ensures forall o :: o in g <==> o in obs && InGroup(o, key)
  {
    if obs == [] then []
    else if InGroup(obs[0], key) then [obs[0]] + Group(obs[1..], key)
    else Group(obs[1..], key)
  }

  function Miners(group: seq<Observation>): (ids: seq<string>)
    ensures |ids| == |group|
    ensures forall i :: 0 <= i < |ids| ==> ids[i] == group[i].minerId
  {
    if group == [] then [] else [group[0].minerId] + Miners(group[1..])
  }

  predicate Distinct(ids: seq<string>) {
    forall i, j :: 0 <= i < j < |ids| ==> ids[i] != ids[j]
  }

  lemma {:induction false} DistinctCardinality(ids: seq<string>)
    requires Distinct(ids)
    ensures |set id | id in ids| == |ids|
  {
    if ids != [] {
      var n := |ids| - 1;
      assert ids == ids[..n] + [ids[n]];
      DistinctCardinality(ids[..n]);
      assert (set id | id in ids) == (set id | id in ids[..n]) + {ids[n]};
    }
  }

  predicate ConsistentMetadata(obs: seq<Observation>) {
    forall i, j :: 0 <= i < j < |obs| && obs[i].taskId == obs[j].taskId
      ==> MetadataOf(obs[i]) == MetadataOf(obs[j])
  }

  /** One evidence digest, and rewards within the spread. */
  predicate ConsistentEvidence(group: seq<Observation>) {
    forall a, b :: a in group && b in group ==>
      a.evidenceDigest == b.evidenceDigest && a.reward - b.reward <= REWARD_SPREAD
  }

  /** The cache keys in the order in which their first passing observation arrives. */
  function OpenedKeys(obs: seq<Observation>): seq<CacheKey> {
    if obs == [] then []
    else
      var last, keys := obs[|obs| - 1], OpenedKeys(obs[..|obs| - 1]);
      if Passing(last) && KeyOf(last) !in keys then keys + [KeyOf(last)] else keys
  }

  lemma {:induction false} OpenedKeyAt(obs: seq<Observation>, key: CacheKey)
    ensures key in OpenedKeys(obs) <==> Group(obs, key) != []
  {
    if obs != [] {
      var rest, last := obs[..|obs| - 1], obs[|obs| - 1];
      assert obs == rest + [last];
      OpenedKeyAt(rest, key);
      GroupSnoc(rest, last, key);
    }
  }

  function Complaint(group: seq<Observation>): Option<DedupError> {
    if !Distinct(Miners(group)) then Some(DuplicateMiner)
    else if !ConsistentEvidence(group) then Some(InconsistentEvidence)
    else None
  }

  /** The first complaint, in the order in which groups were opened. */
  function GroupFault(all: seq<Observation>, keys: seq<CacheKey>): Option<DedupError> {
    if keys == [] then None
    else if Complaint(Group(all, keys[0])).Some? then Complaint(Group(all, keys[0]))
    else GroupFault(all, keys[1..])
  }

  /** `replace(member, reward=rewards[0] / group_size, duplicate_group_size=group_size)`. */
  function Split(all: seq<Observation>, o: Observation): Observation
    requires Passing(o) ==> o in all
  {
    if !Passing(o) then o
    else
      var group := Group(all, KeyOf(o));
      assert o in group;
      o.(reward := Over(group[0].reward, |group| as real), duplicateGroupSize := |group|)
  }

  function SplitAll(all: seq<Observation>, obs: seq<Observation>): (r: seq<Observation>)
    requires forall o :: o in obs ==> o in all
    ensures |r| == |obs|
    ensures forall i :: 0 <= i < |r| ==> r[i] == Split(all, obs[i])
  {
    if obs == [] then [] else [Split(all, obs[0])] + SplitAll(all, obs[1..])
  }

  /** The specification, in the order of the input; the source sorts this list. */
  function Deduplicate(obs: seq<Observation>): Result<seq<Observation>, DedupError> {
    if !ConsistentMetadata(obs) then Err(InconsistentMetadata)
    else match GroupFault(obs, OpenedKeys(obs))
      case Some(e) => Err(e)
      case None => Ok(SplitAll(obs, obs))
  }

  lemma {:induction false} GroupFaultNone(all: seq<Observation>, keys: seq<CacheKey>)
    ensures GroupFault(all, keys) == None <==>
            forall key :: key in keys ==> Complaint(Group(all, key)) == None
  {
    if keys != [] {
      GroupFaultNone(all, keys[1..]);
      assert keys == [keys[0]] + keys[1..];
      assert keys[0] in keys;
    }
  }

  /** Acceptance, free of the order of groups. */
  lemma DeduplicateAccepts(obs: seq<Observation>)
    ensures Deduplicate(obs).Ok? <==>
            && ConsistentMetadata(obs)
            && forall o :: o in obs && Passing(o) ==> Complaint(Group(obs, KeyOf(o))) == None
  {
    var keys := OpenedKeys(obs);
    GroupFaultNone(obs, keys);
    if ConsistentMetadata(obs) && GroupFault(obs, keys) == None {
      forall o | o in obs && Passing(o) ensures Complaint(Group(obs, KeyOf(o))) == None {
        OpenedKeyAt(obs, KeyOf(o));
        assert o in Group(obs, KeyOf(o));
      }
    }
    if forall o :: o in obs && Passing(o) ==> Complaint(Group(obs, KeyOf(o))) == None {
      forall key | key in keys ensures Complaint(Group(obs, key)) == None {
        OpenedKeyAt(obs, key);
        var o := Group(obs, key)[0];
        assert o in Group(obs, key) && KeyOf(o) == key;
      }
    }
  }

  /** The total reward that a sequence of observations carries for one cache key. */
  function GroupReward(obs: seq<Observation>, key: CacheKey): real {
    if obs == [] then 0.0
    else (if InGroup(obs[0], key) then obs[0].reward else 0.0) + GroupReward(obs[1..], key)
  }

  lemma {:induction false} EqualParts(obs: seq<Observation>, key: CacheKey, part: real)
    requires forall o :: o in obs && InGroup(o, key) ==> o.reward == part
    ensures GroupReward(obs, key) == Times(|Group(obs, key)| as real, part)
  {
    if obs != [] {
      EqualParts(obs[1..], key, part);
      assert obs[0] in obs;
      if InGroup(obs[0], key) { ScaleByCount(|Group(obs, key)|, part); }
    }
  }

  lemma {:induction false} SplitKeepsGroups(all: seq<Observation>, obs: seq<Observation>, key: CacheKey)
    requires forall o :: o in obs ==> o in all
    ensures |Group(SplitAll(all, obs), key)| == |Group(obs, key)|
  {
    if obs != [] {
      SplitKeepsGroups(all, obs[1..], key);
      assert SplitAll(all, obs)[1..] == SplitAll(all, obs[1..]);
      assert InGroup(Split(all, obs[0]), key) <==> InGroup(obs[0], key);
    }
  }

  lemma CountedParts(x: real, n: nat)
    requires n > 0
    ensures Times(n as real, Over(x, n as real)) == x
  {
    OverTimes(x, n as real);
  }

  /** Splitting conserves: however many identities share a strategy, together they
      carry the reward of the one cached evaluation. */
  lemma DeduplicationConserves(obs: seq<Observation>, key: CacheKey)
    requires Deduplicate(obs).Ok? && Group(obs, key) != []
    ensures GroupReward(Deduplicate(obs).value, key) == Group(obs, key)[0].reward
  {
    var group, r := Group(obs, key), SplitAll(obs, obs);
    var part := Over(group[0].reward, |group| as real);
    forall o | o in r && InGroup(o, key) ensures o.reward == part {
      var i :| 0 <= i < |r| && r[i] == o;
      assert o == Split(obs, obs[i]);
    }
    hide Times, Over;
    EqualParts(r, key, part);
    SplitKeepsGroups(obs, obs, key);
    CountedParts(group[0].reward, |group|);
  }

  // ----- the loops -----------------------------------------------------------

  lemma {:induction false} GroupSnoc(obs: seq<Observation>, o: Observation, key: CacheKey)
    ensures Group(obs + [o], key) == Group(obs, key) + if InGroup(o, key) then [o] else []
  {
    if obs == [] {
      assert obs + [o] == [o];
    } else {
      GroupSnoc(obs[1..], o, key);
      assert (obs + [o])[1..] == obs[1..] + [o];
    }
  }

  /** Observations that are not in a group, or whose group is among `done`. */
  function Selected(obs: seq<Observation>, done: set<CacheKey>): (r: seq<Observation>)
    ensures forall o :: o in r ==> o in obs
  {
    if obs == [] then []
    else if !Passing(obs[0]) || KeyOf(obs[0]) in done then [obs[0]] + Selected(obs[1..], done)
    else Selected(obs[1..], done)
  }

  lemma {:induction false} SelectedSnoc(obs: seq<Observation>, o: Observation)
    ensures Selected(obs + [o], {}) == Selected(obs, {}) + if Passing(o) then [] else [o]
  {
    if obs == [] {
      assert obs + [o] == [o];
    } else {
      SelectedSnoc(obs[1..], o);
      assert (obs + [o])[1..] == obs[1..] + [o];
    }
  }

  lemma SelectedCons(o: Observation, rest: seq<Observation>, done: set<CacheKey>)
    ensures Selected([o] + rest, done)
         == if !Passing(o) || KeyOf(o) in done then [o] + Selected(rest, done) else Selected(rest, done)
  {
    assert ([o] + rest)[1..] == rest;
  }

  lemma GroupCons(o: Observation, rest: seq<Observation>, key: CacheKey)
    ensures Group([o] + rest, key) == if InGroup(o, key) then [o] + Group(rest, key) else Group(rest, key)
  {
    assert ([o] + rest)[1..] == rest;
  }

  lemma {:induction false} SelectedMore(
      all: seq<Observation>, obs: seq<Observation>, done: set<CacheKey>, key: CacheKey)
    requires key !in done && forall o :: o in obs ==> o in all
    ensures multiset(SplitAll(all, Selected(obs, done + {key})))
         == multiset(SplitAll(all, Selected(obs, done))) + multiset(SplitAll(all, Group(obs, key)))
  {
    if obs == [] {
      hide Split, InGroup, Passing;
    } else {
      var o, rest := obs[0], obs[1..];
      assert obs == [o] + rest && o in obs;
      SelectedMore(all, rest, done, key);
      assert InGroup(o, key) <==> Passing(o) && KeyOf(o) == key;
      SelectedMoreCons(all, o, rest, done, key);
    }
  }

  lemma SelectedMoreCons(
      all: seq<Observation>, o: Observation, rest: seq<Observation>, done: set<CacheKey>, key: CacheKey)
    requires key !in done && o in all && forall x :: x in rest ==> x in all
    requires multiset(SplitAll(all, Selected(rest, done + {key})))
          == multiset(SplitAll(all, Selected(rest, done))) + multiset(SplitAll(all, Group(rest, key)))
    ensures forall x :: x in [o] + rest ==> x in all
    ensures multiset(SplitAll(all, Selected([o] + rest, done + {key})))
         == multiset(SplitAll(all, Selected([o] + rest, done))) + multiset(SplitAll(all, Group([o] + rest, key)))
  {
    var s := Split(all, o);
    var more := SplitAll(all, Selected(rest, done + {key}));
    var less, group := SplitAll(all, Selected(rest, done)), SplitAll(all, Group(rest, key));
    assert InGroup(o, key) <==> Passing(o) && KeyOf(o) == key;
    hide *;
    SelectedCons(o, rest, done + {key});
    SelectedCons(o, rest, done);
    GroupCons(o, rest, key);
    if !Passing(o) || KeyOf(o) in done {
      SplitCons(all, o, Selected(rest, done + {key}));
      SplitCons(all, o, Selected(rest, done));
      OneMoreLeft(s, more, less, group);
    } else if KeyOf(o) == key {
      SplitCons(all, o, Selected(rest, done + {key}));
      SplitCons(all, o, Group(rest, key));
      OneMoreRight(s, more, less, group);
    }
  }

  lemma OneMoreLeft(s: Observation, more: seq<Observation>, less: seq<Observation>, group: seq<Observation>)
    requires multiset(more) == multiset(less) + multiset(group)
    ensures multiset([s] + more) == multiset([s] + less) + multiset(group)
  {
  }

  lemma OneMoreRight(s: Observation, more: seq<Observation>, less: seq<Observation>, group: seq<Observation>)
    requires multiset(more) == multiset(less) + multiset(group)
    ensures multiset([s] + more) == multiset(less) + multiset([s] + group)
  {
  }

  lemma SplitCons(all: seq<Observation>, o: Observation, rest: seq<Observation>)
    requires o in all && forall x :: x in rest ==> x in all
    ensures SplitAll(all, [o] + rest) == [Split(all, o)] + SplitAll(all, rest)
    ensures multiset(SplitAll(all, [o] + rest)) == multiset{Split(all, o)} + multiset(SplitAll(all, rest))
  {
    assert ([o] + rest)[1..] == rest;
  }

  lemma {:induction false} SelectedAll(obs: seq<Observation>, done: set<CacheKey>)
    requires forall o :: o in obs && Passing(o) ==> KeyOf(o) in done
    ensures Selected(obs, done) == obs
  {
    if obs != [] { SelectedAll(obs[1..], done); }
  }

  lemma {:induction false} SelectedNone(all: seq<Observation>, obs: seq<Observation>)
    requires forall o :: o in obs ==> o in all
    ensures SplitAll(all, Selected(obs, {})) == Selected(obs, {})
  {
    if obs != [] {
      SelectedNone(all, obs[1..]);
      if !Passing(obs[0]) { SplitCons(all, obs[0], Selected(obs[1..], {})); }
    }
  }

  /** The generator expression over the members of one group. */
  function ShareOut(members: seq<Observation>, reward: real, size: nat): seq<Observation> {
    if members == [] then []
    else [members[0].(reward := reward, duplicateGroupSize := size)] + ShareOut(members[1..], reward, size)
  }

  lemma {:induction false} ShareOutIsSplit(all: seq<Observation>, members: seq<Observation>, key: CacheKey)
    requires forall o :: o in members ==> o in all && InGroup(o, key)
    requires Group(all, key) != []
    ensures ShareOut(members, Over(Group(all, key)[0].reward, |Group(all, key)| as real), |Group(all, key)|)
         == SplitAll(all, members)
  {
    if members != [] {
      ShareOutIsSplit(all, members[1..], key);
      assert InGroup(members[0], key);
    }
  }

  /** The sort key `(miner_id, epoch)`. */
  predicate KeyLessEq(a: Observation, b: Observation) {
    if a.minerId == b.minerId then a.epoch <= b.epoch else Text.LessEq(a.minerId, b.minerId)
  }

  function InsertByKey(o: Observation, s: seq<Observation>): seq<Observation> {
    if s == [] || KeyLessEq(o, s[0]) then [o] + s else [s[0]] + InsertByKey(o, s[1..])
  }

  function SortByKey(s: seq<Observation>): seq<Observation> {
    if s == [] then [] else InsertByKey(s[0], SortByKey(s[1..]))
  }

  ghost predicate SortedByKey(s: seq<Observation>) {
    forall i :: 0 <= i < |s| - 1 ==> KeyLessEq(s[i], s[i + 1])
  }

  lemma {:induction false} InsertByKeyCorrect(o: Observation, s: seq<Observation>)
    requires SortedByKey(s)
    ensures SortedByKey(InsertByKey(o, s))
    ensures multiset(InsertByKey(o, s)) == multiset(s) + multiset{o}
    ensures InsertByKey(o, s)[0] == o || (s != [] && InsertByKey(o, s)[0] == s[0])
  {
    if s != [] && !KeyLessEq(o, s[0]) {
      Text.Total(o.minerId, s[0].minerId);
      InsertByKeyCorrect(o, s[1..]);
      assert s == [s[0]] + s[1..];
    }
  }

  lemma {:induction false} SortByKeyCorrect(s: seq<Observation>)
    ensures SortedByKey(SortByKey(s))
    ensures multiset(SortByKey(s)) == multiset(s)
  {
    if s != [] {
      SortByKeyCorrect(s[1..]);
      InsertByKeyCorrect(s[0], SortByKey(s[1..]));
      assert s == [s[0]] + s[1..];
    }
  }

  /** State of the first loop after some prefix of the observations. */
  ghost predicate Grouped(
      prefix: seq<Observation>, groups: map<CacheKey, seq<Observation>>, order: seq<CacheKey>,
      untouched: seq<Observation>)
  {
    && order == OpenedKeys(prefix)
    && groups.Keys == (set key | key in order)
    && (forall key :: key in groups ==> groups[key] == Group(prefix, key))
    && untouched == Selected(prefix, {})
  }

  lemma GroupedUntouched(
      prefix: seq<Observation>, groups: map<CacheKey, seq<Observation>>, order: seq<CacheKey>,
      untouched: seq<Observation>, o: Observation)
    requires Grouped(prefix, groups, order, untouched) && !Passing(o)
    ensures Grouped(prefix + [o], groups, order, untouched + [o])
  {
    assert (prefix + [o])[..|prefix|] == prefix;
    SelectedSnoc(prefix, o);
    forall key | key in groups ensures groups[key] == Group(prefix + [o], key) {
      GroupSnoc(prefix, o, key);
    }
  }

  lemma GroupedJoined(
      prefix: seq<Observation>, groups: map<CacheKey, seq<Observation>>, order: seq<CacheKey>,
      untouched: seq<Observation>, o: Observation)
    requires Grouped(prefix, groups, order, untouched) && Passing(o) && KeyOf(o) in groups
    ensures Grouped(prefix + [o], groups[KeyOf(o) := groups[KeyOf(o)] + [o]], order, untouched)
  {
    assert (prefix + [o])[..|prefix|] == prefix;
    SelectedSnoc(prefix, o);
    var groups' := groups[KeyOf(o) := groups[KeyOf(o)] + [o]];
    forall key | key in groups' ensures groups'[key] == Group(prefix + [o], key) {
      GroupSnoc(prefix, o, key);
    }
  }

  lemma GroupedOpened(
      prefix: seq<Observation>, groups: map<CacheKey, seq<Observation>>, order: seq<CacheKey>,
      untouched: seq<Observation>, o: Observation)
    requires Grouped(prefix, groups, order, untouched) && Passing(o) && KeyOf(o) !in groups
    ensures Grouped(prefix + [o], groups[KeyOf(o) := [o]], order + [KeyOf(o)], untouched)
  {
    assert (prefix + [o])[..|prefix|] == prefix;
    SelectedSnoc(prefix, o);
    OpenedKeyAt(prefix, KeyOf(o));
    var groups' := groups[KeyOf(o) := [o]];
    forall key | key in groups' ensures groups'[key] == Group(prefix + [o], key) {
      GroupSnoc(prefix, o, key);
    }
  }

  ghost predicate MetadataSeen(prefix: seq<Observation>, seen: map<string, Metadata>) {
    && (forall i :: 0 <= i < |prefix| ==>
          prefix[i].taskId in seen && seen[prefix[i].taskId] == MetadataOf(prefix[i]))
    && (forall id :: id in seen ==> exists i :: 0 <= i < |prefix| && prefix[i].taskId == id)
  }

  lemma MetadataSnoc(prefix: seq<Observation>, seen: map<string, Metadata>, o: Observation)
    requires MetadataSeen(prefix, seen) && (o.taskId in seen ==> seen[o.taskId] == MetadataOf(o))
    requires ConsistentMetadata(prefix)
    ensures MetadataSeen(prefix + [o], seen[o.taskId := MetadataOf(o)])
    ensures ConsistentMetadata(prefix + [o])
  {
    var next, seen' := prefix + [o], seen[o.taskId := MetadataOf(o)];
    forall id | id in seen' ensures exists i :: 0 <= i < |next| && next[i].taskId == id {
      if id == o.taskId {
        assert next[|prefix|].taskId == id;
      } else {
        var i :| 0 <= i < |prefix| && prefix[i].taskId == id;
        assert next[i].taskId == id;
      }
    }
  }

  lemma MetadataClash(obs: seq<Observation>, i: nat, seen: map<string, Metadata>)
    requires i < |obs| && MetadataSeen(obs[..i], seen)
    requires obs[i].taskId in seen && seen[obs[i].taskId] != MetadataOf(obs[i])
    ensures !ConsistentMetadata(obs)
  {
    var j :| 0 <= j < |obs[..i]| && obs[..i][j].taskId == obs[i].taskId;
    assert obs[..i][j] == obs[j];
  }

  /** The first loop: metadata check and grouping. */
  method GroupObservations(obs: seq<Observation>)
    returns (ok: bool, groups: map<CacheKey, seq<Observation>>, order: seq<CacheKey>, untouched: seq<Observation>)
    ensures ok <==> ConsistentMetadata(obs)
    ensures ok ==> Grouped(obs, groups, order, untouched)
  {
    hide Grouped, MetadataSeen, ConsistentMetadata;
    var taskMetadata: map<string, Metadata> := map[];
    groups, order, untouched := map[], [], [];
    NothingGrouped();
    for i := 0 to |obs|
      invariant MetadataSeen(obs[..i], taskMetadata) && ConsistentMetadata(obs[..i])
      invariant Grouped(obs[..i], groups, order, untouched)
    {
      var o := obs[i];
      assert obs[..i + 1] == obs[..i] + [o];
      if o.taskId in taskMetadata && taskMetadata[o.taskId] != MetadataOf(o) {
        MetadataClash(obs, i, taskMetadata);
        return false, groups, order, untouched;
      }
      MetadataSnoc(obs[..i], taskMetadata, o);
      taskMetadata := taskMetadata[o.taskId := MetadataOf(o)];
      if Passing(o) {
        if KeyOf(o) in groups {
          GroupedJoined(obs[..i], groups, order, untouched, o);
          groups := groups[KeyOf(o) := groups[KeyOf(o)] + [o]];
        } else {
          GroupedOpened(obs[..i], groups, order, untouched, o);
          groups, order := groups[KeyOf(o) := [o]], order + [KeyOf(o)];
        }
      } else {
        GroupedUntouched(obs[..i], groups, order, untouched, o);
        untouched := untouched + [o];
      }
    }
    assert obs[..|obs|] == obs;
    ok := true;
  }

  lemma NothingGrouped()
    ensures Grouped([], map[], [], []) && MetadataSeen([], map[]) && ConsistentMetadata([])
  {
  }

  lemma GroupFaultSnoc(all: seq<Observation>, keys: seq<CacheKey>, j: nat)
    requires j < |keys| && forall i :: 0 <= i < j ==> Complaint(Group(all, keys[i])) == None
    ensures Complaint(Group(all, keys[j])).Some? ==> GroupFault(all, keys) == Complaint(Group(all, keys[j]))
  {
    if j > 0 { GroupFaultSnoc(all, keys[1..], j - 1); }
  }

  lemma {:induction false} OpenedKeysDistinct(obs: seq<Observation>)
    ensures forall i, j :: 0 <= i < j < |OpenedKeys(obs)| ==> OpenedKeys(obs)[i] != OpenedKeys(obs)[j]
  {
    if obs != [] { OpenedKeysDistinct(obs[..|obs| - 1]); }
  }

  function KeySet(keys: seq<CacheKey>): set<CacheKey> {
    set key | key in keys
  }

  lemma KeySetSnoc(keys: seq<CacheKey>, j: nat)
    requires j < |keys| && forall i, k :: 0 <= i < k < |keys| ==> keys[i] != keys[k]
    ensures KeySet(keys[..j + 1]) == KeySet(keys[..j]) + {keys[j]}
    ensures keys[j] !in KeySet(keys[..j])
  {
    assert keys[..j + 1] == keys[..j] + [keys[j]];
  }

  lemma SelectedByKeys(obs: seq<Observation>)
    ensures Selected(obs, KeySet(OpenedKeys(obs))) == obs
  {
    forall o | o in obs && Passing(o) ensures KeyOf(o) in KeySet(OpenedKeys(obs)) {
      OpenedKeyAt(obs, KeyOf(o));
      assert o in Group(obs, KeyOf(o));
    }
    SelectedAll(obs, KeySet(OpenedKeys(obs)));
  }

  /** The list before it is sorted: the untouched observations, then group after group. */
  function Collected(obs: seq<Observation>, keys: seq<CacheKey>): seq<Observation> {
    if keys == [] then Selected(obs, {})
    else Collected(obs, keys[..|keys| - 1]) + SplitAll(obs, Group(obs, keys[|keys| - 1]))
  }

  /** State of the second loop: the untouched observations and the groups `order[..j]`. */
  ghost predicate Merged(obs: seq<Observation>, order: seq<CacheKey>, j: nat, merged: seq<Observation>)
    requires j <= |order|
  {
    && (forall i :: 0 <= i < j ==> Complaint(Group(obs, order[i])) == None)
    && merged == Collected(obs, order[..j])
    && multiset(merged) == multiset(SplitAll(obs, Selected(obs, KeySet(order[..j]))))
  }

  lemma MergedStart(obs: seq<Observation>, order: seq<CacheKey>)
    ensures Merged(obs, order, 0, Selected(obs, {}))
  {
    SelectedNone(obs, obs);
    assert KeySet(order[..0]) == {};
  }

  lemma MergedStep(
      obs: seq<Observation>, order: seq<CacheKey>, j: nat, merged: seq<Observation>, share: seq<Observation>)
    requires j < |order| && order == OpenedKeys(obs) && Merged(obs, order, j, merged)
    requires Complaint(Group(obs, order[j])) == None
    requires share == SplitAll(obs, Group(obs, order[j]))
    ensures Merged(obs, order, j + 1, merged + share)
  {
    OpenedKeysDistinct(obs);
    KeySetSnoc(order, j);
    SelectedMore(obs, obs, KeySet(order[..j]), order[j]);
    CollectedNext(obs, order, j);
  }

  lemma CollectedNext(obs: seq<Observation>, order: seq<CacheKey>, j: nat)
    requires j < |order|
    ensures Collected(obs, order[..j + 1]) == Collected(obs, order[..j]) + SplitAll(obs, Group(obs, order[j]))
  {
    hide Group, SplitAll, Selected;
    assert order[..j + 1][..j] == order[..j];
  }

  lemma MergedEnd(obs: seq<Observation>, order: seq<CacheKey>, merged: seq<Observation>)
    requires order == OpenedKeys(obs) && Merged(obs, order, |order|, merged)
    ensures GroupFault(obs, order) == None && multiset(merged) == multiset(SplitAll(obs, obs))
    ensures merged == Collected(obs, order)
  {
    assert order[..|order|] == order;
    SelectedByKeys(obs);
    GroupFaultNone(obs, order);
  }

  lemma MergedFault(obs: seq<Observation>, order: seq<CacheKey>, j: nat, merged: seq<Observation>)
    requires j < |order| && Merged(obs, order, j, merged) && Complaint(Group(obs, order[j])).Some?
    ensures GroupFault(obs, order) == Complaint(Group(obs, order[j]))
  {
    GroupFaultSnoc(obs, order, j);
  }

  /** The second loop: each group is checked and split. */
  method ShareGroups(
      obs: seq<Observation>, groups: map<CacheKey, seq<Observation>>, order: seq<CacheKey>,
      untouched: seq<Observation>)
    returns (r: Result<seq<Observation>, DedupError>)
    requires Grouped(obs, groups, order, untouched)
    ensures r.Err? ==> GroupFault(obs, OpenedKeys(obs)) == Some(r.error)
    ensures r.Ok? ==> GroupFault(obs, OpenedKeys(obs)) == None
                      && multiset(r.value) == multiset(SplitAll(obs, obs))
                      && r.value == Collected(obs, OpenedKeys(obs))
  {
    var merged := untouched;
    MergedStart(obs, order);
    assert order == OpenedKeys(obs) && untouched == Selected(obs, {});
    hide *;
    for j := 0 to |order|
      invariant Merged(obs, order, j, merged)
    {
      GroupedMembers(obs, groups, order, untouched, j);
      var members := groups[order[j]];
      match Complaint(members) {
        case Some(e) =>
          MergedFault(obs, order, j, merged);
          return Err(e);
        case None =>
      }
      var shared := Over(members[0].reward, |members| as real);
      ShareOutIsSplit(obs, members, order[j]);
      MergedStep(obs, order, j, merged, ShareOut(members, shared, |members|));
      merged := merged + ShareOut(members, shared, |members|);
    }
    MergedEnd(obs, order, merged);
    r := Ok(merged);
  }

  lemma GroupedMembers(
      obs: seq<Observation>, groups: map<CacheKey, seq<Observation>>, order: seq<CacheKey>,
      untouched: seq<Observation>, j: nat)
    requires Grouped(obs, groups, order, untouched) && j < |order|
    ensures order[j] in groups && groups[order[j]] == Group(obs, order[j]) != []
  {
    assert order[j] in order;
    OpenedKeyAt(obs, order[j]);
  }

  /** `deduplicate_task_rewards`: the specified observations, stably sorted by miner and
      epoch. */
  method DeduplicateTaskRewards(obs: seq<Observation>)
    returns (r: Result<seq<Observation>, DedupError>)
    ensures r.Err? ==> r == Deduplicate(obs)
    ensures r.Ok? ==>
              && Deduplicate(obs).Ok?
              && multiset(r.value) == multiset(Deduplicate(obs).value)
              && SortedByKey(r.value)
              && r.value == SortByKey(Collected(obs, OpenedKeys(obs)))
  {
    var ok, groups, order, untouched := GroupObservations(obs);
    if !ok { return Err(InconsistentMetadata); }
    r := ShareGroups(obs, groups, order, untouched);
    if r.Ok? {
      SortByKeyCorrect(r.value);
      r := Ok(SortByKey(r.value));
    }
  }
}
