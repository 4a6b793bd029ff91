/** What a task commits to (planrace/taskgen_v2.py:86-272), level by level and field by field:
    the tree over the hidden fixtures, when a task is created and what it holds, and when an
    audit passes. */
module CommitmentMeaning {
  import opened Wrappers
  import opened Json
  import opened Hashing
  import opened Merkle
  import opened Commitment

  // ----- the tree ------------------------------------------------------------

  /** The digest that binds a fixture to its index. */
  ghost predicate IsLeaf(h: Digester, index: nat, f: Fixture, digest: string) {
    digest == h("planrace/2:hidden-fixture-leaf",
                JObject([
                  Field("fixture", JObject([
                    Field("content_digest", JString(f.contentDigest)),
                    Field("database_file_digest",
                          if f.databaseFileDigest.None? then JNull else JString(f.databaseFileDigest.value)),
                    Field("fixture_id", JString(f.fixtureId)),
                    Field("parameter_set_digest", JString(f.parameterSetDigest)),
                    Field("row_count", JInt(f.rowCount))])),
                  Field("index", JInt(index))]))
  }

  ghost predicate IsNode(h: Digester, left: string, right: string, digest: string) {
    digest == h("planrace/2:hidden-fixture-node",
                JObject([Field("left", JString(left)), Field("right", JString(right))]))
  }

  /** `above` holds the nodes of adjacent digests of `level`; a lone last one pairs with
      itself. */
  ghost predicate IsAbove(h: Digester, level: seq<string>, above: seq<string>) {
    && 2 * |above| >= |level| > 2 * |above| - 2
    && forall j :: 0 <= j < |above| ==>
         IsNode(h, level[2 * j], if 2 * j + 1 < |level| then level[2 * j + 1] else level[2 * j], above[j])
  }

  /** The levels of the tree, from the fixtures to the root. */
  ghost predicate IsTree(h: Digester, fixtures: seq<Fixture>, levels: seq<seq<string>>) {
    && levels != [] && |levels[0]| == |fixtures| && |levels[|levels| - 1]| == 1
    && (forall i :: 0 <= i < |fixtures| ==> IsLeaf(h, i, fixtures[i], levels[0][i]))
    && (forall k :: 0 <= k < |levels| - 1 ==> |levels[k]| > 1 && IsAbove(h, levels[k], levels[k + 1]))
  }

  lemma LeafIs(h: Digester, index: nat, f: Fixture, digest: string)
    ensures IsLeaf(h, index, f, digest) <==> digest == Leaf(h, index, f)
  {
  }

  lemma NodeIs(h: Digester, left: string, right: string, digest: string)
    ensures IsNode(h, left, right, digest) <==> digest == Node(h, left, right)
  {
  }

  lemma AboveMeans(h: Digester, level: seq<string>, above: seq<string>)
    requires level != [] && IsAbove(h, level, above)
    ensures above == Above(h, level)
  {
    hide IsNode, Node;
    forall j | 0 <= j < |above|
      ensures above[j] == Node(h, Padded(level)[2 * j], Padded(level)[2 * j + 1])
    {
      NodeIs(h, level[2 * j], if 2 * j + 1 < |level| then level[2 * j + 1] else level[2 * j], above[j]);
    }
    AboveIs(h, level, above);
  }

  lemma {:induction false} RootOfLevels(h: Digester, levels: seq<seq<string>>, k: nat)
    requires k < |levels| && |levels[|levels| - 1]| == 1
    requires forall i :: 0 <= i < |levels| - 1 ==> |levels[i]| > 1 && IsAbove(h, levels[i], levels[i + 1])
    ensures levels[k] != [] && Root(h, levels[k]) == levels[|levels| - 1][0]
    decreases |levels| - k
  {
    hide IsAbove, Above;
    if k < |levels| - 1 {
      RootOfLevels(h, levels, k + 1);
      AboveMeans(h, levels[k], levels[k + 1]);
    }
  }

  /** The root is the single digest at the top of the levels. */
  lemma MerkleRootMeans(h: Digester, fixtures: seq<Fixture>, levels: seq<seq<string>>)
    requires |fixtures| >= 2 && IsTree(h, fixtures, levels)
    ensures MerkleRoot(h, fixtures) == levels[|levels| - 1][0]
  {
    hide IsLeaf, Leaf, IsAbove, Root;
    var bottom := Leaves(h, 0, fixtures);
    forall i | 0 <= i < |fixtures| ensures levels[0][i] == bottom[i] {
      LeafIs(h, i, fixtures[i], levels[0][i]);
    }
    assert levels[0] == bottom;
    RootOfLevels(h, levels, 0);
  }

  lemma AboveHolds(h: Digester, level: seq<string>)
    requires level != []
    ensures IsAbove(h, level, Above(h, level))
  {
    hide IsNode, Node;
    var above := Above(h, level);
    forall j | 0 <= j < |above|
      ensures IsNode(h, level[2 * j], if 2 * j + 1 < |level| then level[2 * j + 1] else level[2 * j], above[j])
    {
      NodeIs(h, level[2 * j], if 2 * j + 1 < |level| then level[2 * j + 1] else level[2 * j], above[j]);
    }
  }

  /** The levels over `level`. */
  lemma {:induction false} LevelsOver(h: Digester, level: seq<string>) returns (levels: seq<seq<string>>)
    requires level != []
    ensures levels != [] && levels[0] == level && |levels[|levels| - 1]| == 1
    ensures forall k :: 0 <= k < |levels| - 1 ==> |levels[k]| > 1 && IsAbove(h, levels[k], levels[k + 1])
    decreases |level|
  {
    hide IsAbove, Above;
    if |level| == 1 {
      levels := [level];
    } else {
      AboveHolds(h, level);
      var rest := LevelsOver(h, Above(h, level));
      levels := [level] + rest;
      forall k | 0 <= k < |levels| - 1 ensures |levels[k]| > 1 && IsAbove(h, levels[k], levels[k + 1]) {
        if k > 0 { assert levels[k] == rest[k - 1] && levels[k + 1] == rest[k]; }
      }
    }
  }

  /** Every list of fixtures has its levels. */
  lemma TreeExists(h: Digester, fixtures: seq<Fixture>) returns (levels: seq<seq<string>>)
    requires fixtures != []
    ensures IsTree(h, fixtures, levels)
  {
    hide IsLeaf, Leaf, IsAbove;
    levels := LevelsOver(h, Leaves(h, 0, fixtures));
    forall i | 0 <= i < |fixtures| ensures IsLeaf(h, i, fixtures[i], levels[0][i]) {
      LeafIs(h, i, fixtures[i], levels[0][i]);
    }
  }

  // ----- creation ------------------------------------------------------------

  ghost predicate DifferentIds(fixtures: seq<Fixture>) {
    forall i, j :: 0 <= i < j < |fixtures| ==> fixtures[i].fixtureId != fixtures[j].fixtureId
  }

  /** The entropy has the right sizes, the salt is not the seed, and the factory answers the
      seed with 2 to 64 fixtures of different identifiers. */
  ghost predicate Creatable(draws: Draws, factory: FixtureFactory) {
    && |draws.taskId| == 16 && |draws.seed| == 32 && |draws.salt| == 32 && draws.salt != draws.seed
    && 2 <= |factory(draws.seed)| <= 64
    && DifferentIds(factory(draws.seed))
  }

  /** A task is created exactly then, and holds the drawn bytes in hexadecimal, the fixtures of
      the seed, the root over them and the commitment to all of it. */
  lemma CreatedIff(h: Digester, spec: TaskSpec, draws: Draws, factory: FixtureFactory)
    ensures CreateTask(h, spec, draws, factory).Ok? <==> Creatable(draws, factory)
    ensures Creatable(draws, factory) ==>
              var t := CreateTask(h, spec, draws, factory).value;
              && t.public.taskId == t.opening.taskId && FromHex(t.public.taskId) == draws.taskId
              && t.public.spec == spec
              && t.public.hiddenHoldoutCount == |factory(draws.seed)|
              && FromHex(t.opening.secretSeedHex) == draws.seed
              && FromHex(t.opening.saltHex) == draws.salt
              && t.opening.hiddenFixtures == factory(draws.seed)
              && t.opening.hiddenFixtureMerkleRoot == MerkleRoot(h, factory(draws.seed))
              && t.public.commitment
                 == h("planrace/2:task-commitment", PayloadJson(t.public.taskId, spec, t.opening))
  {
    hide PayloadJson, MerkleRoot;
    HexRoundTrip(draws.taskId);
    HexRoundTrip(draws.seed);
    HexRoundTrip(draws.salt);
  }

  /** Why a task is not created, by its error. */
  lemma NotCreatedFor(h: Digester, spec: TaskSpec, draws: Draws, factory: FixtureFactory)
    requires CreateTask(h, spec, draws, factory).Err?
    ensures var sized := |draws.taskId| == 16 && |draws.seed| == 32 && |draws.salt| == 32;
            var drawn := sized && draws.salt != draws.seed;
            var fixtures := factory(draws.seed);
            match CreateTask(h, spec, draws, factory).error
            case BadEntropy => !sized
            case RepeatedSeed => sized && !drawn
            case TooFewFixtures => drawn && |fixtures| < 2
            case DuplicateFixtureIds => drawn && |fixtures| >= 2 && !DifferentIds(fixtures)
            case TooManyFixtures => drawn && |fixtures| > 64 && DifferentIds(fixtures)
  {
    hide PayloadJson, MerkleRoot, ToHex;
  }

  lemma HexExample()
    ensures ToHex([0, 171, 255, 16]) == "00abff10"
  {
    assert ToHex([16]) == "10";
    assert [255, 16][1..] == [16] && [171, 255, 16][1..] == [255, 16] && [0, 171, 255, 16][1..] == [171, 255, 16];
    assert ToHex([255, 16]) == "ff10";
    assert ToHex([171, 255, 16]) == "abff10";
  }

  // ----- the audit -----------------------------------------------------------

  /** The root that a list of fixtures has. */
  ghost predicate HasRoot(h: Digester, fixtures: seq<Fixture>, root: string) {
    exists levels :: IsTree(h, fixtures, levels) && levels != [] && levels[|levels| - 1] == [root]
  }

  lemma HasRootIff(h: Digester, fixtures: seq<Fixture>, root: string)
    requires |fixtures| >= 2
    ensures HasRoot(h, fixtures, root) <==> root == MerkleRoot(h, fixtures)
  {
    hide IsTree, MerkleRoot;
    var levels := TreeExists(h, fixtures);
    MerkleRootMeans(h, fixtures, levels);
    TreeTop(h, fixtures, levels);
    assert levels[|levels| - 1] == [MerkleRoot(h, fixtures)];
    if HasRoot(h, fixtures, root) {
      var other :| IsTree(h, fixtures, other) && other != [] && other[|other| - 1] == [root];
      MerkleRootMeans(h, fixtures, other);
    }
  }

  lemma TreeTop(h: Digester, fixtures: seq<Fixture>, levels: seq<seq<string>>)
    requires IsTree(h, fixtures, levels)
    ensures levels != [] && |levels[|levels| - 1]| == 1
  {
    hide IsLeaf, IsAbove;
  }

  /** An audit passes exactly when the reveal names the task, has the announced number of
      fixtures, the root over them and the payload behind the commitment; and, where the
      fixtures are drawn again, when the factory answers the revealed seed with them. */
  lemma AuditPassesIff(h: Digester, p: PublicTask, r: Reveal, seed: seq<Byte>, factory: FixtureFactory)
    requires r.Valid() && r.secretSeedHex == ToHex(seed)
    ensures var sound :=
              && r.taskId == p.taskId && |r.hiddenFixtures| == p.hiddenHoldoutCount
              && HasRoot(h, r.hiddenFixtures, r.hiddenFixtureMerkleRoot)
              && p.commitment == h("planrace/2:task-commitment", PayloadJson(p.taskId, p.spec, r));
            && (Audit(h, p, r, None) <==> sound)
            && (Audit(h, p, r, Some(factory)) <==> sound && factory(seed) == r.hiddenFixtures)
  {
    hide PayloadJson, MerkleRoot, HasRoot;
    HasRootIff(h, r.hiddenFixtures, r.hiddenFixtureMerkleRoot);
    HexRoundTrip(seed);
  }
}
