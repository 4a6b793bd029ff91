/** `hidden_fixture_merkle_root` (planrace/taskgen_v2.py:172-193): index-bound leaves,
    odd levels padded by repeating their last digest. Under an ideal hash the root
    determines the whole list, its length included. */
module Merkle {
  import opened Json
  import opened Hashing
  import opened Wrappers

  datatype Fixture = Fixture(
    fixtureId: string,
    contentDigest: string,
    databaseFileDigest: Option<string>,
    parameterSetDigest: string,
    rowCount: nat)

  function OptionalText(o: Option<string>): Json {
    match o case None => JNull case Some(s) => JString(s)
  }

  function FixtureJson(f: Fixture): Json {
    JObject([
      Field("content_digest", JString(f.contentDigest)),
      Field("database_file_digest", OptionalText(f.databaseFileDigest)),
      Field("fixture_id", JString(f.fixtureId)),
      Field("parameter_set_digest", JString(f.parameterSetDigest)),
      Field("row_count", JInt(f.rowCount))])
  }

  const LEAF_DOMAIN := "planrace/2:hidden-fixture-leaf"
  const NODE_DOMAIN := "planrace/2:hidden-fixture-node"

  function LeafJson(index: nat, f: Fixture): Json {
    JObject([Field("fixture", FixtureJson(f)), Field("index", JInt(index))])
  }

  function NodeJson(left: string, right: string): Json {
    JObject([Field("left", JString(left)), Field("right", JString(right))])
  }

  function Leaf(h: Digester, index: nat, f: Fixture): string {
    h(LEAF_DOMAIN, LeafJson(index, f))
  }

  function Node(h: Digester, left: string, right: string): string {
    h(NODE_DOMAIN, NodeJson(left, right))
  }

  /** The bottom level, for the fixtures from `index` on. */
  function Leaves(h: Digester, index: nat, fixtures: seq<Fixture>): (r: seq<string>)
    ensures |r| == |fixtures|
    ensures forall i :: 0 <= i < |r| ==> r[i] == Leaf(h, index + i, fixtures[i])
    decreases |fixtures|
  {
    hide Leaf;
    if fixtures == [] then [] else [Leaf(h, index, fixtures[0])] + Leaves(h, index + 1, fixtures[1..])
  }

  function Padded(level: seq<string>): (r: seq<string>)
    ensures |r| % 2 == 0 && |level| <= |r| <= |level| + 1
    ensures forall i :: 0 <= i < |level| ==> r[i] == level[i]
  {
    if |level| % 2 == 1 then level + [level[|level| - 1]] else level
  }

  /** The level above an even level. */
  function Pairs(h: Digester, level: seq<string>): (r: seq<string>)
    requires |level| % 2 == 0
    ensures |r| == |level| / 2
    ensures forall i :: 0 <= i < |r| ==> r[i] == Node(h, level[2 * i], level[2 * i + 1])
  {
    hide Node;
    if level == [] then [] else [Node(h, level[0], level[1])] + Pairs(h, level[2..])
  }

  function Above(h: Digester, level: seq<string>): (r: seq<string>)
    ensures |r| == (|level| + 1) / 2
  {
    Pairs(h, Padded(level))
  }

  function Root(h: Digester, level: seq<string>): string
    requires level != []
    decreases |level|
  {
    if |level| == 1 then level[0] else Root(h, Above(h, level))
  }

  function MerkleRoot(h: Digester, fixtures: seq<Fixture>): string
    requires |fixtures| >= 2
  {
    Root(h, Leaves(h, 0, fixtures))
  }

  /** The body of the loop: pad to an even length, then hash adjacent pairs. */
  method NextLevel(h: Digester, below: seq<string>) returns (next: seq<string>)
    requires below != []
    ensures next == Above(h, below)
  {
    hide Node, Pairs;
    var level := below;
    if |level| % 2 == 1 { level := level + [level[|level| - 1]]; }
    next := [];
    var i := 0;
    while i < |level|
      invariant 0 <= i <= |level| && i % 2 == 0
      invariant |next| == i / 2
      invariant forall j :: 0 <= j < |next| ==> next[j] == Node(h, level[2 * j], level[2 * j + 1])
    {
      next := next + [Node(h, level[i], level[i + 1])];
      i := i + 2;
    }
    AboveIs(h, below, next);
  }

  /** `hidden_fixture_merkle_root`; an error below two fixtures. */
  method HiddenFixtureMerkleRoot(h: Digester, fixtures: seq<Fixture>) returns (r: Option<string>)
    ensures r == if |fixtures| < 2 then None else Some(MerkleRoot(h, fixtures))
  {
    hide Leaf, MerkleRoot, Above;
    if |fixtures| < 2 { return None; }
    MerkleRootIs(h, fixtures);
    var level := Leaves(h, 0, fixtures);
    while |level| > 1
      invariant |level| >= 1
      invariant Root(h, level) == MerkleRoot(h, fixtures)
      decreases |level|
    {
      level := NextLevel(h, level);
    }
    r := Some(level[0]);
  }

  lemma AboveIs(h: Digester, below: seq<string>, next: seq<string>)
    requires |next| == |Padded(below)| / 2
    requires forall j :: 0 <= j < |next| ==> next[j] == Node(h, Padded(below)[2 * j], Padded(below)[2 * j + 1])
    ensures next == Above(h, below)
  {
    hide Node, Padded;
  }

  // ----- nodes and leaves ----------------------------------------------------

  lemma FixtureJsonInjective(f: Fixture, g: Fixture)
    requires FixtureJson(f) == FixtureJson(g)
    ensures f == g
  {
    var a, b := FixtureJson(f).fields, FixtureJson(g).fields;
    assert a[0] == b[0] && a[1] == b[1] && a[2] == b[2] && a[3] == b[3] && a[4] == b[4];
  }

  lemma LeafInjective(h: Digester, i: nat, f: Fixture, j: nat, g: Fixture)
    requires Ideal(h) && Leaf(h, i, f) == Leaf(h, j, g)
    ensures i == j && f == g
  {
    hide FixtureJson;
    var a, b := LeafJson(i, f).fields, LeafJson(j, g).fields;
    assert a[0] == b[0] && a[1] == b[1];
    FixtureJsonInjective(f, g);
  }

  lemma NodeInjective(h: Digester, a: string, b: string, c: string, d: string)
    requires Ideal(h) && Node(h, a, b) == Node(h, c, d)
    ensures a == c && b == d
  {
    var x, y := NodeJson(a, b).fields, NodeJson(c, d).fields;
    assert x[0] == y[0] && x[1] == y[1];
  }

  lemma DomainsDiffer()
    ensures LEAF_DOMAIN != NODE_DOMAIN
  {
    assert LEAF_DOMAIN[26] != NODE_DOMAIN[26];
  }

  lemma LeafIsNoNode(h: Digester, i: nat, f: Fixture, a: string, b: string)
    requires Ideal(h)
    ensures Leaf(h, i, f) != Node(h, a, b)
  {
    hide LeafJson, NodeJson;
    DomainsDiffer();
    assert Leaf(h, i, f) == Node(h, a, b) ==> LEAF_DOMAIN == NODE_DOMAIN;
  }

  // ----- heights -------------------------------------------------------------

  /** How many levels lie above a level of `n` digests. */
  function Height(n: nat): nat
    requires n >= 1
  {
    if n == 1 then 0 else 1 + Height((n + 1) / 2)
  }

  ghost predicate IsLeaf(h: Digester, d: string) {
    hide Leaf;
    exists i: nat, f: Fixture :: d == Leaf(h, i, f)
  }

  /** Following left children `k` times from `d` ends at a leaf. */
  ghost predicate Spine(h: Digester, d: string, k: nat)
    decreases k
  {
    hide Node, IsLeaf;
    if k == 0 then IsLeaf(h, d) else exists l: string, r: string :: d == Node(h, l, r) && Spine(h, l, k - 1)
  }

  lemma {:induction false} SpineUnique(h: Digester, d: string, j: nat, k: nat)
    requires Ideal(h) && Spine(h, d, j) && Spine(h, d, k)
    ensures j == k
    decreases j
  {
    hide Leaf, Node, Ideal;
    if j > 0 && k > 0 {
      var l, r :| d == Node(h, l, r) && Spine(h, l, j - 1);
      var l', r' :| d == Node(h, l', r') && Spine(h, l', k - 1);
      NodeInjective(h, l, r, l', r');
      SpineUnique(h, l, j - 1, k - 1);
    } else if j != k {
      var i: nat, f: Fixture :| d == Leaf(h, i, f);
      var l, r :| d == Node(h, l, r);
      LeafIsNoNode(h, i, f, l, r);
    }
  }

  lemma AboveSpine(h: Digester, level: seq<string>, k: nat)
    requires forall i :: 0 <= i < |level| ==> Spine(h, level[i], k)
    ensures forall i :: 0 <= i < |Above(h, level)| ==> Spine(h, Above(h, level)[i], k + 1)
  {
    hide Leaf, Node;
    var up, p := Above(h, level), Padded(level);
    forall i | 0 <= i < |up| ensures Spine(h, up[i], k + 1) {
      assert up[i] == Node(h, p[2 * i], p[2 * i + 1]);
      assert p[2 * i] == level[2 * i];
    }
  }

  lemma {:induction false} RootSpine(h: Digester, level: seq<string>, k: nat)
    requires level != [] && forall i :: 0 <= i < |level| ==> Spine(h, level[i], k)
    ensures Spine(h, Root(h, level), k + Height(|level|))
    decreases |level|
  {
    hide Spine, Pairs, Padded;
    if |level| > 1 {
      AboveSpine(h, level, k);
      RootSpine(h, Above(h, level), k + 1);
    }
  }

  // ----- binding -------------------------------------------------------------

  /** One list of digests agrees with another as far as it goes, and if the other is
      longer, its next digest is a repetition of one of the first. */
  ghost predicate AgreesAndRepeats(x: seq<string>, y: seq<string>) {
    && (forall i :: 0 <= i < |x| && i < |y| ==> x[i] == y[i])
    && (|x| < |y| ==> y[|x|] in x)
  }

  lemma PairsAgree(h: Digester, x: seq<string>, y: seq<string>)
    requires Ideal(h) && x != [] && |x| <= |y| && AgreesAndRepeats(Above(h, x), Above(h, y))
    ensures AgreesAndRepeats(x, y)
  {
    hide Node, Leaf, Ideal, Pairs;
    var p, q, up, vp := Padded(x), Padded(y), Above(h, x), Above(h, y);
    forall i | 0 <= i < |x| ensures x[i] == y[i] {
      var j := i / 2;
      assert up[j] == Node(h, p[2 * j], p[2 * j + 1]) && vp[j] == Node(h, q[2 * j], q[2 * j + 1]);
      assert up[j] == vp[j];
      NodeInjective(h, p[2 * j], p[2 * j + 1], q[2 * j], q[2 * j + 1]);
      assert i == 2 * j || i == 2 * j + 1;
    }
    if |x| < |y| {
      if |x| % 2 == 1 {
        var j := |x| / 2;
        assert up[j] == Node(h, p[2 * j], p[2 * j + 1]) && vp[j] == Node(h, q[2 * j], q[2 * j + 1]);
        assert up[j] == vp[j];
        NodeInjective(h, p[2 * j], p[2 * j + 1], q[2 * j], q[2 * j + 1]);
        assert y[|x|] == x[|x| - 1];
      } else {
        var j := |x| / 2;
        assert |up| == j < |vp|;
        var i :| 0 <= i < |up| && up[i] == vp[j];
        assert up[i] == Node(h, p[2 * i], p[2 * i + 1]) && vp[j] == Node(h, q[2 * j], q[2 * j + 1]);
        NodeInjective(h, p[2 * i], p[2 * i + 1], q[2 * j], q[2 * j + 1]);
        assert y[|x|] == x[2 * i];
      }
    }
  }

  lemma HeightMonotone(m: nat, n: nat)
    requires 1 <= m <= n
    ensures Height(m) <= Height(n)
  {
    if m > 1 { HeightMonotone((m + 1) / 2, (n + 1) / 2); }
  }

  lemma {:induction false} RootsAgree(h: Digester, x: seq<string>, y: seq<string>)
    requires Ideal(h) && x != [] && |x| <= |y| && Height(|x|) == Height(|y|)
    requires Root(h, x) == Root(h, y)
    ensures AgreesAndRepeats(x, y)
    decreases |y|
  {
    if |x| > 1 {
      hide AgreesAndRepeats, Ideal;
      RootsAgree(h, Above(h, x), Above(h, y));
      PairsAgree(h, x, y);
    }
  }

  lemma RootBindsShorter(h: Digester, f: seq<Fixture>, g: seq<Fixture>)
    requires Ideal(h) && 2 <= |f| <= |g| && MerkleRoot(h, f) == MerkleRoot(h, g)
    ensures f == g
  {
    hide *;
    var x, y := Leaves(h, 0, f), Leaves(h, 0, g);
    MerkleRootIs(h, f);
    MerkleRootIs(h, g);
    MerkleHeight(h, f);
    MerkleHeight(h, g);
    SpineUnique(h, MerkleRoot(h, f), Height(|f|), Height(|g|));
    RootsAgree(h, x, y);
    SameFixtures(h, f, g, x, y);
  }

  lemma MerkleHeight(h: Digester, f: seq<Fixture>)
    requires |f| >= 2
    ensures Spine(h, MerkleRoot(h, f), Height(|f|))
  {
    LeavesAreSpines(h, f);
    hide *;
    MerkleRootIs(h, f);
    RootSpine(h, Leaves(h, 0, f), 0);
  }

  lemma LeavesAreSpines(h: Digester, f: seq<Fixture>)
    ensures forall i :: 0 <= i < |f| ==> Leaves(h, 0, f)[i] == Leaf(h, i, f[i]) && Spine(h, Leaves(h, 0, f)[i], 0)
  {
    hide Leaf;
    forall i | 0 <= i < |f| ensures IsLeaf(h, Leaves(h, 0, f)[i]) {
      assert Leaves(h, 0, f)[i] == Leaf(h, 0 + i, f[i]);
    }
  }

  lemma MerkleRootIs(h: Digester, f: seq<Fixture>)
    requires |f| >= 2
    ensures |Leaves(h, 0, f)| == |f| && MerkleRoot(h, f) == Root(h, Leaves(h, 0, f))
  {
    hide Root, Leaf;
  }

  lemma SameFixtures(h: Digester, f: seq<Fixture>, g: seq<Fixture>, x: seq<string>, y: seq<string>)
    requires Ideal(h) && |f| <= |g| && |x| == |f| && |y| == |g| && AgreesAndRepeats(x, y)
    requires forall i :: 0 <= i < |x| ==> x[i] == Leaf(h, i, f[i])
    requires forall i :: 0 <= i < |y| ==> y[i] == Leaf(h, i, g[i])
    ensures f == g
  {
    hide Leaf, Ideal;
    forall i | 0 <= i < |f| ensures f[i] == g[i] {
      assert x[i] == y[i];
      LeafInjective(h, i, f[i], i, g[i]);
    }
    if |f| < |g| {
      var i :| 0 <= i < |x| && x[i] == y[|x|];
      LeafInjective(h, i, f[i], |x|, g[|x|]);
    }
  }

  /** The root is injective on fixture lists of any lengths from two on. */
  lemma MerkleRootBinds(h: Digester, f: seq<Fixture>, g: seq<Fixture>)
    requires Ideal(h) && |f| >= 2 && |g| >= 2 && MerkleRoot(h, f) == MerkleRoot(h, g)
    ensures f == g
  {
    hide *;
    if |f| <= |g| { RootBindsShorter(h, f, g); } else { RootBindsShorter(h, g, f); }
  }
}
