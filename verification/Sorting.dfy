/** `sorted(items, key=...)` for keys that are texts. Sorting is a normal form for
    sequences up to order whenever different items have different keys. */
module Sorting {
  import Text

  function Insert<T>(key: T -> string, x: T, s: seq<T>): (r: seq<T>)
    ensures |r| == |s| + 1
  {
    if s == [] || Text.LessEq(key(x), key(s[0])) then [x] + s else [s[0]] + Insert(key, x, s[1..])
  }

  function SortBy<T>(key: T -> string, s: seq<T>): (r: seq<T>)
    ensures |r| == |s|
  {
    if s == [] then [] else Insert(key, s[0], SortBy(key, s[1..]))
  }

  ghost predicate Sorted<T(!new)>(key: T -> string, s: seq<T>) {
    forall i, j :: 0 <= i < j < |s| ==> Text.LessEq(key(s[i]), key(s[j]))
  }

  lemma {:induction false} InsertMultiset<T>(key: T -> string, x: T, s: seq<T>)
    ensures multiset(Insert(key, x, s)) == multiset(s) + multiset{x}
  {
    if s != [] && !Text.LessEq(key(x), key(s[0])) {
      InsertMultiset(key, x, s[1..]);
      assert s == [s[0]] + s[1..];
    }
  }

  lemma {:induction false} InsertSorted<T(!new)>(key: T -> string, x: T, s: seq<T>)
    requires Sorted(key, s)
    ensures Sorted(key, Insert(key, x, s))
  {
    if s == [] {
    } else if Text.LessEq(key(x), key(s[0])) {
      var r := [x] + s;
      forall i, j | 0 <= i < j < |r| ensures Text.LessEq(key(r[i]), key(r[j])) {
        if i == 0 && j > 1 { Text.Transitive(key(x), key(s[0]), key(s[j - 1])); }
      }
    } else {
      Text.Total(key(x), key(s[0]));
      InsertSorted(key, x, s[1..]);
      InsertMultiset(key, x, s[1..]);
      var t := Insert(key, x, s[1..]);
      forall j | 0 <= j < |t| ensures Text.LessEq(key(s[0]), key(t[j])) {
        assert t[j] in multiset(t);
        if t[j] != x {
          assert t[j] in s[1..];
          var k :| 0 <= k < |s[1..]| && s[1..][k] == t[j];
          assert s[k + 1] == t[j];
        }
      }
    }
  }

  lemma {:induction false} SortMultiset<T>(key: T -> string, s: seq<T>)
    ensures multiset(SortBy(key, s)) == multiset(s)
  {
    if s != [] {
      SortMultiset(key, s[1..]);
      InsertMultiset(key, s[0], SortBy(key, s[1..]));
      assert s == [s[0]] + s[1..];
    }
  }

  lemma {:induction false} SortSorted<T(!new)>(key: T -> string, s: seq<T>)
    ensures Sorted(key, SortBy(key, s))
  {
    if s != [] {
      SortSorted(key, s[1..]);
      InsertSorted(key, s[0], SortBy(key, s[1..]));
    }
  }

  ghost predicate Separates<T(!new)>(key: T -> string) {
    forall a: T, b: T :: key(a) == key(b) ==> a == b
  }

  lemma FirstIsLeast<T(!new)>(key: T -> string, s: seq<T>, x: T)
    requires Sorted(key, s) && x in s
    ensures Text.LessEq(key(s[0]), key(x))
  {
    var i :| 0 <= i < |s| && s[i] == x;
    if i == 0 { Text.Reflexive(key(x)); }
  }

  /** Different items of `s` have different keys. */
  ghost predicate SeparatesIn<T(!new)>(key: T -> string, s: seq<T>) {
    forall a, b :: a in s && b in s && key(a) == key(b) ==> a == b
  }

  lemma SameFirst<T(!new)>(key: T -> string, s: seq<T>, t: seq<T>)
    requires SeparatesIn(key, s) && Sorted(key, s) && Sorted(key, t) && multiset(s) == multiset(t) && s != []
    ensures |s| == |t| && s[0] == t[0]
  {
    assert |s| == |multiset(s)| == |multiset(t)| == |t|;
    assert s[0] in multiset(s) && t[0] in multiset(t);
    assert t[0] in s && s[0] in t;
    FirstIsLeast(key, t, s[0]);
    FirstIsLeast(key, s, t[0]);
    Text.Antisymmetric(key(s[0]), key(t[0]));
  }

  lemma SameRest<T>(s: seq<T>, t: seq<T>)
    requires multiset(s) == multiset(t) && s != [] && t != [] && s[0] == t[0]
    ensures multiset(s[1..]) == multiset(t[1..])
  {
    assert s == [s[0]] + s[1..] && t == [t[0]] + t[1..];
    assert multiset(s[1..]) == multiset(s) - multiset{s[0]};
    assert multiset(t[1..]) == multiset(t) - multiset{t[0]};
  }

  /** There is only one sorted arrangement. */
  lemma {:induction false} SortedUnique<T(!new)>(key: T -> string, s: seq<T>, t: seq<T>)
    requires SeparatesIn(key, s) && Sorted(key, s) && Sorted(key, t) && multiset(s) == multiset(t)
    ensures s == t
  {
    if s == [] {
      assert |multiset(t)| == |t|;
    } else {
      SameFirst(key, s, t);
      SameRest(s, t);
      SortedUnique(key, s[1..], t[1..]);
      assert s == [s[0]] + s[1..] && t == [t[0]] + t[1..];
    }
  }

  /** Two sequences sort alike exactly when one is a permutation of the other. */
  lemma SortIsNormalForm<T(!new)>(key: T -> string, s: seq<T>, t: seq<T>)
    requires Separates(key)
    ensures SortBy(key, s) == SortBy(key, t) <==> multiset(s) == multiset(t)
  {
    SortMultiset(key, s);
    SortMultiset(key, t);
    if multiset(s) == multiset(t) {
      SortSorted(key, s);
      SortSorted(key, t);
      SortedUnique(key, SortBy(key, s), SortBy(key, t));
    }
  }
}
