/**
 * `Array.prototype.sort` with a comparator that orders by an integer key, largest first.
 * The language requires the sort to be stable, and a stable sort's result is determined by
 * the comparator, so it is stated here as insertion sort.
 */
module Sorting {

  /** Puts `e` in front of the first element whose key is not larger than its own. */
  function Insert<T>(key: T -> int, e: T, s: seq<T>): (r: seq<T>)
    ensures |r| == |s| + 1
    ensures multiset(r) == multiset(s) + multiset{e}
  {
    if s == [] || key(e) >= key(s[0]) then [e] + s
    else
      assert s == [s[0]] + s[1..];
      [s[0]] + Insert(key, e, s[1..])
  }

  /** `s.sort((a, b) => key(b) - key(a))`. */
  function SortBy<T>(key: T -> int, s: seq<T>): (r: seq<T>)
    ensures |r| == |s|
  {
    if s == [] then [] else Insert(key, s[0], SortBy(key, s[1..]))
  }

  predicate SortedDesc<T>(key: T -> int, s: seq<T>) {
    forall i, j :: 0 <= i < j < |s| ==> key(s[i]) >= key(s[j])
  }

  /** The elements of `s` whose key is `d`, in their order. */
  function WithKey<T>(key: T -> int, s: seq<T>, d: int): seq<T> {
    if s == [] then [] else (if key(s[0]) == d then [s[0]] else []) + WithKey(key, s[1..], d)
  }

  lemma {:induction false} InsertSorted<T>(key: T -> int, e: T, s: seq<T>)
    requires SortedDesc(key, s)
    ensures SortedDesc(key, Insert(key, e, s))
    decreases |s|
  {
    if s != [] && key(e) < key(s[0]) {
      var t := s[1..];
      InsertSorted(key, e, t);
      var r := Insert(key, e, t);
      forall x | x in multiset(r) ensures key(s[0]) >= key(x) {
        assert x in multiset(t) + multiset{e};
        if x in multiset(t) {
          var k :| 0 <= k < |t| && t[k] == x;
          assert s[k + 1] == x;
        }
      }
      forall j | 0 <= j < |r| ensures key(s[0]) >= key(r[j]) {
        assert r[j] in multiset(r);
      }
    }
  }

  /** The sort orders by key, largest first. */
  lemma {:induction false} SortBySorted<T>(key: T -> int, s: seq<T>)
    ensures SortedDesc(key, SortBy(key, s))
    decreases |s|
  {
    if s != [] {
      SortBySorted(key, s[1..]);
      InsertSorted(key, s[0], SortBy(key, s[1..]));
    }
  }

  /** The sort only reorders: the result is a permutation of the input. */
  lemma {:induction false} SortByPermutation<T>(key: T -> int, s: seq<T>)
    ensures multiset(SortBy(key, s)) == multiset(s)
    decreases |s|
  {
    if s != [] {
      SortByPermutation(key, s[1..]);
      assert s == [s[0]] + s[1..];
    }
  }

  lemma {:induction false} InsertWithKey<T>(key: T -> int, e: T, s: seq<T>, d: int)
    ensures WithKey(key, Insert(key, e, s), d) == (if key(e) == d then [e] else []) + WithKey(key, s, d)
    decreases |s|
  {
    var r := Insert(key, e, s);
    if s == [] || key(e) >= key(s[0]) {
      assert r[0] == e && r[1..] == s;
    } else {
      assert r[0] == s[0] && r[1..] == Insert(key, e, s[1..]);
      InsertWithKey(key, e, s[1..], d);
      var he: seq<T> := if key(e) == d then [e] else [];
      var hs: seq<T> := if key(s[0]) == d then [s[0]] else [];
      assert he == [] || hs == [];
      assert WithKey(key, r, d) == hs + (he + WithKey(key, s[1..], d));
      assert WithKey(key, s, d) == hs + WithKey(key, s[1..], d);
      assert hs + (he + WithKey(key, s[1..], d)) == he + (hs + WithKey(key, s[1..], d));
    }
  }

  /** The sort is stable: elements with equal keys keep their relative order. */
  lemma {:induction false} SortByStable<T>(key: T -> int, s: seq<T>, d: int)
    ensures WithKey(key, SortBy(key, s), d) == WithKey(key, s, d)
    decreases |s|
  {
    if s != [] {
      SortByStable(key, s[1..], d);
      InsertWithKey(key, s[0], SortBy(key, s[1..]), d);
    }
  }

  /** Sorting what is already in order changes nothing. */
  lemma {:induction false} SortBySortedUnchanged<T>(key: T -> int, s: seq<T>)
    requires SortedDesc(key, s)
    ensures SortBy(key, s) == s
    decreases |s|
  {
    if s != [] {
      assert SortedDesc(key, s[1..]) by {
        forall i, j | 0 <= i < j < |s[1..]| ensures key(s[1..][i]) >= key(s[1..][j]) {
          assert s[1..][i] == s[i + 1] && s[1..][j] == s[j + 1];
        }
      }
      SortBySortedUnchanged(key, s[1..]);
      if |s| > 1 {
        assert key(s[0]) >= key(s[1]);
      }
    }
  }
}
