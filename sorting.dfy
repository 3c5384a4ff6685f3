/**
 * Python's `sorted(xs, key=...)`: a stable sort by a key. Every key used by the
 * downloader is an integer or a pair of integers compared lexicographically, so
 * keys are modelled as a pair (major, minor).
 */
module Sorting {

  datatype SortKey = SortKey(major: int, minor: int)

  /** Lexicographic order on keys, as Python compares tuples. */
  predicate KeyLessEq(a: SortKey, b: SortKey)
  {
    a.major < b.major || (a.major == b.major && a.minor <= b.minor)
  }

  ghost predicate SortedBy<T>(s: seq<T>, key: T -> SortKey)
  {
    forall i, j :: 0 <= i < j < |s| ==> KeyLessEq(key(s[i]), key(s[j]))
  }

  /** Puts x in front of the first element whose key is not smaller than x's. */
  function Insert<T>(x: T, s: seq<T>, key: T -> SortKey): seq<T>
  {
    if s == [] || KeyLessEq(key(x), key(s[0])) then [x] + s
    else [s[0]] + Insert(x, s[1..], key)
  }

  /**
   * Insertion sort. Inserting the head in front of every element with an equal
   * key keeps elements with equal keys in input order, as Python's sort does.
   */
  function SortBy<T>(s: seq<T>, key: T -> SortKey): seq<T>
  {
    if s == [] then [] else Insert(s[0], SortBy(s[1..], key), key)
  }

  /** Inserting adds exactly x. */
  lemma {:induction false} InsertMultiset<T>(x: T, s: seq<T>, key: T -> SortKey)
    ensures multiset(Insert(x, s, key)) == multiset{x} + multiset(s)
    ensures |Insert(x, s, key)| == |s| + 1
  {
    if s != [] && !KeyLessEq(key(x), key(s[0])) {
      InsertMultiset(x, s[1..], key);
      assert s == [s[0]] + s[1..];
    }
  }

  /** A lower bound of x and of every element of s bounds every element after inserting x. */
  lemma {:induction false} InsertBounded<T>(x: T, s: seq<T>, key: T -> SortKey, lo: SortKey)
    requires KeyLessEq(lo, key(x))
    requires forall i :: 0 <= i < |s| ==> KeyLessEq(lo, key(s[i]))
    ensures forall i :: 0 <= i < |Insert(x, s, key)| ==> KeyLessEq(lo, key(Insert(x, s, key)[i]))
  {
    if s != [] && !KeyLessEq(key(x), key(s[0])) {
      InsertBounded(x, s[1..], key, lo);
      var r := Insert(x, s, key);
      assert r == [s[0]] + Insert(x, s[1..], key);
      forall i | 0 < i < |r| ensures KeyLessEq(lo, key(r[i])) {
        assert r[i] == Insert(x, s[1..], key)[i - 1];
      }
    }
  }

  lemma {:induction false} InsertKeepsOrder<T>(x: T, s: seq<T>, key: T -> SortKey)
    requires SortedBy(s, key)
    ensures SortedBy(Insert(x, s, key), key)
    ensures multiset(Insert(x, s, key)) == multiset{x} + multiset(s)
  {
    InsertMultiset(x, s, key);
    var r := Insert(x, s, key);
    if s == [] || KeyLessEq(key(x), key(s[0])) {
      assert r == [x] + s;
      forall i, j | 0 <= i < j < |r| ensures KeyLessEq(key(r[i]), key(r[j])) {
        if i == 0 {
          assert r[j] == s[j - 1];
          if j > 1 {
            assert KeyLessEq(key(s[0]), key(s[j - 1]));
          }
        } else {
          assert r[i] == s[i - 1] && r[j] == s[j - 1];
        }
      }
    } else {
      var t := Insert(x, s[1..], key);
      assert SortedBy(s[1..], key);
      InsertKeepsOrder(x, s[1..], key);
      InsertBounded(x, s[1..], key, key(s[0]));
      assert r == [s[0]] + t;
      forall i, j | 0 <= i < j < |r| ensures KeyLessEq(key(r[i]), key(r[j])) {
        if i == 0 {
          assert r[j] == t[j - 1];
        } else {
          assert r[i] == t[i - 1] && r[j] == t[j - 1];
        }
      }
    }
  }

  /** The sorted list is ordered by the key and is a permutation of the input. */
  lemma {:induction false} SortByIsSortedPermutation<T>(s: seq<T>, key: T -> SortKey)
    ensures SortedBy(SortBy(s, key), key)
    ensures multiset(SortBy(s, key)) == multiset(s)
    ensures |SortBy(s, key)| == |s|
  {
    if s != [] {
      var t := SortBy(s[1..], key);
      SortByIsSortedPermutation(s[1..], key);
      InsertKeepsOrder(s[0], t, key);
      InsertMultiset(s[0], t, key);
      assert SortBy(s, key) == Insert(s[0], t, key);
      assert s == [s[0]] + s[1..];
      assert multiset(s) == multiset{s[0]} + multiset(s[1..]);
    }
  }

  /** Stability on an already sorted input: sorting changes nothing. */
  lemma {:induction false} SortBySortedIsIdentity<T>(s: seq<T>, key: T -> SortKey)
    requires SortedBy(s, key)
    ensures SortBy(s, key) == s
  {
    if s != [] {
      assert SortedBy(s[1..], key);
      SortBySortedIsIdentity(s[1..], key);
      assert s == [s[0]] + s[1..];
    }
  }

  /** Number of elements satisfying p, as `len([x for x in s if p(x)])`. */
  function CountWhere<T>(s: seq<T>, p: T -> bool): nat
  {
    if s == [] then 0 else (if p(s[0]) then 1 else 0) + CountWhere(s[1..], p)
  }

  lemma {:induction false} CountInsert<T>(x: T, s: seq<T>, key: T -> SortKey, p: T -> bool)
    ensures CountWhere(Insert(x, s, key), p) == (if p(x) then 1 else 0) + CountWhere(s, p)
  {
    if s != [] && !KeyLessEq(key(x), key(s[0])) {
      CountInsert(x, s[1..], key, p);
      assert ([s[0]] + Insert(x, s[1..], key))[1..] == Insert(x, s[1..], key);
    } else {
      assert ([x] + s)[1..] == s;
    }
  }

  /** Sorting neither adds nor drops an element of any kind. */
  lemma {:induction false} SortByKeepsCount<T>(s: seq<T>, key: T -> SortKey, p: T -> bool)
    ensures CountWhere(SortBy(s, key), p) == CountWhere(s, p)
  {
    if s != [] {
      SortByKeepsCount(s[1..], key, p);
      CountInsert(s[0], SortBy(s[1..], key), key, p);
    }
  }

  /** The elements of s whose key is v, in the order of s. */
  function WithKey<T>(s: seq<T>, key: T -> SortKey, v: SortKey): seq<T>
  {
    if s == [] then [] else (if key(s[0]) == v then [s[0]] else []) + WithKey(s[1..], key, v)
  }

  /** Inserting x puts it in front of every element with its key, and moves no element past another of equal key. */
  lemma {:induction false} InsertWithKey<T>(x: T, s: seq<T>, key: T -> SortKey, v: SortKey)
    ensures WithKey(Insert(x, s, key), key, v) == (if key(x) == v then [x] else []) + WithKey(s, key, v)
  {
    if s == [] || KeyLessEq(key(x), key(s[0])) {
      assert ([x] + s)[1..] == s;
    } else {
      var t := Insert(x, s[1..], key);
      InsertWithKey(x, s[1..], key, v);
      assert ([s[0]] + t)[1..] == t;
      assert key(s[0]) != key(x);
      assert WithKey(Insert(x, s, key), key, v)
        == (if key(s[0]) == v then [s[0]] else []) + ((if key(x) == v then [x] else []) + WithKey(s[1..], key, v));
    }
  }

  /**
   * Stability: the elements with any one key come out of the sort in their
   * input order, as Python's `sorted` guarantees.
   */
  lemma {:induction false} SortByStable<T>(s: seq<T>, key: T -> SortKey, v: SortKey)
    ensures WithKey(SortBy(s, key), key, v) == WithKey(s, key, v)
  {
    if s != [] {
      SortByStable(s[1..], key, v);
      InsertWithKey(s[0], SortBy(s[1..], key), key, v);
    }
  }
}
