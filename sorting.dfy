/**
 * Stable sorting by an optional timestamp, as `slice::sort_by` with `Option<DateTime>::cmp`
 * does it: `None` orders before every time, and elements with equal keys keep their order.
 */
module Sorting {
  import opened Base

  /** The derived order of `Option<DateTime>`: `None` first, then by time. */
  predicate TimeLe(a: Option<int>, b: Option<int>) {
    a.None? || (b.Some? && a.value <= b.value)
  }

  /** `a` may stand before `b`: ascending order, or descending when `desc`. */
  predicate Before(a: Option<int>, b: Option<int>, desc: bool) {
    if desc then TimeLe(b, a) else TimeLe(a, b)
  }

  predicate Sorted<T>(s: seq<T>, key: T -> Option<int>, desc: bool) {
    forall i, j :: 0 <= i < j < |s| ==> Before(key(s[i]), key(s[j]), desc)
  }

  /** The elements whose key is `k`, in their order. */
  function WithKey<T>(s: seq<T>, key: T -> Option<int>, k: Option<int>): seq<T>
    decreases |s|
  {
    if s == [] then []
    else WithKey(s[..|s| - 1], key, k) + (if key(s[|s| - 1]) == k then [s[|s| - 1]] else [])
  }

  /** Places `x` after every element that may stand before it. */
  function Insert<T>(s: seq<T>, x: T, key: T -> Option<int>, desc: bool): seq<T>
    decreases |s|
  {
    if s == [] || Before(key(s[|s| - 1]), key(x), desc) then s + [x]
    else Insert(s[..|s| - 1], x, key, desc) + [s[|s| - 1]]
  }

  /** `slice::sort_by` with a comparator on the key: insertion sort, which is stable. */
  function SortBy<T>(s: seq<T>, key: T -> Option<int>, desc: bool): seq<T>
    decreases |s|
  {
    if s == [] then [] else Insert(SortBy(s[..|s| - 1], key, desc), s[|s| - 1], key, desc)
  }

  lemma {:induction false} InsertPermutes<T>(s: seq<T>, x: T, key: T -> Option<int>, desc: bool)
    ensures multiset(Insert(s, x, key, desc)) == multiset(s) + multiset{x}
    decreases |s|
  {
    if !(s == [] || Before(key(s[|s| - 1]), key(x), desc)) {
      InsertPermutes(s[..|s| - 1], x, key, desc);
      assert s == s[..|s| - 1] + [s[|s| - 1]];
    }
  }

  lemma {:induction false} InsertSorted<T>(s: seq<T>, x: T, key: T -> Option<int>, desc: bool)
    requires Sorted(s, key, desc)
    ensures Sorted(Insert(s, x, key, desc), key, desc)
    decreases |s|
  {
    var r := Insert(s, x, key, desc);
    if s == [] || Before(key(s[|s| - 1]), key(x), desc) {
      forall i, j | 0 <= i < j < |r| ensures Before(key(r[i]), key(r[j]), desc) {
        if j == |s| && i < |s| - 1 {
          assert Before(key(s[i]), key(s[|s| - 1]), desc);
        }
      }
    } else {
      var init := s[..|s| - 1];
      var last := s[|s| - 1];
      InsertSorted(init, x, key, desc);
      InsertPermutes(init, x, key, desc);
      var ins := Insert(init, x, key, desc);
      assert r == ins + [last];
      forall i | 0 <= i < |ins| ensures Before(key(ins[i]), key(last), desc) {
        assert ins[i] in multiset(ins);
        if ins[i] != x {
          assert ins[i] in multiset(init);
          var k :| 0 <= k < |init| && init[k] == ins[i];
          assert Before(key(s[k]), key(last), desc);
        }
      }
    }
  }

  /** Inserting keeps the relative order of every group of equal keys. */
  lemma {:induction false} InsertWithKey<T>(s: seq<T>, x: T, key: T -> Option<int>, desc: bool, k: Option<int>)
    ensures WithKey(Insert(s, x, key, desc), key, k)
         == WithKey(s, key, k) + (if key(x) == k then [x] else [])
    decreases |s|
  {
    var r := Insert(s, x, key, desc);
    var xs := if key(x) == k then [x] else [];
    if s == [] || Before(key(s[|s| - 1]), key(x), desc) {
      assert r == s + [x];
      assert r[..|r| - 1] == s;
      assert WithKey(r, key, k) == WithKey(s, key, k) + xs;
    } else {
      var init := s[..|s| - 1];
      var last := s[|s| - 1];
      var ls := if key(last) == k then [last] else [];
      var ins := Insert(init, x, key, desc);
      InsertWithKey(init, x, key, desc, k);
      assert r == ins + [last];
      assert r[..|r| - 1] == ins;
      assert WithKey(r, key, k) == WithKey(ins, key, k) + ls;
      assert WithKey(s, key, k) == WithKey(init, key, k) + ls;
      assert xs == [] || ls == [];
      assert WithKey(r, key, k) == WithKey(init, key, k) + xs + ls;
      assert xs + ls == ls + xs;
      assert WithKey(init, key, k) + xs + ls == WithKey(init, key, k) + (xs + ls);
      assert WithKey(init, key, k) + ls + xs == WithKey(init, key, k) + (ls + xs);
    }
  }

  /** The result of `SortBy` is ordered by the key. */
  lemma {:induction false} SortBySorted<T>(s: seq<T>, key: T -> Option<int>, desc: bool)
    ensures Sorted(SortBy(s, key, desc), key, desc)
    decreases |s|
  {
    if s != [] {
      SortBySorted(s[..|s| - 1], key, desc);
      InsertSorted(SortBy(s[..|s| - 1], key, desc), s[|s| - 1], key, desc);
    }
  }

  /** `SortBy` rearranges its input and neither drops nor duplicates an element. */
  lemma {:induction false} SortByPermutes<T>(s: seq<T>, key: T -> Option<int>, desc: bool)
    ensures multiset(SortBy(s, key, desc)) == multiset(s)
    ensures |SortBy(s, key, desc)| == |s|
    decreases |s|
  {
    if s != [] {
      SortByPermutes(s[..|s| - 1], key, desc);
      InsertPermutes(SortBy(s[..|s| - 1], key, desc), s[|s| - 1], key, desc);
      assert s == s[..|s| - 1] + [s[|s| - 1]];
    }
    assert |SortBy(s, key, desc)| == |multiset(SortBy(s, key, desc))|;
  }

  /** Stability: elements with equal keys come out in the order they went in. */
  lemma {:induction false} SortByStable<T>(s: seq<T>, key: T -> Option<int>, desc: bool, k: Option<int>)
    ensures WithKey(SortBy(s, key, desc), key, k) == WithKey(s, key, k)
    decreases |s|
  {
    if s != [] {
      SortByStable(s[..|s| - 1], key, desc, k);
      InsertWithKey(SortBy(s[..|s| - 1], key, desc), s[|s| - 1], key, desc, k);
    }
  }
}
