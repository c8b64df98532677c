/**
 * What the app uses of `Array.prototype`: `filter`, `some` and `sort` with a
 * comparator of the form `(a, b) => key(b) - key(a)`, i.e. a stable sort by
 * an integer key, largest first (`sort` has been required to be stable since
 * ECMAScript 2019).
 */
module JsArray {

  /** `s.filter(p)`. */
  function Filter<T>(s: seq<T>, p: T -> bool): (r: seq<T>)
    ensures |r| <= |s|
    ensures forall i :: 0 <= i < |r| ==> p(r[i]) && r[i] in s
  {
    if s == [] then []
    else (if p(s[0]) then [s[0]] else []) + Filter(s[1..], p)
  }

  /** Every element that passes the filter is kept. */
  lemma {:induction false} FilterKeeps<T>(s: seq<T>, p: T -> bool, i: nat)
    requires i < |s| && p(s[i])
    ensures s[i] in Filter(s, p)
  {
    if i > 0 {
      FilterKeeps(s[1..], p, i - 1);
    }
  }

  /** A filter returns part of its input. */
  lemma {:induction false} FilterSubMultiset<T>(s: seq<T>, p: T -> bool)
    ensures multiset(Filter(s, p)) <= multiset(s)
  {
    if s != [] {
      FilterSubMultiset(s[1..], p);
      assert s == [s[0]] + s[1..];
    }
  }

  /** An element that passes the filter is kept as often as it occurs. */
  lemma {:induction false} FilterCount<T>(s: seq<T>, p: T -> bool, x: T)
    requires p(x)
    ensures multiset(Filter(s, p))[x] == multiset(s)[x]
  {
    if s != [] {
      FilterCount(s[1..], p, x);
      assert s == [s[0]] + s[1..];
    }
  }

  /** Filtering a concatenation filters each part and keeps their order. */
  lemma {:induction false} FilterAppend<T>(a: seq<T>, b: seq<T>, p: T -> bool)
    ensures Filter(a + b, p) == Filter(a, p) + Filter(b, p)
  {
    if a == [] {
      assert a + b == b;
    } else {
      assert (a + b)[0] == a[0] && (a + b)[1..] == a[1..] + b;
      FilterAppend(a[1..], b, p);
    }
  }

  /** A filter that every element passes returns its input. */
  lemma {:induction false} FilterKeepsAll<T>(s: seq<T>, p: T -> bool)
    requires forall i :: 0 <= i < |s| ==> p(s[i])
    ensures Filter(s, p) == s
  {
    if s != [] {
      FilterKeepsAll(s[1..], p);
    }
  }

  /** A filter that keeps the length kept every element. */
  lemma {:induction false} FilterFullLength<T>(s: seq<T>, p: T -> bool)
    requires |Filter(s, p)| == |s|
    ensures forall i :: 0 <= i < |s| ==> p(s[i])
  {
    if s != [] {
      FilterFullLength(s[1..], p);
      forall i | 0 <= i < |s| ensures p(s[i]) {
        if i > 0 {
          assert s[i] == s[1..][i - 1];
        }
      }
    }
  }

  /** Filtering twice by the same predicate is filtering once. */
  lemma {:induction false} FilterIdempotent<T>(s: seq<T>, p: T -> bool)
    ensures Filter(Filter(s, p), p) == Filter(s, p)
  {
    var r := Filter(s, p);
    forall i | 0 <= i < |r| ensures p(r[i]) {
      assert r[i] in r;
    }
    FilterKeepsAll(r, p);
  }

  /** `s.some(p)`. */
  function AnyMatch<T>(s: seq<T>, p: T -> bool): (b: bool)
    ensures b <==> exists i :: 0 <= i < |s| && p(s[i])
  {
    if s == [] then false
    else p(s[0]) || AnyMatch(s[1..], p)
  }

  /** The order the comparator `(a, b) => key(b) - key(a)` asks for. */
  ghost predicate SortedDesc<T>(s: seq<T>, key: T -> int) {
    forall i, j :: 0 <= i < j < |s| ==> key(s[i]) >= key(s[j])
  }

  /** The elements whose key is `k`. */
  function KeyIs<T>(key: T -> int, k: int): T -> bool {
    x => key(x) == k
  }

  /** Elements with equal keys appear in `r` in the order they have in `s`. */
  ghost predicate SameTies<T>(r: seq<T>, s: seq<T>, key: T -> int) {
    forall k :: Filter(r, KeyIs(key, k)) == Filter(s, KeyIs(key, k))
  }

  /** What a stable sort, largest key first, must return for `s`. */
  ghost predicate IsStableSortDesc<T>(s: seq<T>, r: seq<T>, key: T -> int) {
    SortedDesc(r, key) && SameTies(r, s, key)
  }

  /**
   * Inserts `x` into `t` behind every element whose key is at least
   * `key(x)`, moving it forward only past smaller keys.
   */
  function InsertBack<T>(t: seq<T>, x: T, key: T -> int): (r: seq<T>)
    ensures |r| == |t| + 1
    decreases |t|
  {
    if t == [] || key(t[|t| - 1]) >= key(x) then t + [x]
    else InsertBack(t[..|t| - 1], x, key) + [t[|t| - 1]]
  }

  /** Inserting adds `x` and loses nothing. */
  lemma {:induction false} InsertBackPermutation<T>(t: seq<T>, x: T, key: T -> int)
    ensures multiset(InsertBack(t, x, key)) == multiset(t) + multiset{x}
    decreases |t|
  {
    if t != [] && key(t[|t| - 1]) < key(x) {
      InsertBackPermutation(t[..|t| - 1], x, key);
      assert t == t[..|t| - 1] + [t[|t| - 1]];
    }
  }

  /**
   * `s.sort((a, b) => key(b) - key(a))` as a value: every element inserted,
   * in input order, into the sorted result of the ones before it.
   */
  function SortDesc<T>(s: seq<T>, key: T -> int): (r: seq<T>)
    ensures |r| == |s|
    decreases |s|
  {
    if s == [] then []
    else InsertBack(SortDesc(s[..|s| - 1], key), s[|s| - 1], key)
  }

  /** Where `InsertBack` puts `x`: after the last key not below `key(x)`. */
  lemma {:induction false} InsertBackAt<T>(t: seq<T>, x: T, key: T -> int, j: nat)
    requires j <= |t|
    requires forall m :: j <= m < |t| ==> key(t[m]) < key(x)
    requires j == 0 || key(t[j - 1]) >= key(x)
    ensures InsertBack(t, x, key) == t[..j] + [x] + t[j..]
    decreases |t|
  {
    if j < |t| {
      var n := |t| - 1;
      InsertBackAt(t[..n], x, key, j);
      assert t[..n][..j] == t[..j];
      assert t[j..] == t[..n][j..] + [t[n]];
    } else {
      assert t[..j] == t && t[j..] == [];
    }
  }

  lemma {:induction false} InsertBackSorted<T>(t: seq<T>, x: T, key: T -> int)
    requires SortedDesc(t, key)
    ensures SortedDesc(InsertBack(t, x, key), key)
    decreases |t|
  {
    if t != [] && key(t[|t| - 1]) < key(x) {
      var n := |t| - 1;
      var u := InsertBack(t[..n], x, key);
      InsertBackSorted(t[..n], x, key);
      InsertBackPermutation(t[..n], x, key);
      forall i | 0 <= i < |u| ensures key(u[i]) >= key(t[n]) {
        assert u[i] in multiset(u);
        if u[i] != x {
          assert u[i] in t[..n];
        }
      }
    }
  }

  lemma {:induction false} InsertBackTies<T>(t: seq<T>, x: T, key: T -> int, k: int)
    ensures Filter(InsertBack(t, x, key), KeyIs(key, k))
         == Filter(t, KeyIs(key, k)) + (if key(x) == k then [x] else [])
    decreases |t|
  {
    var p := KeyIs(key, k);
    if t == [] || key(t[|t| - 1]) >= key(x) {
      FilterAppend(t, [x], p);
    } else {
      var n := |t| - 1;
      InsertBackTies(t[..n], x, key, k);
      FilterAppend(InsertBack(t[..n], x, key), [t[n]], p);
      assert t == t[..n] + [t[n]];
      FilterAppend(t[..n], [t[n]], p);
    }
  }

  /** The sort returns its input in non-increasing key order. */
  lemma {:induction false} SortDescSorted<T>(s: seq<T>, key: T -> int)
    ensures SortedDesc(SortDesc(s, key), key)
    decreases |s|
  {
    if s != [] {
      SortDescSorted(s[..|s| - 1], key);
      InsertBackSorted(SortDesc(s[..|s| - 1], key), s[|s| - 1], key);
    }
  }

  /** The sort returns a permutation of its input. */
  lemma {:induction false} SortDescPermutation<T>(s: seq<T>, key: T -> int)
    ensures multiset(SortDesc(s, key)) == multiset(s)
    decreases |s|
  {
    if s != [] {
      var n := |s| - 1;
      SortDescPermutation(s[..n], key);
      InsertBackPermutation(SortDesc(s[..n], key), s[n], key);
      assert s == s[..n] + [s[n]];
    }
  }

  /** Equal keys keep their input order: the sort is stable. */
  lemma {:induction false} SortDescStable<T>(s: seq<T>, key: T -> int)
    ensures SameTies(SortDesc(s, key), s, key)
    decreases |s|
  {
    if s != [] {
      var n := |s| - 1;
      SortDescStable(s[..n], key);
      forall k ensures Filter(SortDesc(s, key), KeyIs(key, k)) == Filter(s, KeyIs(key, k)) {
        InsertBackTies(SortDesc(s[..n], key), s[n], key, k);
        assert s == s[..n] + [s[n]];
        FilterAppend(s[..n], [s[n]], KeyIs(key, k));
      }
    }
  }

  /** The sort meets the stable-sort specification. */
  lemma SortDescIsStableSort<T>(s: seq<T>, key: T -> int)
    ensures IsStableSortDesc(s, SortDesc(s, key), key)
    ensures multiset(SortDesc(s, key)) == multiset(s)
  {
    SortDescSorted(s, key);
    SortDescStable(s, key);
    SortDescPermutation(s, key);
  }

  /** The first element of a sorted sequence has a key no smaller than any other element's. */
  lemma TopKeyIsMax<T>(a: seq<T>, key: T -> int, y: T)
    requires SortedDesc(a, key) && y in a
    ensures key(a[0]) >= key(y)
  {
    var j :| 0 <= j < |a| && a[j] == y;
    if j > 0 {
      assert key(a[0]) >= key(a[j]);
    }
  }

  /** Sequences with the same ties contain the same elements. */
  lemma TiesShareElements<T>(a: seq<T>, b: seq<T>, key: T -> int, i: nat)
    requires SameTies(a, b, key) && i < |b|
    ensures b[i] in a
  {
    var p := KeyIs(key, key(b[i]));
    FilterKeeps(b, p, i);
    assert Filter(a, p) == Filter(b, p);
  }

  /** Sorted sequences with the same ties start with keys that agree. */
  lemma SameHeadKey<T>(a: seq<T>, b: seq<T>, key: T -> int)
    requires SortedDesc(a, key) && SortedDesc(b, key)
    requires SameTies(a, b, key) && SameTies(b, a, key)
    requires a != [] && b != []
    ensures key(a[0]) == key(b[0])
  {
    TiesShareElements(a, b, key, 0);
    TiesShareElements(b, a, key, 0);
    TopKeyIsMax(a, key, b[0]);
    TopKeyIsMax(b, key, a[0]);
  }

  /** Filtering a non-empty sequence looks at its head, then at its tail. */
  lemma FilterFirst<T>(s: seq<T>, p: T -> bool)
    requires s != []
    ensures Filter(s, p) == (if p(s[0]) then [s[0]] else []) + Filter(s[1..], p)
  {
  }

  /** Sequences whose heads share a key and whose ties agree agree after the head. */
  lemma SameHead<T>(a: seq<T>, b: seq<T>, key: T -> int)
    requires SameTies(a, b, key)
    requires a != [] && b != [] && key(a[0]) == key(b[0])
    ensures a[0] == b[0]
    ensures SameTies(a[1..], b[1..], key)
  {
    var p := KeyIs(key, key(a[0]));
    FilterFirst(a, p);
    FilterFirst(b, p);
    assert p(a[0]) && p(b[0]);
    assert Filter(a, p) == Filter(b, p);
    assert Filter(a, p)[0] == a[0] && Filter(b, p)[0] == b[0];
    assert a[0] == b[0];
    forall k ensures Filter(a[1..], KeyIs(key, k)) == Filter(b[1..], KeyIs(key, k)) {
      var q := KeyIs(key, k);
      FilterFirst(a, q);
      FilterFirst(b, q);
      assert q(a[0]) == q(b[0]);
      assert Filter(a, q) == Filter(b, q);
      if q(a[0]) {
        assert Filter(a[1..], q) == Filter(a, q)[1..];
        assert Filter(b[1..], q) == Filter(b, q)[1..];
      } else {
        assert Filter(a[1..], q) == Filter(a, q);
        assert Filter(b[1..], q) == Filter(b, q);
      }
      assert Filter(a[1..], q) == Filter(b[1..], q);
    }
  }

  /** Two sorted sequences with the same ties are the same sequence. */
  lemma {:induction false} SortedTiesUnique<T>(a: seq<T>, b: seq<T>, key: T -> int)
    requires SortedDesc(a, key) && SortedDesc(b, key)
    requires SameTies(a, b, key)
    ensures a == b
    decreases |a|
  {
    if a != [] {
      TiesShareElements(b, a, key, 0);
    }
    if b != [] {
      TiesShareElements(a, b, key, 0);
    }
    if a != [] && b != [] {
      SameHeadKey(a, b, key);
      SameHead(a, b, key);
      SortedTiesUnique(a[1..], b[1..], key);
      assert a == [a[0]] + a[1..] && b == [b[0]] + b[1..];
    }
  }

  /** Any stable sort, largest key first, returns exactly `SortDesc`. */
  lemma StableSortIsSortDesc<T>(s: seq<T>, r: seq<T>, key: T -> int)
    requires IsStableSortDesc(s, r, key)
    ensures r == SortDesc(s, key)
  {
    SortDescIsStableSort(s, key);
    SortedTiesUnique(r, SortDesc(s, key), key);
  }

  /** When every key is the same the sort changes nothing. */
  lemma ConstantKeyKeepsOrder<T>(s: seq<T>, key: T -> int, c: int)
    requires forall i :: 0 <= i < |s| ==> key(s[i]) == c
    ensures SortDesc(s, key) == s
  {
    StableSortIsSortDesc(s, s, key);
  }
}
