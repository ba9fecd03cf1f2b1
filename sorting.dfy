/**
 * The stable, descending sort by an integer key that the backend applies twice:
 * to the match results by `matchScore` (Array.prototype.sort with the comparator
 * `(a, b) => b.matchScore - a.matchScore`, which ECMAScript 2019 requires to be
 * stable, section 22.1.3.27) and to the job history by `analysisDate`.
 *
 * StableSortDesc is the specification: insertion of each element, in input order,
 * after every element already placed whose key is at least its own. SortInPlace is
 * the in-place algorithm on an array, proved to produce exactly that sequence.
 */
module Sorting {

  /** Keys never increase from left to right. */
  predicate SortedDesc<T>(s: seq<T>, key: T -> int)
  {
    forall i, j :: 0 <= i < j < |s| ==> key(s[i]) >= key(s[j])
  }

  /** The elements of `s` whose key is `k`, in the order they appear in `s`. */
  function WithKey<T>(s: seq<T>, key: T -> int, k: int): seq<T>
  {
    if s == [] then []
    else WithKey(s[..|s| - 1], key, k) + (if key(s[|s| - 1]) == k then [s[|s| - 1]] else [])
  }

  /** `t` with `x` placed just after the last element, scanning from the end, whose key is at least key(x); at the front when there is none. */
  function Insert<T>(t: seq<T>, x: T, key: T -> int): seq<T>
  {
    if t == [] then [x]
    else if key(t[|t| - 1]) >= key(x) then t + [x]
    else Insert(t[..|t| - 1], x, key) + [t[|t| - 1]]
  }

  /** Stable descending sort: each element is inserted, in input order, into the sorted prefix. */
  function StableSortDesc<T>(s: seq<T>, key: T -> int): seq<T>
  {
    if s == [] then []
    else Insert(StableSortDesc(s[..|s| - 1], key), s[|s| - 1], key)
  }

  lemma {:induction false} WithKeyAppend<T>(a: seq<T>, b: seq<T>, key: T -> int, k: int)
    ensures WithKey(a + b, key, k) == WithKey(a, key, k) + WithKey(b, key, k)
    decreases |b|
  {
    if b == [] {
      assert a + b == a;
    } else {
      var b' := b[..|b| - 1];
      assert (a + b)[..|a + b| - 1] == a + b';
      WithKeyAppend(a, b', key, k);
    }
  }

  lemma {:induction false} InsertLength<T>(t: seq<T>, x: T, key: T -> int)
    ensures |Insert(t, x, key)| == |t| + 1
    decreases |t|
  {
    if t != [] && key(t[|t| - 1]) < key(x) {
      InsertLength(t[..|t| - 1], x, key);
    }
  }

  lemma {:induction false} InsertMultiset<T>(t: seq<T>, x: T, key: T -> int)
    ensures multiset(Insert(t, x, key)) == multiset(t) + multiset{x}
    decreases |t|
  {
    if t != [] && key(t[|t| - 1]) < key(x) {
      var t' := t[..|t| - 1];
      InsertMultiset(t', x, key);
      assert t == t' + [t[|t| - 1]];
    }
  }

  /** Inserting `x` keeps every key class in order and appends `x` to its own class. */
  lemma {:induction false} InsertWithKey<T>(t: seq<T>, x: T, key: T -> int, k: int)
    ensures WithKey(Insert(t, x, key), key, k) == WithKey(t, key, k) + (if key(x) == k then [x] else [])
    decreases |t|
  {
    if t == [] {
    } else if key(t[|t| - 1]) >= key(x) {
      assert (t + [x])[..|t + [x]| - 1] == t;
    } else {
      var t', last := t[..|t| - 1], t[|t| - 1];
      var u := Insert(t', x, key);
      InsertWithKey(t', x, key, k);
      assert (u + [last])[..|u + [last]| - 1] == u;
      assert WithKey(u + [last], key, k)
          == WithKey(t', key, k) + (if key(x) == k then [x] else []) + (if key(last) == k then [last] else []);
    }
  }

  /** An element of Insert(t, x) is an element of t or x itself. */
  lemma InsertElement<T>(t: seq<T>, x: T, key: T -> int, y: T)
    ensures y in Insert(t, x, key) <==> y in t || y == x
  {
    InsertMultiset(t, x, key);
    assert y in Insert(t, x, key) <==> y in multiset(Insert(t, x, key));
  }

  lemma {:induction false} InsertSorted<T>(t: seq<T>, x: T, key: T -> int)
    requires SortedDesc(t, key)
    ensures SortedDesc(Insert(t, x, key), key)
    decreases |t|
  {
    if t == [] {
    } else if key(t[|t| - 1]) >= key(x) {
    } else {
      var t', last := t[..|t| - 1], t[|t| - 1];
      var u := Insert(t', x, key);
      InsertSorted(t', x, key);
      InsertLength(t', x, key);
      forall i | 0 <= i < |u|
        ensures key(u[i]) >= key(last)
      {
        assert u[i] in u;
        InsertElement(t', x, key, u[i]);
        if u[i] != x {
          var m :| 0 <= m < |t'| && t'[m] == u[i];
          assert t[m] == u[i];
        }
      }
    }
  }

  /** When every element of t from position j on has a smaller key than x, x lands before them all. */
  lemma {:induction false} InsertSkipsSmaller<T>(t: seq<T>, x: T, key: T -> int, j: nat)
    requires j <= |t|
    requires forall m :: j <= m < |t| ==> key(t[m]) < key(x)
    ensures Insert(t, x, key) == Insert(t[..j], x, key) + t[j..]
    decreases |t|
  {
    if j == |t| {
      assert t[..j] == t;
    } else {
      var t' := t[..|t| - 1];
      InsertSkipsSmaller(t', x, key, j);
      assert t'[..j] == t[..j];
      assert t'[j..] + [t[|t| - 1]] == t[j..];
    }
  }

  /** The sort yields a descending sequence. */
  lemma {:induction false} StableSortSorted<T>(s: seq<T>, key: T -> int)
    ensures SortedDesc(StableSortDesc(s, key), key)
    decreases |s|
  {
    if s != [] {
      StableSortSorted(s[..|s| - 1], key);
      InsertSorted(StableSortDesc(s[..|s| - 1], key), s[|s| - 1], key);
    }
  }

  /** The sort is a permutation of its input. */
  lemma {:induction false} StableSortPermutation<T>(s: seq<T>, key: T -> int)
    ensures multiset(StableSortDesc(s, key)) == multiset(s)
    ensures |StableSortDesc(s, key)| == |s|
    decreases |s|
  {
    if s != [] {
      var s' := s[..|s| - 1];
      StableSortPermutation(s', key);
      InsertMultiset(StableSortDesc(s', key), s[|s| - 1], key);
      InsertLength(StableSortDesc(s', key), s[|s| - 1], key);
      assert s == s' + [s[|s| - 1]];
    }
  }

  /** Stability: elements with equal keys keep the relative order they had in the input. */
  lemma {:induction false} StableSortStable<T>(s: seq<T>, key: T -> int, k: int)
    ensures WithKey(StableSortDesc(s, key), key, k) == WithKey(s, key, k)
    decreases |s|
  {
    if s != [] {
      var s' := s[..|s| - 1];
      StableSortStable(s', key, k);
      InsertWithKey(StableSortDesc(s', key), s[|s| - 1], key, k);
    }
  }

  /** Moves a[i] left into the descending prefix a[..i], past strictly smaller keys only. */
  method InsertInPlace<T>(a: array<T>, i: nat, key: T -> int)
    requires i < a.Length
    modifies a
    ensures a[..i + 1] == Insert(old(a[..i]), old(a[i]), key)
    ensures a[i + 1..] == old(a[i + 1..])
  {
    var x := a[i];
    ghost var t := a[..i];
    ghost var rest := a[i + 1..];
    var j := i;
    while j > 0 && key(a[j - 1]) < key(x)
      invariant 0 <= j <= i
      invariant a[..j] == t[..j]
      invariant a[j + 1..i + 1] == t[j..i]
      invariant a[i + 1..] == rest
      invariant forall m :: j <= m < i ==> key(t[m]) < key(x)
    {
      a[j] := a[j - 1];
      j := j - 1;
    }
    a[j] := x;
    assert a[..i + 1] == t[..j] + [x] + t[j..i];
    InsertSkipsSmaller(t, x, key, j);
    assert Insert(t[..j], x, key) == t[..j] + [x];
  }

  /** Sorts `a` in place: the array-level counterpart of StableSortDesc. */
  method SortInPlace<T>(a: array<T>, key: T -> int)
    modifies a
    ensures a[..] == StableSortDesc(old(a[..]), key)
  {
    ghost var orig := a[..];
    var i := 0;
    while i < a.Length
      invariant 0 <= i <= a.Length
      invariant a[..i] == StableSortDesc(orig[..i], key)
      invariant a[i..] == orig[i..]
    {
      assert a[i] == orig[i] && a[i + 1..] == orig[i + 1..] by {
        assert a[i..][0] == a[i] && orig[i..][0] == orig[i];
        assert a[i..][1..] == a[i + 1..] && orig[i..][1..] == orig[i + 1..];
      }
      InsertInPlace(a, i, key);
      assert orig[..i + 1][..i] == orig[..i];
      i := i + 1;
    }
    assert orig[..a.Length] == orig;
  }
}
