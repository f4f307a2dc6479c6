/** Sequence operations the application gets from JavaScript's built-ins:
    the stable `Array.prototype.sort` with a numeric comparator, and the
    first-occurrence order of `Array.from(new Set(xs))`. */
module Sequences {

  predicate Distinct<T(==)>(s: seq<T>) {
    forall i, j :: 0 <= i < j < |s| ==> s[i] != s[j]
  }

  /** `s` is ordered by ascending `key`. */
  predicate Sorted<T>(s: seq<T>, key: T -> real) {
    forall i, j :: 0 <= i < j < |s| ==> key(s[i]) <= key(s[j])
  }

  /** The elements of `s` whose key is `v`, in their order in `s`. */
  function KeyFilter<T>(s: seq<T>, key: T -> real, v: real): seq<T> {
    if s == [] then []
    else (if key(s[0]) == v then [s[0]] else []) + KeyFilter(s[1..], key, v)
  }

  /** Puts `x` in front of the first element whose key is not smaller, so
      that `x` stays ahead of the elements with the same key. */
  function Insert<T>(x: T, s: seq<T>, key: T -> real): (r: seq<T>)
    ensures |r| == |s| + 1
  {
    if s == [] || key(x) <= key(s[0]) then [x] + s
    else [s[0]] + Insert(x, s[1..], key)
  }

  lemma {:induction false} InsertElements<T>(x: T, s: seq<T>, key: T -> real)
    ensures multiset(Insert(x, s, key)) == multiset(s) + multiset{x}
  {
    if !(s == [] || key(x) <= key(s[0])) {
      InsertElements(x, s[1..], key);
      assert s == [s[0]] + s[1..];
    }
  }

  lemma {:induction false} InsertLowerBound<T>(x: T, s: seq<T>, key: T -> real, b: real)
    requires b <= key(x)
    requires forall i :: 0 <= i < |s| ==> b <= key(s[i])
    ensures forall i :: 0 <= i < |Insert(x, s, key)| ==> b <= key(Insert(x, s, key)[i])
  {
    if s == [] || key(x) <= key(s[0]) {
      var r := [x] + s;
      forall i | 0 <= i < |r|
        ensures b <= key(r[i])
      {
        if i > 0 {
          assert r[i] == s[i - 1];
        }
      }
    } else {
      var t := Insert(x, s[1..], key);
      forall i | 0 <= i < |s| - 1
        ensures b <= key(s[1..][i])
      {
        assert s[1..][i] == s[i + 1];
      }
      InsertLowerBound(x, s[1..], key, b);
      var r := [s[0]] + t;
      forall i | 0 <= i < |r|
        ensures b <= key(r[i])
      {
        if i > 0 {
          assert r[i] == t[i - 1];
        }
      }
    }
  }

  lemma {:induction false} SortedTail<T>(s: seq<T>, key: T -> real)
    requires Sorted(s, key) && s != []
    ensures Sorted(s[1..], key)
    ensures forall i :: 0 <= i < |s| - 1 ==> key(s[0]) <= key(s[1..][i])
  {
    forall i, j | 0 <= i < j < |s| - 1
      ensures key(s[1..][i]) <= key(s[1..][j])
    {
      assert s[1..][i] == s[i + 1] && s[1..][j] == s[j + 1];
    }
    forall i | 0 <= i < |s| - 1
      ensures key(s[0]) <= key(s[1..][i])
    {
      assert s[1..][i] == s[i + 1];
    }
  }

  lemma {:induction false} InsertSorted<T>(x: T, s: seq<T>, key: T -> real)
    requires Sorted(s, key)
    ensures Sorted(Insert(x, s, key), key)
  {
    if s == [] || key(x) <= key(s[0]) {
      var r := [x] + s;
      forall i, j | 0 <= i < j < |r|
        ensures key(r[i]) <= key(r[j])
      {
        assert r[j] == s[j - 1];
        if i > 0 {
          assert r[i] == s[i - 1];
        }
      }
    } else {
      var t := Insert(x, s[1..], key);
      SortedTail(s, key);
      InsertSorted(x, s[1..], key);
      InsertLowerBound(x, s[1..], key, key(s[0]));
      var r := [s[0]] + t;
      forall i, j | 0 <= i < j < |r|
        ensures key(r[i]) <= key(r[j])
      {
        assert r[j] == t[j - 1];
        if i > 0 {
          assert r[i] == t[i - 1];
        }
      }
    }
  }

  /** A sort by ascending `key` that keeps elements with equal keys in their
      input order, as a comparator `(a, b) => key(a) - key(b)` does under the
      stable `Array.prototype.sort`. */
  function StableSort<T>(s: seq<T>, key: T -> real): (r: seq<T>)
    ensures |r| == |s|
  {
    if s == [] then [] else Insert(s[0], StableSort(s[1..], key), key)
  }

  /** The sort is a permutation of its input and its result is sorted. */
  lemma {:induction false} StableSortCorrect<T>(s: seq<T>, key: T -> real)
    ensures multiset(StableSort(s, key)) == multiset(s)
    ensures Sorted(StableSort(s, key), key)
  {
    if s != [] {
      StableSortCorrect(s[1..], key);
      InsertElements(s[0], StableSort(s[1..], key), key);
      InsertSorted(s[0], StableSort(s[1..], key), key);
      assert s == [s[0]] + s[1..];
    }
  }

  /** The sort keeps exactly the elements of its input. */
  lemma {:induction false} StableSortMembers<T>(s: seq<T>, key: T -> real)
    ensures forall y :: y in StableSort(s, key) <==> y in s
  {
    StableSortCorrect(s, key);
    forall y
      ensures y in StableSort(s, key) <==> y in s
    {
      assert y in StableSort(s, key) <==> y in multiset(StableSort(s, key));
      assert y in s <==> y in multiset(s);
    }
  }

  lemma {:induction false} KeyFilterCons<T>(y: T, t: seq<T>, key: T -> real, v: real)
    ensures KeyFilter([y] + t, key, v) == (if key(y) == v then [y] else []) + KeyFilter(t, key, v)
  {
    assert ([y] + t)[0] == y && ([y] + t)[1..] == t;
  }

  lemma {:induction false} InsertKeyFilter<T>(x: T, s: seq<T>, key: T -> real, v: real)
    ensures KeyFilter(Insert(x, s, key), key, v)
         == (if key(x) == v then [x] else []) + KeyFilter(s, key, v)
  {
    if s == [] || key(x) <= key(s[0]) {
      KeyFilterCons(x, s, key, v);
    } else {
      var t := Insert(x, s[1..], key);
      InsertKeyFilter(x, s[1..], key, v);
      KeyFilterCons(s[0], t, key, v);
      var ax := if key(x) == v then [x] else [];
      var a0 := if key(s[0]) == v then [s[0]] else [];
      assert ax == [] || a0 == [];
      assert a0 + ax == ax + a0;
      assert a0 + (ax + KeyFilter(s[1..], key, v)) == ax + (a0 + KeyFilter(s[1..], key, v));
    }
  }

  /** Stability: the elements sharing any one key keep their input order. */
  lemma {:induction false} StableSortKeepsOrder<T>(s: seq<T>, key: T -> real, v: real)
    ensures KeyFilter(StableSort(s, key), key, v) == KeyFilter(s, key, v)
  {
    if s != [] {
      StableSortKeepsOrder(s[1..], key, v);
      InsertKeyFilter(s[0], StableSort(s[1..], key), key, v);
    }
  }

  lemma {:induction false} DistinctTail<T>(s: seq<T>)
    requires Distinct(s) && s != []
    ensures s[0] !in s[1..] && Distinct(s[1..])
  {
    forall j | 0 <= j < |s| - 1
      ensures s[1..][j] != s[0]
    {
      assert s[1..][j] == s[j + 1];
    }
  }

  lemma {:induction false} InsertDistinct<T>(x: T, s: seq<T>, key: T -> real)
    requires Distinct(s) && x !in s
    ensures Distinct(Insert(x, s, key))
  {
    if s != [] {
      DistinctTail(s);
    }
    if !(s == [] || key(x) <= key(s[0])) {
      var t := Insert(x, s[1..], key);
      InsertDistinct(x, s[1..], key);
      InsertElements(x, s[1..], key);
      assert s[0] !in multiset(s[1..]) && s[0] != x;
      assert s[0] !in multiset(t);
      assert s[0] !in t;
      var r := [s[0]] + t;
      forall i, j | 0 <= i < j < |r|
        ensures r[i] != r[j]
      {
        assert r[j] == t[j - 1];
        if i > 0 {
          assert r[i] == t[i - 1];
        }
      }
    }
  }

  lemma {:induction false} StableSortDistinct<T>(s: seq<T>, key: T -> real)
    requires Distinct(s)
    ensures Distinct(StableSort(s, key))
  {
    if s != [] {
      DistinctTail(s);
      StableSortDistinct(s[1..], key);
      StableSortMembers(s[1..], key);
      InsertDistinct(s[0], StableSort(s[1..], key), key);
    }
  }

  predicate StrictlyDescending(s: seq<int>) {
    forall i, j :: 0 <= i < j < |s| ==> s[i] > s[j]
  }

  /** A set of integers has only one strictly descending enumeration. */
  lemma {:induction false} StrictlyDescendingUnique(a: seq<int>, b: seq<int>)
    requires StrictlyDescending(a) && StrictlyDescending(b)
    requires forall x :: x in a <==> x in b
    ensures a == b
    decreases |a|
  {
    assert a != [] ==> a[0] in a && a[0] in b;
    assert b != [] ==> b[0] in b && b[0] in a;
    if a != [] && b != [] {
      assert a[0] == b[0] by {
        assert a[0] in b && b[0] in a;
      }
      forall x
        ensures x in a[1..] <==> x in b[1..]
      {
        if x in a[1..] {
          assert x in b && x != b[0];
        }
        if x in b[1..] {
          assert x in a && x != a[0];
        }
      }
      StrictlyDescendingUnique(a[1..], b[1..]);
      assert a == [a[0]] + a[1..] && b == [b[0]] + b[1..];
    }
  }

  // ---------------------------------------------------------------------------
  // Array.from(new Set(xs))

  /** The index of the first occurrence of `x` in `s`. */
  function FirstIndex<T(==)>(s: seq<T>, x: T): (i: nat)
    requires x in s
    ensures i < |s| && s[i] == x && x !in s[..i]
  {
    if s[0] == x then 0 else 1 + FirstIndex(s[1..], x)
  }

  /** Keeps the first occurrence of every element, in order: the iteration
      order of a `Set` filled from `s`. */
  function Dedup<T(==,!new)>(s: seq<T>): (r: seq<T>)
    ensures Distinct(r)
    ensures forall x :: x in r <==> x in s
    ensures |r| <= |s|
    ensures s != [] ==> r != [] && r[0] == s[0]
  {
    if s == [] then []
    else
      var p := Dedup(s[..|s| - 1]);
      assert s[..|s| - 1] != [] ==> s[..|s| - 1][0] == s[0];
      if s[|s| - 1] in p then p else p + [s[|s| - 1]]
  }

  lemma {:induction false} FirstIndexOfPrefix<T>(s: seq<T>, n: nat, x: T)
    requires n <= |s| && x in s[..n]
    ensures FirstIndex(s, x) == FirstIndex(s[..n], x)
  {
    var i := FirstIndex(s[..n], x);
    assert s[..n][..i] == s[..i];
    FirstIndexUnique(s, x, i);
  }

  lemma {:induction false} FirstIndexUnique<T>(s: seq<T>, x: T, i: nat)
    requires i < |s| && s[i] == x && x !in s[..i]
    ensures FirstIndex(s, x) == i
  {
    if i > 0 {
      assert s[0] == s[..i][0];
      assert s[1..][..i - 1] == s[..i][1..];
      FirstIndexUnique(s[1..], x, i - 1);
    }
  }

  /** The kept elements appear in the order of their first occurrences. */
  lemma {:induction false} DedupFirstOccurrenceOrder<T(!new)>(s: seq<T>)
    ensures forall i, j :: 0 <= i < j < |Dedup(s)| ==>
      FirstIndex(s, Dedup(s)[i]) < FirstIndex(s, Dedup(s)[j])
  {
    if s != [] {
      var q := s[..|s| - 1];
      var last := s[|s| - 1];
      var p := Dedup(q);
      DedupFirstOccurrenceOrder(q);
      var r := Dedup(s);
      forall i, j | 0 <= i < j < |r|
        ensures FirstIndex(s, r[i]) < FirstIndex(s, r[j])
      {
        assert r[i] == p[i];
        assert r[i] in q;
        FirstIndexOfPrefix(s, |s| - 1, r[i]);
        if j < |p| {
          assert r[j] == p[j];
          FirstIndexOfPrefix(s, |s| - 1, r[j]);
        } else {
          assert r[j] == last && last !in q;
          assert s[..|s| - 1] == q;
          FirstIndexUnique(s, last, |s| - 1);
        }
      }
    }
  }
}
