/**
 * LINQ's `OrderByDescending(key)` and `Select(f)` on sequences.
 *
 * `OrderByDescending` is a stable sort: elements whose keys are equal keep
 * the order they had in the input. It is defined here as an insertion sort
 * and then characterised independently: the result is sorted by descending
 * key, is a permutation of the input, keeps the relative order of equal keys,
 * and is the only sequence with those properties.
 */
module Ordering {

  predicate SortedDesc<T>(s: seq<T>, key: T -> int) {
    forall i, j :: 0 <= i < j < |s| ==> key(s[i]) >= key(s[j])
  }

  /** The elements of `s` whose key is `k`, in the order they occur in `s`. */
  function WithKey<T>(s: seq<T>, key: T -> int, k: int): seq<T> {
    if s == [] then []
    else (if key(s[0]) == k then [s[0]] else []) + WithKey(s[1..], key, k)
  }

  /**
   * Places `x` in front of the first element whose key is not larger than
   * its own; every element it passes has a strictly larger key.
   */
  function InsertDesc<T>(x: T, s: seq<T>, key: T -> int): (r: seq<T>)
    ensures |r| == |s| + 1
  {
    if s == [] || key(s[0]) <= key(x) then [x] + s
    else [s[0]] + InsertDesc(x, s[1..], key)
  }

  /** `OrderByDescending(key)`: the elements, largest key first, equal keys in input order. */
  function OrderByDescending<T>(s: seq<T>, key: T -> int): (r: seq<T>)
    ensures |r| == |s|
  {
    if s == [] then [] else InsertDesc(s[0], OrderByDescending(s[1..], key), key)
  }

  lemma {:induction false} InsertDescSorted<T>(x: T, s: seq<T>, key: T -> int)
    requires SortedDesc(s, key)
    ensures SortedDesc(InsertDesc(x, s, key), key)
    ensures InsertDesc(x, s, key)[0] == x || InsertDesc(x, s, key)[0] == s[0]
  {
    if s != [] && key(s[0]) > key(x) {
      InsertDescSorted(x, s[1..], key);
    }
  }

  /** The result is in descending order of key. */
  lemma {:induction false} OrderByDescendingSorted<T>(s: seq<T>, key: T -> int)
    ensures SortedDesc(OrderByDescending(s, key), key)
  {
    if s != [] {
      OrderByDescendingSorted(s[1..], key);
      InsertDescSorted(s[0], OrderByDescending(s[1..], key), key);
    }
  }

  /** `Select(f)`: `f` applied to each element, in order. */
  function Select<A, B>(s: seq<A>, f: A -> B): (r: seq<B>)
    ensures |r| == |s|
    ensures forall i :: 0 <= i < |s| ==> r[i] == f(s[i])
  {
    if s == [] then [] else [f(s[0])] + Select(s[1..], f)
  }

  lemma {:induction false} InsertDescCount<T>(x: T, s: seq<T>, key: T -> int)
    ensures multiset(InsertDesc(x, s, key)) == multiset(s) + multiset{x}
  {
    if s != [] && key(s[0]) > key(x) {
      InsertDescCount(x, s[1..], key);
      assert s == [s[0]] + s[1..];
    }
  }

  /** The sorted sequence is a permutation of the input. */
  lemma {:induction false} OrderByDescendingPermutes<T>(s: seq<T>, key: T -> int)
    ensures multiset(OrderByDescending(s, key)) == multiset(s)
  {
    if s != [] {
      OrderByDescendingPermutes(s[1..], key);
      InsertDescCount(s[0], OrderByDescending(s[1..], key), key);
      assert s == [s[0]] + s[1..];
    }
  }

  lemma {:induction false} InsertDescWithKey<T>(x: T, s: seq<T>, key: T -> int, k: int)
    ensures WithKey(InsertDesc(x, s, key), key, k)
         == (if key(x) == k then [x] else []) + WithKey(s, key, k)
  {
    var r := InsertDesc(x, s, key);
    if s == [] || key(s[0]) <= key(x) {
      assert r == [x] + s;
      assert r[0] == x && r[1..] == s;
    } else {
      var t := InsertDesc(x, s[1..], key);
      assert r == [s[0]] + t;
      assert r[0] == s[0] && r[1..] == t;
      InsertDescWithKey(x, s[1..], key, k);
      var hs := if key(s[0]) == k then [s[0]] else [];
      assert WithKey(r, key, k) == hs + WithKey(t, key, k);
      assert WithKey(s, key, k) == hs + WithKey(s[1..], key, k);
    }
  }

  /** Stability: for every key, the elements carrying it keep their input order. */
  lemma {:induction false} OrderByDescendingStable<T>(s: seq<T>, key: T -> int, k: int)
    ensures WithKey(OrderByDescending(s, key), key, k) == WithKey(s, key, k)
  {
    if s != [] {
      OrderByDescendingStable(s[1..], key, k);
      InsertDescWithKey(s[0], OrderByDescending(s[1..], key), key, k);
    }
  }

  lemma {:induction false} WithKeyWitness<T>(s: seq<T>, key: T -> int, k: int) returns (j: nat)
    requires WithKey(s, key, k) != []
    ensures j < |s| && key(s[j]) == k
  {
    if key(s[0]) == k {
      j := 0;
    } else {
      var j' := WithKeyWitness(s[1..], key, k);
      j := j' + 1;
    }
  }

  lemma WithKeyOfHead<T>(s: seq<T>, key: T -> int)
    requires s != []
    ensures WithKey(s, key, key(s[0])) != []
  {
  }

  /**
   * A stable descending sort has only one possible result: two sequences
   * that are both sorted and agree on the order of the elements of every key
   * are equal.
   */
  lemma {:induction false} StableSortUnique<T>(a: seq<T>, b: seq<T>, key: T -> int)
    requires SortedDesc(a, key) && SortedDesc(b, key)
    requires forall k :: WithKey(a, key, k) == WithKey(b, key, k)
    ensures a == b
  {
    if a == [] || b == [] {
      if a != [] { WithKeyOfHead(a, key); }
      if b != [] { WithKeyOfHead(b, key); }
    } else {
      SortedHeadsAgree(a, b, key);
      WithKeyTails(a, b, key);
      StableSortUnique(a[1..], b[1..], key);
      assert a == [a[0]] + a[1..] && b == [b[0]] + b[1..];
    }
  }

  /** Two sorted sequences that agree on every key start with the same element. */
  lemma SortedHeadsAgree<T>(a: seq<T>, b: seq<T>, key: T -> int)
    requires a != [] && b != []
    requires SortedDesc(a, key) && SortedDesc(b, key)
    requires forall k :: WithKey(a, key, k) == WithKey(b, key, k)
    ensures a[0] == b[0]
  {
    var ja := WithKeyWitness(b, key, key(a[0]));
    var jb := WithKeyWitness(a, key, key(b[0]));
    assert key(a[0]) == key(b[0]);
    assert WithKey(a, key, key(a[0]))[0] == a[0];
    assert WithKey(b, key, key(a[0]))[0] == b[0];
  }

  /** Dropping a common first element keeps the agreement on every key. */
  lemma WithKeyTails<T>(a: seq<T>, b: seq<T>, key: T -> int)
    requires a != [] && b != [] && a[0] == b[0]
    requires forall k :: WithKey(a, key, k) == WithKey(b, key, k)
    ensures forall k :: WithKey(a[1..], key, k) == WithKey(b[1..], key, k)
  {
    forall k
      ensures WithKey(a[1..], key, k) == WithKey(b[1..], key, k)
    {
      assert WithKey(a, key, k) == WithKey(b, key, k);
      if key(a[0]) == k {
        assert WithKey(a[1..], key, k) == WithKey(a, key, k)[1..];
        assert WithKey(b[1..], key, k) == WithKey(b, key, k)[1..];
      } else {
        assert WithKey(a[1..], key, k) == WithKey(a, key, k);
        assert WithKey(b[1..], key, k) == WithKey(b, key, k);
      }
    }
  }

  /** Sorting what is already sorted changes nothing. */
  lemma {:induction false} OrderByDescendingOfSorted<T>(s: seq<T>, key: T -> int)
    requires SortedDesc(s, key)
    ensures OrderByDescending(s, key) == s
  {
    if s != [] {
      OrderByDescendingOfSorted(s[1..], key);
      assert s == [s[0]] + s[1..];
    }
  }

  /** Projecting with `Select` before or after sorting gives the same sequence, when the projection keeps the key. */
  lemma {:induction false} SelectInsertDesc<A, B>(x: A, s: seq<A>, f: A -> B, ka: A -> int, kb: B -> int)
    requires forall y :: kb(f(y)) == ka(y)
    ensures Select(InsertDesc(x, s, ka), f) == InsertDesc(f(x), Select(s, f), kb)
  {
    if s != [] && ka(s[0]) > ka(x) {
      SelectInsertDesc(x, s[1..], f, ka, kb);
      assert Select(s, f)[1..] == Select(s[1..], f);
    }
  }

  lemma {:induction false} SelectOrderByDescending<A, B>(s: seq<A>, f: A -> B, ka: A -> int, kb: B -> int)
    requires forall y :: kb(f(y)) == ka(y)
    ensures Select(OrderByDescending(s, ka), f) == OrderByDescending(Select(s, f), kb)
  {
    if s != [] {
      SelectOrderByDescending(s[1..], f, ka, kb);
      SelectInsertDesc(s[0], OrderByDescending(s[1..], ka), f, ka, kb);
      assert Select(s, f)[1..] == Select(s[1..], f);
    }
  }

  lemma {:induction false} WithKeyConcat<T>(a: seq<T>, b: seq<T>, key: T -> int, k: int)
    ensures WithKey(a + b, key, k) == WithKey(a, key, k) + WithKey(b, key, k)
  {
    if a == [] {
      assert a + b == b;
    } else {
      assert (a + b)[0] == a[0];
      assert (a + b)[1..] == a[1..] + b;
      WithKeyConcat(a[1..], b, key, k);
      var head := if key(a[0]) == k then [a[0]] else [];
      assert WithKey(a + b, key, k) == head + WithKey(a[1..] + b, key, k);
      assert WithKey(a, key, k) == head + WithKey(a[1..], key, k);
    }
  }

  /**
   * The first `m` elements of the sorted sequence (LINQ's `Take(m)` after
   * `OrderByDescending`) are drawn from the input, none of them has a smaller
   * key than an element left out, and for every key they are the earliest
   * input elements carrying it.
   */
  lemma {:induction false} TakeOfOrderByDescending<T>(s: seq<T>, key: T -> int, m: nat)
    requires m <= |s|
    ensures multiset(OrderByDescending(s, key)[..m]) <= multiset(s)
    ensures forall x, i :: (x in multiset(s) - multiset(OrderByDescending(s, key)[..m]) && 0 <= i < m
      ==> key(OrderByDescending(s, key)[i]) >= key(x))
    ensures forall k :: WithKey(OrderByDescending(s, key)[..m], key, k) <= WithKey(s, key, k)
  {
    var sorted := OrderByDescending(s, key);
    var top, rest := sorted[..m], sorted[m..];
    assert sorted == top + rest;
    OrderByDescendingPermutes(s, key);
    OrderByDescendingSorted(s, key);
    assert multiset(s) == multiset(top) + multiset(rest);
    forall x, i | x in multiset(s) - multiset(top) && 0 <= i < m
      ensures key(sorted[i]) >= key(x)
    {
      assert x in rest;
      var j :| 0 <= j < |rest| && rest[j] == x;
      assert sorted[m + j] == x;
    }
    forall k
      ensures WithKey(top, key, k) <= WithKey(s, key, k)
    {
      WithKeyConcat(top, rest, key, k);
      OrderByDescendingStable(s, key, k);
    }
  }

  /** No two elements of `s` have the same image under `f`. */
  predicate DistinctBy<T, U(==)>(s: seq<T>, f: T -> U) {
    forall i, j :: 0 <= i < j < |s| ==> f(s[i]) != f(s[j])
  }

  lemma {:induction false} InsertDescDistinct<T, U>(x: T, s: seq<T>, key: T -> int, f: T -> U)
    requires DistinctBy(s, f)
    requires forall i :: 0 <= i < |s| ==> f(s[i]) != f(x)
    ensures DistinctBy(InsertDesc(x, s, key), f)
  {
    if s != [] && key(s[0]) > key(x) {
      var t := InsertDesc(x, s[1..], key);
      InsertDescDistinct(x, s[1..], key, f);
      InsertDescCount(x, s[1..], key);
      forall j | 0 <= j < |t|
        ensures f(s[0]) != f(t[j])
      {
        assert t[j] in multiset(t);
        if t[j] != x {
          assert t[j] in multiset(s[1..]);
          var k :| 0 <= k < |s[1..]| && s[1..][k] == t[j];
          assert s[k + 1] == t[j];
        }
      }
    }
  }

  /** Sorting keeps the elements apart: a `DistinctBy` input gives a `DistinctBy` result. */
  lemma {:induction false} OrderByDescendingDistinct<T, U>(s: seq<T>, key: T -> int, f: T -> U)
    requires DistinctBy(s, f)
    ensures DistinctBy(OrderByDescending(s, key), f)
  {
    if s != [] {
      var t := OrderByDescending(s[1..], key);
      OrderByDescendingDistinct(s[1..], key, f);
      OrderByDescendingPermutes(s[1..], key);
      forall j | 0 <= j < |t|
        ensures f(t[j]) != f(s[0])
      {
        assert t[j] in multiset(s[1..]);
        var k :| 0 <= k < |s[1..]| && s[1..][k] == t[j];
        assert s[k + 1] == t[j];
      }
      InsertDescDistinct(s[0], t, key, f);
    }
  }
}
