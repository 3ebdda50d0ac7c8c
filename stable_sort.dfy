/**
  Stable sorting by an integer key.

  JavaScript's Array.prototype.sort is stable, so `xs.sort((a, b) => key(a) - key(b))`
  orders the elements by non-decreasing key and keeps elements with equal keys in
  their input order. That result is unique; SortByKey below is its reference
  definition (insertion sort on values), and InsertionSort computes it in place.
 */
module StableSort {

  /** Keys never decrease along s. */
  predicate SortedBy<T>(s: seq<T>, key: T -> int) {
    forall i, j :: 0 <= i < j < |s| ==> key(s[i]) <= key(s[j])
  }

  /** Puts x after the last element of s whose key is at most key(x). */
  function Insert<T>(s: seq<T>, x: T, key: T -> int): seq<T>
  {
    if s == [] || key(s[|s| - 1]) <= key(x) then s + [x]
    else Insert(s[..|s| - 1], x, key) + [s[|s| - 1]]
  }

  /** The stable sort of s by key. */
  function SortByKey<T>(s: seq<T>, key: T -> int): seq<T>
  {
    if s == [] then [] else Insert(SortByKey(s[..|s| - 1], key), s[|s| - 1], key)
  }

  /** The elements of s with key k, in their order in s. */
  function WithKey<T>(s: seq<T>, key: T -> int, k: int): seq<T>
  {
    if s == [] then []
    else WithKey(s[..|s| - 1], key, k) + (if key(s[|s| - 1]) == k then [s[|s| - 1]] else [])
  }

  lemma {:induction false} InsertFacts<T>(s: seq<T>, x: T, key: T -> int)
    ensures |Insert(s, x, key)| == |s| + 1
    ensures multiset(Insert(s, x, key)) == multiset(s) + multiset{x}
    ensures SortedBy(s, key) ==> SortedBy(Insert(s, x, key), key)
  {
    if s == [] || key(s[|s| - 1]) <= key(x) {
    } else {
      var init, last := s[..|s| - 1], s[|s| - 1];
      assert s == init + [last];
      InsertFacts(init, x, key);
      var r := Insert(init, x, key);
      if SortedBy(s, key) {
        forall i | 0 <= i < |r| ensures key(r[i]) <= key(last) {
          assert r[i] in multiset(r);
          if r[i] != x {
            assert r[i] in multiset(init);
            var j :| 0 <= j < |init| && init[j] == r[i];
            assert s[j] == r[i];
          }
        }
      }
    }
  }

  /** The sort is an ordered permutation of its input. */
  lemma {:induction false} SortFacts<T>(s: seq<T>, key: T -> int)
    ensures |SortByKey(s, key)| == |s|
    ensures multiset(SortByKey(s, key)) == multiset(s)
    ensures SortedBy(SortByKey(s, key), key)
  {
    if s != [] {
      var init, last := s[..|s| - 1], s[|s| - 1];
      assert s == init + [last];
      SortFacts(init, key);
      InsertFacts(SortByKey(init, key), last, key);
    }
  }

  /** Sorting an already sorted sequence changes nothing. */
  lemma {:induction false} SortedIsFixed<T>(s: seq<T>, key: T -> int)
    requires SortedBy(s, key)
    ensures SortByKey(s, key) == s
  {
    if s != [] {
      var init := s[..|s| - 1];
      assert SortedBy(init, key);
      SortedIsFixed(init, key);
      assert init + [s[|s| - 1]] == s;
    }
  }

  /** Sorting twice is sorting once. */
  lemma SortIdempotent<T>(s: seq<T>, key: T -> int)
    ensures SortByKey(SortByKey(s, key), key) == SortByKey(s, key)
  {
    SortFacts(s, key);
    SortedIsFixed(SortByKey(s, key), key);
  }

  lemma {:induction false} WithKeyAppend<T>(a: seq<T>, b: seq<T>, key: T -> int, k: int)
    ensures WithKey(a + b, key, k) == WithKey(a, key, k) + WithKey(b, key, k)
  {
    if b != [] {
      var init := b[..|b| - 1];
      assert (a + b)[..|a + b| - 1] == a + init;
      WithKeyAppend(a, init, key, k);
    } else {
      assert a + b == a;
    }
  }

  lemma {:induction false} InsertStable<T>(s: seq<T>, x: T, key: T -> int, k: int)
    ensures WithKey(Insert(s, x, key), key, k) == WithKey(s, key, k) + (if key(x) == k then [x] else [])
  {
    if s == [] || key(s[|s| - 1]) <= key(x) {
      WithKeyAppend(s, [x], key, k);
      assert WithKey([x], key, k) == WithKey([], key, k) + (if key(x) == k then [x] else []);
    } else {
      var init, last := s[..|s| - 1], s[|s| - 1];
      assert Insert(s, x, key) == Insert(init, x, key) + [last];
      assert WithKey(s, key, k) == WithKey(init, key, k) + (if key(last) == k then [last] else []);
      InsertStable(init, x, key, k);
      WithKeyAppend(Insert(init, x, key), [last], key, k);
      assert WithKey([last], key, k) == WithKey([], key, k) + (if key(last) == k then [last] else []);
    }
  }

  /** Stability: for every key, the elements carrying it keep their input order. */
  lemma {:induction false} SortIsStable<T>(s: seq<T>, key: T -> int, k: int)
    ensures WithKey(SortByKey(s, key), key, k) == WithKey(s, key, k)
  {
    if s != [] {
      var init := s[..|s| - 1];
      SortIsStable(init, key, k);
      InsertStable(SortByKey(init, key), s[|s| - 1], key, k);
    }
  }

  /** Insert places x right after the last element whose key is at most key(x). */
  lemma {:induction false} InsertSplits<T>(s: seq<T>, x: T, key: T -> int, j: nat)
    requires j <= |s|
    requires j == 0 || key(s[j - 1]) <= key(x)
    requires forall k :: j <= k < |s| ==> key(s[k]) > key(x)
    ensures Insert(s, x, key) == s[..j] + [x] + s[j..]
    decreases |s|
  {
    if j < |s| {
      var init := s[..|s| - 1];
      assert init[..j] == s[..j];
      InsertSplits(init, x, key, j);
      assert s[j..] == init[j..] + [s[|s| - 1]];
    }
  }

  /** Moves a[i] left past the elements of a[..i] with a larger key. */
  method InsertLast<T>(a: array<T>, i: nat, key: T -> int)
    requires i < a.Length
    modifies a
    ensures a[..i + 1] == Insert(old(a[..i]), old(a[i]), key)
    ensures a[i + 1..] == old(a[i + 1..])
  {
    ghost var sorted := a[..i];
    var x := a[i];
    var j := i;
    while j > 0 && key(a[j - 1]) > key(x)
      invariant 0 <= j <= i
      invariant forall k :: 0 <= k < j ==> a[k] == sorted[k]
      invariant forall k :: j < k <= i ==> a[k] == sorted[k - 1]
      invariant forall k :: i < k < a.Length ==> a[k] == old(a[k])
      invariant forall k :: j <= k < i ==> key(sorted[k]) > key(x)
    {
      a[j] := a[j - 1];
      j := j - 1;
    }
    a[j] := x;
    InsertSplits(sorted, x, key, j);
    assert a[..i + 1] == sorted[..j] + [x] + sorted[j..];
  }

  /** Sorts a in place by key, stably: insertion sort shifting larger keys right. */
  method InsertionSort<T>(a: array<T>, key: T -> int)
    modifies a
    ensures a[..] == SortByKey(old(a[..]), key)
  {
    ghost var input := a[..];
    var i := 0;
    while i < a.Length
      invariant 0 <= i <= a.Length
      invariant a[..i] == SortByKey(input[..i], key)
      invariant a[i..] == input[i..]
    {
      assert a[i] == input[i];
      InsertLast(a, i, key);
      assert input[..i + 1][..i] == input[..i];
      assert a[i + 1..] == input[i + 1..];
      i := i + 1;
    }
    assert input[..a.Length] == input;
    assert a[..a.Length] == a[..];
  }
}
