/**
 * A stable sort by a numeric key, as JavaScript's array sort performs it with a
 * comparator that subtracts one element's key from the other's: the result is ordered by the key and
 * elements with equal keys keep the order they had in the input.
 *
 * `SortBy` is the specification (an insertion sort on sequences); `InsertionSort`
 * sorts an array in place and is proved to produce exactly `SortBy` of the old
 * contents.
 */
module StableSort {

  /** `s` is in non-decreasing order of `key`. */
  predicate SortedBy<T>(s: seq<T>, key: T -> real) {
    forall i, j :: 0 <= i < j < |s| ==> key(s[i]) <= key(s[j])
  }

  /** The elements of `s` whose key is `k`, in their order in `s`. */
  function WithKey<T>(s: seq<T>, key: T -> real, k: real): (r: seq<T>)
    ensures |r| <= |s|
  {
    if s == [] then [] else KeyPart(s[0], key, k) + WithKey(s[1..], key, k)
  }

  /** `[x]` when `x` has key `k`, otherwise empty. */
  function KeyPart<T>(x: T, key: T -> real, k: real): seq<T> {
    if key(x) == k then [x] else []
  }

  lemma WithKeyCons<T>(y: T, t: seq<T>, key: T -> real, k: real)
    ensures WithKey([y] + t, key, k) == KeyPart(y, key, k) + WithKey(t, key, k)
  {
    assert ([y] + t)[0] == y;
    assert ([y] + t)[1..] == t;
  }

  /** Places `x` into `s` after every element whose key is not larger than `x`'s. */
  function Insert<T>(s: seq<T>, x: T, key: T -> real): (r: seq<T>)
    ensures |r| == |s| + 1
  {
    if s == [] then [x]
    else if key(s[0]) <= key(x) then
      [s[0]] + Insert(s[1..], x, key)
    else [x] + s
  }

  /** Stable insertion sort: the elements are inserted from left to right. */
  function SortBy<T>(s: seq<T>, key: T -> real): (r: seq<T>)
    ensures |r| == |s|
  {
    if s == [] then []
    else Insert(SortBy(s[..|s| - 1], key), s[|s| - 1], key)
  }

  lemma {:induction false} InsertPermutes<T>(s: seq<T>, x: T, key: T -> real)
    ensures multiset(Insert(s, x, key)) == multiset(s) + multiset{x}
  {
    if s != [] && key(s[0]) <= key(x) {
      InsertPermutes(s[1..], x, key);
      assert s == [s[0]] + s[1..];
    }
  }

  /** The output of `SortBy` is a permutation of its input. */
  lemma {:induction false} SortByPermutes<T>(s: seq<T>, key: T -> real)
    ensures multiset(SortBy(s, key)) == multiset(s)
  {
    if s != [] {
      SortByPermutes(s[..|s| - 1], key);
      InsertPermutes(SortBy(s[..|s| - 1], key), s[|s| - 1], key);
      assert s == s[..|s| - 1] + [s[|s| - 1]];
    }
  }

  /** No element of `s` has a key below `v`. */
  predicate KeysAtLeast<T>(s: seq<T>, key: T -> real, v: real) {
    forall i :: 0 <= i < |s| ==> v <= key(s[i])
  }

  lemma {:induction false} InsertKeysAtLeast<T>(s: seq<T>, x: T, key: T -> real, v: real)
    requires KeysAtLeast(s, key, v) && v <= key(x)
    ensures KeysAtLeast(Insert(s, x, key), key, v)
  {
    if s != [] && key(s[0]) <= key(x) {
      InsertKeysAtLeast(s[1..], x, key, v);
    }
  }

  /** Inserting into a sorted sequence keeps it sorted. */
  lemma {:induction false} InsertSorted<T>(s: seq<T>, x: T, key: T -> real)
    requires SortedBy(s, key)
    ensures SortedBy(Insert(s, x, key), key)
  {
    if s != [] && key(s[0]) <= key(x) {
      var rest := Insert(s[1..], x, key);
      InsertSorted(s[1..], x, key);
      InsertKeysAtLeast(s[1..], x, key, key(s[0]));
      var r := [s[0]] + rest;
      forall i, j | 0 <= i < j < |r| ensures key(r[i]) <= key(r[j]) {
        assert r[j] == rest[j - 1];
        if 0 < i {
          assert r[i] == rest[i - 1];
        }
      }
    }
  }

  /** The output of `SortBy` is ordered by the key. */
  lemma {:induction false} SortBySorted<T>(s: seq<T>, key: T -> real)
    ensures SortedBy(SortBy(s, key), key)
  {
    if s != [] {
      SortBySorted(s[..|s| - 1], key);
      InsertSorted(SortBy(s[..|s| - 1], key), s[|s| - 1], key);
    }
  }

  lemma {:induction false} WithKeyAppend<T>(a: seq<T>, b: seq<T>, key: T -> real, k: real)
    ensures WithKey(a + b, key, k) == WithKey(a, key, k) + WithKey(b, key, k)
  {
    if a == [] {
      assert a + b == b;
    } else {
      assert (a + b)[0] == a[0];
      assert (a + b)[1..] == a[1..] + b;
      WithKeyAppend(a[1..], b, key, k);
    }
  }

  lemma {:induction false} WithKeyEmpty<T>(s: seq<T>, key: T -> real, k: real)
    requires forall i :: 0 <= i < |s| ==> key(s[i]) != k
    ensures WithKey(s, key, k) == []
  {
    if s != [] {
      WithKeyEmpty(s[1..], key, k);
    }
  }

  /** Inserting `x` into a sorted sequence puts it after every element of its own key. */
  lemma {:induction false} InsertWithKey<T>(s: seq<T>, x: T, key: T -> real, k: real)
    requires SortedBy(s, key)
    ensures WithKey(Insert(s, x, key), key, k)
         == WithKey(s, key, k) + KeyPart(x, key, k)
  {
    if s == [] {
      assert [x] == [x] + [];
      WithKeyCons(x, [], key, k);
    } else if key(s[0]) <= key(x) {
      var rest := Insert(s[1..], x, key);
      InsertWithKey(s[1..], x, key, k);
      WithKeyCons(s[0], rest, key, k);
    } else {
      WithKeyCons(x, s, key, k);
      if key(x) == k {
        forall i | 0 <= i < |s| ensures key(s[i]) != k {
          assert key(s[0]) <= key(s[i]);
        }
        WithKeyEmpty(s, key, k);
      }
    }
  }

  /** Stability: the elements with any one key come out in their input order. */
  lemma {:induction false} SortByStable<T>(s: seq<T>, key: T -> real, k: real)
    ensures WithKey(SortBy(s, key), key, k) == WithKey(s, key, k)
  {
    if s != [] {
      var init, last := s[..|s| - 1], s[|s| - 1];
      SortByStable(init, key, k);
      SortBySorted(init, key);
      InsertWithKey(SortBy(init, key), last, key, k);
      assert s == init + [last];
      WithKeyAppend(init, [last], key, k);
      assert [last] == [last] + [];
      WithKeyCons(last, [], key, k);
    }
  }

  /** Where the inner loop of `InsertionSort` stops is where `Insert` puts `x`. */
  lemma {:induction false} InsertAt<T>(s: seq<T>, x: T, j: nat, key: T -> real)
    requires SortedBy(s, key)
    requires j <= |s|
    requires 0 < j ==> key(s[j - 1]) <= key(x)
    requires j < |s| ==> key(x) < key(s[j])
    ensures Insert(s, x, key) == s[..j] + [x] + s[j..]
  {
    if j == 0 {
      assert s[j..] == s;
    } else {
      assert key(s[0]) <= key(x);
      InsertAt(s[1..], x, j - 1, key);
      assert s[1..][..j - 1] == s[1..j];
      assert s[1..][j - 1..] == s[j..];
      assert s[..j] == [s[0]] + s[1..j];
    }
  }

  /** A sorted sequence with `x` slotted in at position `j` as `InsertAt` allows is `Insert`'s result. */
  lemma ShiftedIsInsert<T>(b: seq<T>, sorted: seq<T>, x: T, j: nat, key: T -> real)
    requires SortedBy(sorted, key)
    requires |b| == |sorted| + 1 && j <= |sorted| && b[j] == x
    requires forall k :: 0 <= k < j ==> b[k] == sorted[k]
    requires forall k :: j < k < |b| ==> b[k] == sorted[k - 1]
    requires 0 < j ==> key(sorted[j - 1]) <= key(x)
    requires j < |sorted| ==> key(x) < key(sorted[j])
    ensures b == Insert(sorted, x, key)
  {
    InsertAt(sorted, x, j, key);
    var inserted := sorted[..j] + [x] + sorted[j..];
    forall k | 0 <= k < |b| ensures b[k] == inserted[k] {
      if k < j {
        assert inserted[k] == sorted[k];
      } else if k > j {
        assert inserted[k] == sorted[k - 1];
      }
    }
  }

  /** Moves `a[i]` left into the sorted prefix `a[..i]`, as one pass of insertion sort. */
  method InsertIntoPrefix<T>(a: array<T>, i: nat, key: T -> real)
    requires i < a.Length
    requires SortedBy(a[..i], key)
    modifies a
    ensures a[..i + 1] == Insert(old(a[..i]), old(a[i]), key)
    ensures a[i + 1..] == old(a[i + 1..])
  {
    ghost var sorted := a[..i];
    var x := a[i];
    var j := i;
    while 0 < j && key(x) < key(a[j - 1])
      invariant 0 <= j <= i
      invariant a[j] == x
      invariant forall k :: 0 <= k < j ==> a[k] == sorted[k]
      invariant forall k :: j < k <= i ==> a[k] == sorted[k - 1]
      invariant forall k :: j < k <= i ==> key(x) < key(a[k])
      invariant forall k :: i < k < a.Length ==> a[k] == old(a[k])
    {
      a[j - 1], a[j] := a[j], a[j - 1];
      j := j - 1;
    }
    if j < i {
      assert a[j + 1] == sorted[j];
    }
    ShiftedIsInsert(a[..i + 1], sorted, x, j, key);
  }

  /** Sorts `a` in place; the result is exactly the specification `SortBy`. */
  method InsertionSort<T>(a: array<T>, key: T -> real)
    modifies a
    ensures a[..] == SortBy(old(a[..]), key)
  {
    ghost var orig := a[..];
    var i := 0;
    while i < a.Length
      invariant 0 <= i <= a.Length
      invariant a[..i] == SortBy(orig[..i], key)
      invariant a[i..] == orig[i..]
    {
      SortBySorted(orig[..i], key);
      InsertIntoPrefix(a, i, key);
      assert orig[..i + 1][..i] == orig[..i];
      assert orig[i] == orig[..i + 1][i];
      i := i + 1;
    }
    assert a[..] == a[..a.Length];
    assert orig[..a.Length] == orig;
  }
}
