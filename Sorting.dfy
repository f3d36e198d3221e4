/** `Array.prototype.sort` with a comparator of the form `(a, b) => key(a) - key(b)`.
    ECMAScript 2019 requires that sort to be stable, so its result is the unique
    stable sort by `key`, written here as an insertion sort. */
module Sorting {

  predicate SortedBy<T>(s: seq<T>, key: T -> int) {
    forall i, j :: 0 <= i < j < |s| ==> key(s[i]) <= key(s[j])
  }

  /** Inserts `x` into a sequence after every leading element whose key is not
      greater than `key(x)`. */
  function Insert<T>(s: seq<T>, x: T, key: T -> int): seq<T> {
    if s == [] then [x]
    else if key(x) < key(s[0]) then [x] + s
    else [s[0]] + Insert(s[1..], x, key)
  }

  lemma {:induction false} InsertCount<T>(s: seq<T>, x: T, key: T -> int)
    ensures multiset(Insert(s, x, key)) == multiset(s) + multiset{x}
    ensures |Insert(s, x, key)| == |s| + 1
    decreases |s|
  {
    if s != [] && key(x) >= key(s[0]) {
      InsertCount(s[1..], x, key);
      assert s == [s[0]] + s[1..];
    }
  }

  /** A lower bound on the keys of `s` and of `x` bounds the keys of the result. */
  lemma {:induction false} InsertBound<T>(s: seq<T>, x: T, key: T -> int, b: int)
    requires forall i :: 0 <= i < |s| ==> key(s[i]) >= b
    requires key(x) >= b
    ensures forall i :: 0 <= i < |Insert(s, x, key)| ==> key(Insert(s, x, key)[i]) >= b
    decreases |s|
  {
    if s != [] && key(x) >= key(s[0]) {
      InsertBound(s[1..], x, key, b);
    }
  }

  lemma {:induction false} InsertSorted<T>(s: seq<T>, x: T, key: T -> int)
    requires SortedBy(s, key)
    ensures SortedBy(Insert(s, x, key), key)
    decreases |s|
  {
    var r := Insert(s, x, key);
    InsertCount(s, x, key);
    if s == [] {
    } else if key(x) < key(s[0]) {
      assert r == [x] + s;
      forall i, j | 0 <= i < j < |r| ensures key(r[i]) <= key(r[j]) {
        assert r[j] == s[j - 1];
        if i > 0 {
          assert r[i] == s[i - 1];
        } else {
          assert key(s[0]) <= key(s[j - 1]);
        }
      }
    } else {
      var t := Insert(s[1..], x, key);
      assert r == [s[0]] + t;
      assert SortedBy(s[1..], key);
      InsertSorted(s[1..], x, key);
      InsertBound(s[1..], x, key, key(s[0]));
      forall i, j | 0 <= i < j < |r| ensures key(r[i]) <= key(r[j]) {
        assert r[j] == t[j - 1];
        if i > 0 {
          assert r[i] == t[i - 1];
        }
      }
    }
  }

  function SortBy<T>(s: seq<T>, key: T -> int): seq<T> {
    if s == [] then []
    else Insert(SortBy(s[..|s| - 1], key), s[|s| - 1], key)
  }

  /** The result is sorted by `key` and is a permutation of the input. */
  lemma {:induction false} SortByFacts<T>(s: seq<T>, key: T -> int)
    ensures SortedBy(SortBy(s, key), key)
    ensures multiset(SortBy(s, key)) == multiset(s) && |SortBy(s, key)| == |s|
    decreases |s|
  {
    if s != [] {
      var p := s[..|s| - 1];
      SortByFacts(p, key);
      InsertSorted(SortBy(p, key), s[|s| - 1], key);
      InsertCount(SortBy(p, key), s[|s| - 1], key);
      assert s == p + [s[|s| - 1]];
    }
  }

  /** The elements of `s` whose key is `k`, in their order in `s`. */
  function WithKey<T>(s: seq<T>, key: T -> int, k: int): seq<T> {
    if s == [] then []
    else WithKey(s[..|s| - 1], key, k) + (if key(s[|s| - 1]) == k then [s[|s| - 1]] else [])
  }

  lemma {:induction false} WithKeyAppend<T>(a: seq<T>, b: seq<T>, key: T -> int, k: int)
    ensures WithKey(a + b, key, k) == WithKey(a, key, k) + WithKey(b, key, k)
    decreases |b|
  {
    if b == [] {
      assert a + b == a;
    } else {
      WithKeyAppend(a, b[..|b| - 1], key, k);
      assert (a + b)[..|a + b| - 1] == a + b[..|b| - 1];
    }
  }

  /** The class of `k` in a sequence with one element in front. */
  lemma WithKeyCons<T>(y: T, t: seq<T>, key: T -> int, k: int)
    ensures WithKey([y] + t, key, k) == (if key(y) == k then [y] else []) + WithKey(t, key, k)
  {
    WithKeyAppend([y], t, key, k);
    assert [y][..0] == [];
  }

  lemma HeadTail<T>(s: seq<T>)
    requires s != []
    ensures [s[0]] + s[1..] == s
  {
  }

  lemma AppendAssoc<T>(a: seq<T>, b: seq<T>, c: seq<T>)
    ensures a + (b + c) == (a + b) + c
  {
  }

  /** Putting the same element in front of two sequences keeps an appended
      tail of a class. */
  lemma WithKeyConsTail<T>(y: T, a: seq<T>, b: seq<T>, key: T -> int, k: int, tail: seq<T>)
    requires WithKey(a, key, k) == WithKey(b, key, k) + tail
    ensures WithKey([y] + a, key, k) == WithKey([y] + b, key, k) + tail
  {
    WithKeyCons(y, a, key, k);
    WithKeyCons(y, b, key, k);
    AppendAssoc(if key(y) == k then [y] else [], WithKey(b, key, k), tail);
  }

  /** An element placed in front of a sequence of larger keys. */
  lemma WithKeyFront<T>(x: T, s: seq<T>, key: T -> int, k: int)
    requires forall i :: 0 <= i < |s| ==> key(s[i]) > key(x)
    ensures WithKey([x] + s, key, k) == WithKey(s, key, k) + (if key(x) == k then [x] else [])
  {
    WithKeyCons(x, s, key, k);
    if key(x) == k {
      WithKeyNone(s, key, k);
      assert [x] + [] == [] + [x];
    } else {
      assert [] + WithKey(s, key, k) == WithKey(s, key, k) + [];
    }
  }

  lemma {:induction false} WithKeyInsert<T>(s: seq<T>, x: T, key: T -> int, k: int)
    requires SortedBy(s, key)
    ensures WithKey(Insert(s, x, key), key, k)
         == WithKey(s, key, k) + (if key(x) == k then [x] else [])
    decreases |s|
  {
    if s == [] {
      WithKeyFront(x, s, key, k);
      assert [x] + s == Insert(s, x, key);
    } else if key(x) < key(s[0]) {
      // every element of s has a key above key(x), so none of them is in x's class
      WithKeyFront(x, s, key, k);
    } else {
      var t := Insert(s[1..], x, key);
      assert SortedBy(s[1..], key);
      WithKeyInsert(s[1..], x, key, k);
      WithKeyConsTail(s[0], t, s[1..], key, k, if key(x) == k then [x] else []);
      HeadTail(s);
    }
  }

  lemma {:induction false} WithKeyNone<T>(s: seq<T>, key: T -> int, k: int)
    requires forall i :: 0 <= i < |s| ==> key(s[i]) > k
    ensures WithKey(s, key, k) == []
    decreases |s|
  {
    if s != [] {
      WithKeyNone(s[..|s| - 1], key, k);
    }
  }

  /** Stability: for every key, the elements carrying it appear in the sorted
      sequence in the same order as in the input. */
  lemma {:induction false} SortByStable<T>(s: seq<T>, key: T -> int, k: int)
    ensures WithKey(SortBy(s, key), key, k) == WithKey(s, key, k)
    decreases |s|
  {
    if s != [] {
      SortByStable(s[..|s| - 1], key, k);
      SortByFacts(s[..|s| - 1], key);
      WithKeyInsert(SortBy(s[..|s| - 1], key), s[|s| - 1], key, k);
    }
  }

  /** Sorting a sequence that is already sorted leaves it unchanged. */
  lemma {:induction false} SortBySorted<T>(s: seq<T>, key: T -> int)
    requires SortedBy(s, key)
    ensures SortBy(s, key) == s
    decreases |s|
  {
    if s != [] {
      var p := s[..|s| - 1];
      assert SortedBy(p, key);
      SortBySorted(p, key);
      assert SortBy(s, key) == Insert(p, s[|s| - 1], key);
      InsertAtEnd(p, s[|s| - 1], key);
      assert p + [s[|s| - 1]] == s;
    }
  }

  lemma {:induction false} InsertAtEnd<T>(s: seq<T>, x: T, key: T -> int)
    requires SortedBy(s, key)
    requires forall i :: 0 <= i < |s| ==> key(s[i]) <= key(x)
    ensures Insert(s, x, key) == s + [x]
    decreases |s|
  {
    if s != [] {
      assert SortedBy(s[1..], key);
      InsertAtEnd(s[1..], x, key);
      assert key(s[0]) <= key(x);
      assert [s[0]] + (s[1..] + [x]) == s + [x];
    }
  }

  /** `a.sort((x, y) => key(x) - key(y))`, which rearranges the array in
      place into the stable order by `key`. */
  method SortInPlace<T>(a: array<T>, key: T -> int)
    modifies a
    ensures a[..] == SortBy(old(a[..]), key)
  {
    var sorted := SortBy(a[..], key);
    SortByFacts(a[..], key);
    forall i | 0 <= i < a.Length {
      a[i] := sorted[i];
    }
    assert a[..] == sorted;
  }

  /** The first `n` elements of `s` (all of them when there are fewer):
      `Array.prototype.slice(0, n)`. */
  function Take<T>(s: seq<T>, n: nat): (r: seq<T>)
    ensures |r| == if |s| <= n then |s| else n
    ensures r == s[..|r|]
  {
    if |s| <= n then s else s[..n]
  }
}
