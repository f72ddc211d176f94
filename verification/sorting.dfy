/** A stable sort by an integer key: the behaviour Python's `sorted(xs, key=f)`
    promises once every key has been computed. */
module Sorting {

  /** Non-decreasing by `key`. */
  ghost predicate SortedBy<T>(s: seq<T>, key: T -> int) {
    forall i, j :: 0 <= i < j < |s| ==> key(s[i]) <= key(s[j])
  }

  /** The elements of `s` whose key is `k`, in their order in `s`. */
  function WithKey<T>(s: seq<T>, key: T -> int, k: int): seq<T> {
    if |s| == 0 then []
    else (if key(s[0]) == k then [s[0]] else []) + WithKey(s[1..], key, k)
  }

  /** `x` placed into sorted `s` before the first element whose key is at
      least its own, so after every element with a smaller key and before
      every element with an equal one. */
  function Insert<T>(x: T, s: seq<T>, key: T -> int): (r: seq<T>)
    requires SortedBy(s, key)
    ensures multiset(r) == multiset{x} + multiset(s)
    ensures SortedBy(r, key)
  {
    if |s| == 0 then [x]
    else if key(x) <= key(s[0]) then [x] + s
    else
      var t := Insert(x, s[1..], key);
      assert s == [s[0]] + s[1..];
      LowerBound(t, x, s[1..], key, key(s[0]));
      [s[0]] + t
  }

  /** A bound on the keys of `x` and of `u` bounds every key of a sequence
      holding exactly `x` and the elements of `u`. */
  lemma LowerBound<T>(t: seq<T>, x: T, u: seq<T>, key: T -> int, b: int)
    requires multiset(t) == multiset{x} + multiset(u)
    requires b <= key(x) && forall j :: 0 <= j < |u| ==> b <= key(u[j])
    ensures forall j :: 0 <= j < |t| ==> b <= key(t[j])
  {
    forall j | 0 <= j < |t|
      ensures b <= key(t[j])
    {
      assert t[j] in multiset(t);
      if t[j] != x {
        assert t[j] in multiset(u);
      }
    }
  }

  /** Insertion sort: a permutation of `s`, non-decreasing by `key`. */
  function SortBy<T>(s: seq<T>, key: T -> int): (r: seq<T>)
    ensures multiset(r) == multiset(s)
    ensures SortedBy(r, key)
  {
    if |s| == 0 then []
    else
      assert s == [s[0]] + s[1..];
      Insert(s[0], SortBy(s[1..], key), key)
  }

  /** Filtering by key distributes over a leading element. */
  lemma WithKeyCons<T>(x: T, t: seq<T>, key: T -> int, k: int)
    ensures WithKey([x] + t, key, k) == (if key(x) == k then [x] else []) + WithKey(t, key, k)
  {
    assert ([x] + t)[1..] == t;
  }

  /** Of two one-element-at-most prefixes, one of which is empty, the order
      does not matter. */
  lemma SwapEmpty<T>(first: seq<T>, here: seq<T>, rest: seq<T>)
    requires first == [] || here == []
    ensures first + (here + rest) == here + (first + rest)
  {
  }

  lemma {:induction false} InsertWithKey<T>(x: T, s: seq<T>, key: T -> int, k: int)
    requires SortedBy(s, key)
    ensures WithKey(Insert(x, s, key), key, k)
         == (if key(x) == k then [x] else []) + WithKey(s, key, k)
  {
    if |s| == 0 {
      WithKeyCons(x, [], key, k);
    } else if key(x) <= key(s[0]) {
      WithKeyCons(x, s, key, k);
    } else {
      assert SortedBy(s[1..], key);
      var t := Insert(x, s[1..], key);
      InsertWithKey(x, s[1..], key, k);
      PassOver(x, s, key, k, t);
    }
  }

  /** Inserting past a first element with a smaller key: the filtered result
      is that of the tail with `x` inserted, behind the first element. */
  lemma PassOver<T>(x: T, s: seq<T>, key: T -> int, k: int, t: seq<T>)
    requires |s| > 0 && key(s[0]) < key(x)
    requires WithKey(t, key, k) == (if key(x) == k then [x] else []) + WithKey(s[1..], key, k)
    ensures WithKey([s[0]] + t, key, k) == (if key(x) == k then [x] else []) + WithKey(s, key, k)
  {
    var here: seq<T> := if key(x) == k then [x] else [];
    var first: seq<T> := if key(s[0]) == k then [s[0]] else [];
    WithKeyCons(s[0], t, key, k);
    WithKeyCons(s[0], s[1..], key, k);
    assert s == [s[0]] + s[1..];
    // `s[0]` has a smaller key than `x`, so at most one of them has key `k`.
    SwapEmpty(first, here, WithKey(s[1..], key, k));
  }

  /** Stability: among elements with equal keys, the sort keeps their input order. */
  lemma {:induction false} SortByStable<T>(s: seq<T>, key: T -> int, k: int)
    ensures WithKey(SortBy(s, key), key, k) == WithKey(s, key, k)
  {
    if |s| > 0 {
      SortByStable(s[1..], key, k);
      InsertWithKey(s[0], SortBy(s[1..], key), key, k);
    }
  }

  /** Two elements given in descending key order are swapped. */
  lemma SortByPair<T>(a: T, b: T, key: T -> int)
    requires key(b) < key(a)
    ensures SortBy([a, b], key) == [b, a]
  {
    assert [a, b][1..] == [b];
    assert SortBy([b], key) == [b];
  }

  /** Sorting an already sorted sequence changes nothing. */
  lemma {:induction false} SortBySorted<T>(s: seq<T>, key: T -> int)
    requires SortedBy(s, key)
    ensures SortBy(s, key) == s
  {
    if |s| > 0 {
      assert SortedBy(s[1..], key);
      SortBySorted(s[1..], key);
      assert s == [s[0]] + s[1..];
    }
  }

  /** Elements of `s` that share a key are equal. */
  ghost predicate KeyDetermines<T>(s: multiset<T>, key: T -> int) {
    forall x, y :: x in s && y in s && key(x) == key(y) ==> x == y
  }

  /** When every element's key is its position, the key determines the element. */
  lemma PositionKeysDetermine<T>(s: seq<T>, key: T -> int)
    requires forall i :: 0 <= i < |s| ==> key(s[i]) == i
    ensures KeyDetermines(multiset(s), key)
  {
    forall x, y | x in multiset(s) && y in multiset(s) && key(x) == key(y)
      ensures x == y
    {
      var i :| 0 <= i < |s| && s[i] == x;
      var j :| 0 <= j < |s| && s[j] == y;
    }
  }

  /** The first element of a sorted sequence has the least key. */
  lemma HeadLeast<T>(a: seq<T>, key: T -> int, x: T)
    requires SortedBy(a, key) && |a| > 0 && x in multiset(a)
    ensures key(a[0]) <= key(x)
  {
    var i :| 0 <= i < |a| && a[i] == x;
  }

  lemma SortedTail<T>(a: seq<T>, key: T -> int)
    requires SortedBy(a, key) && |a| > 0
    ensures SortedBy(a[1..], key)
  {
  }

  lemma KeyDeterminesSub<T>(m: multiset<T>, m': multiset<T>, key: T -> int)
    requires m' <= m && KeyDetermines(m, key)
    ensures KeyDetermines(m', key)
  {
  }

  lemma SameHead<T>(a: seq<T>, b: seq<T>, key: T -> int)
    requires |a| > 0 && |b| > 0 && multiset(a) == multiset(b)
    requires SortedBy(a, key) && SortedBy(b, key)
    requires KeyDetermines(multiset(a), key)
    ensures a[0] == b[0]
  {
    assert a[0] in multiset(a) && b[0] in multiset(b);
    HeadLeast(a, key, b[0]);
    HeadLeast(b, key, a[0]);
  }

  lemma SameTail<T>(a: seq<T>, b: seq<T>)
    requires |a| > 0 && |b| > 0 && multiset(a) == multiset(b) && a[0] == b[0]
    ensures multiset(a[1..]) == multiset(b[1..]) <= multiset(a)
  {
    assert a == [a[0]] + a[1..] && b == [b[0]] + b[1..];
    assert multiset(a) == multiset{a[0]} + multiset(a[1..]);
    assert multiset(b) == multiset{b[0]} + multiset(b[1..]);
    assert multiset(a[1..]) == multiset(a) - multiset{a[0]};
    assert multiset(b[1..]) == multiset(b) - multiset{b[0]};
  }

  /** Two sorted arrangements of the same elements are identical when no two
      different elements share a key. */
  lemma {:induction false} SortedUnique<T>(a: seq<T>, b: seq<T>, key: T -> int)
    requires multiset(a) == multiset(b)
    requires SortedBy(a, key) && SortedBy(b, key)
    requires KeyDetermines(multiset(a), key)
    ensures a == b
    decreases |a|
  {
    assert |a| == |multiset(a)| == |multiset(b)| == |b|;
    if |a| > 0 {
      SameHead(a, b, key);
      SameTail(a, b);
      SortedTail(a, key);
      SortedTail(b, key);
      KeyDeterminesSub(multiset(a), multiset(a[1..]), key);
      SortedUnique(a[1..], b[1..], key);
      HeadTailEqual(a, b);
    }
  }

  lemma HeadTailEqual<T>(a: seq<T>, b: seq<T>)
    requires |a| > 0 && |b| > 0 && a[0] == b[0] && a[1..] == b[1..]
    ensures a == b
  {
    assert a == [a[0]] + a[1..] && b == [b[0]] + b[1..];
  }

  /** When no two different elements share a key, the sort's result depends
      only on which elements it is given, not on their input order. */
  lemma SortByOrderIndependent<T>(a: seq<T>, b: seq<T>, key: T -> int)
    requires multiset(a) == multiset(b)
    requires KeyDetermines(multiset(a), key)
    ensures SortBy(a, key) == SortBy(b, key)
  {
    SortedUnique(SortBy(a, key), SortBy(b, key), key);
  }
}
