/**
 * JavaScript's `Array.prototype.sort` with a numeric comparator
 * `(a, b) => key(a) - key(b)`: a stable sort by an ascending key.  A
 * descending order is the ascending order of the negated key.
 */
module Sorting {

  import Seqs

  predicate SortedBy<T>(s: seq<T>, key: T -> real) {
    forall i, j :: 0 <= i < j < |s| ==> key(s[i]) <= key(s[j])
  }

  /** Inserts `x` after every element whose key is at most `key(x)`. */
  function Insert<T(==)>(x: T, s: seq<T>, key: T -> real): (r: seq<T>)
    requires SortedBy(s, key)
    ensures SortedBy(r, key)
    ensures multiset(r) == multiset(s) + multiset{x}
  {
    if s == [] then [x]
    else if key(x) < key(s[0]) then [x] + s
    else
      SortedTail(s, key);
      var rest := Insert(x, s[1..], key);
      assert multiset(s) == multiset{s[0]} + multiset(s[1..]) by { assert s == [s[0]] + s[1..]; }
      LowerBoundKept(s[1..], x, rest, key, key(s[0]));
      ConsSorted(s[0], rest, key);
      [s[0]] + rest
  }

  lemma SortedTail<T>(s: seq<T>, key: T -> real)
    requires s != [] && SortedBy(s, key)
    ensures SortedBy(s[1..], key)
    ensures forall i :: 0 <= i < |s[1..]| ==> key(s[0]) <= key(s[1..][i])
  {
  }

  lemma ConsSorted<T>(h: T, r: seq<T>, key: T -> real)
    requires SortedBy(r, key) && forall i :: 0 <= i < |r| ==> key(h) <= key(r[i])
    ensures SortedBy([h] + r, key)
  {
  }

  /** A rearrangement of elements that all have a key of at least `b` has only such keys. */
  lemma LowerBoundKept<T>(s: seq<T>, x: T, r: seq<T>, key: T -> real, b: real)
    requires forall i :: 0 <= i < |s| ==> b <= key(s[i])
    requires b <= key(x)
    requires multiset(r) == multiset(s) + multiset{x}
    ensures forall i :: 0 <= i < |r| ==> b <= key(r[i])
  {
    forall i | 0 <= i < |r| ensures b <= key(r[i]) {
      assert r[i] in multiset(r);
      if r[i] != x {
        assert r[i] in multiset(s);
        var j :| 0 <= j < |s| && s[j] == r[i];
      }
    }
  }

  /** The sorted copy `[...s].sort(...)`. */
  function SortBy<T(==)>(s: seq<T>, key: T -> real): (r: seq<T>)
    ensures SortedBy(r, key)
    ensures multiset(r) == multiset(s)
    ensures |r| == |s|
  {
    if s == [] then []
    else
      var init, last := s[..|s| - 1], s[|s| - 1];
      assert s == init + [last];
      var sorted := SortBy(init, key);
      var r := Insert(last, sorted, key);
      assert multiset(r) == multiset(s);
      assert |r| == |multiset(r)| == |multiset(s)| == |s|;
      r
  }

  /** The elements of `s` whose key is `v`, in order. */
  function WithKey<T>(s: seq<T>, key: T -> real, v: real): seq<T> {
    if s == [] then []
    else (if key(s[0]) == v then [s[0]] else []) + WithKey(s[1..], key, v)
  }

  lemma {:induction false} WithKeyAppend<T>(s: seq<T>, x: T, key: T -> real, v: real)
    ensures WithKey(s + [x], key, v) == WithKey(s, key, v) + (if key(x) == v then [x] else [])
  {
    if s != [] {
      assert (s + [x])[1..] == s[1..] + [x];
      WithKeyAppend(s[1..], x, key, v);
    }
  }

  lemma {:induction false} WithKeyInsert<T>(x: T, s: seq<T>, key: T -> real, v: real)
    requires SortedBy(s, key)
    ensures WithKey(Insert(x, s, key), key, v) == WithKey(s, key, v) + (if key(x) == v then [x] else [])
  {
    if s == [] {
      assert Insert(x, s, key) == [x];
      assert WithKey([x], key, v) == (if key(x) == v then [x] else []) + WithKey([x][1..], key, v);
    } else if key(x) < key(s[0]) {
      WithKeyInsertFront(x, s, key, v);
    } else {
      SortedTail(s, key);
      WithKeyInsert(x, s[1..], key, v);
      WithKeyInsertBehind(x, s, key, v);
    }
  }

  /** Inserting before the head: `x` comes first, and no later element can share its key. */
  lemma WithKeyInsertFront<T>(x: T, s: seq<T>, key: T -> real, v: real)
    requires SortedBy(s, key) && s != [] && key(x) < key(s[0])
    ensures WithKey(Insert(x, s, key), key, v) == WithKey(s, key, v) + (if key(x) == v then [x] else [])
  {
    var r := [x] + s;
    assert Insert(x, s, key) == r;
    assert r[1..] == s;
    assert WithKey(r, key, v) == (if key(x) == v then [x] else []) + WithKey(s, key, v);
    if key(x) == v {
      WithKeyAllAbove(s, key, v);
    }
  }

  /** Inserting behind the head: the head stays in front of the insertion into the tail. */
  lemma WithKeyInsertBehind<T>(x: T, s: seq<T>, key: T -> real, v: real)
    requires SortedBy(s, key) && s != [] && !(key(x) < key(s[0]))
    requires SortedBy(s[1..], key)
    requires WithKey(Insert(x, s[1..], key), key, v) == WithKey(s[1..], key, v) + (if key(x) == v then [x] else [])
    ensures WithKey(Insert(x, s, key), key, v) == WithKey(s, key, v) + (if key(x) == v then [x] else [])
  {
    var rest := Insert(x, s[1..], key);
    InsertBehind(x, s, key);
    var head := if key(s[0]) == v then [s[0]] else [];
    var tail := if key(x) == v then [x] else [];
    var ws := WithKey(s[1..], key, v);
    WithKeyCons(s[0], rest, key, v);
    WithKeyUnfold(s, key, v);
    Seqs.ConcatChain(WithKey(Insert(x, s, key), key, v), WithKey(rest, key, v), WithKey(s, key, v), head, ws, tail);
  }

  lemma WithKeyUnfold<T>(s: seq<T>, key: T -> real, v: real)
    requires s != []
    ensures WithKey(s, key, v) == (if key(s[0]) == v then [s[0]] else []) + WithKey(s[1..], key, v)
  {
  }


  lemma InsertBehind<T>(x: T, s: seq<T>, key: T -> real)
    requires SortedBy(s, key) && s != [] && !(key(x) < key(s[0]))
    requires SortedBy(s[1..], key)
    ensures Insert(x, s, key) == [s[0]] + Insert(x, s[1..], key)
  {
  }

  lemma WithKeyCons<T>(h: T, t: seq<T>, key: T -> real, v: real)
    ensures WithKey([h] + t, key, v) == (if key(h) == v then [h] else []) + WithKey(t, key, v)
  {
    assert ([h] + t)[1..] == t;
  }

  lemma {:induction false} WithKeyAllAbove<T>(s: seq<T>, key: T -> real, v: real)
    requires SortedBy(s, key)
    requires s != [] ==> v < key(s[0])
    ensures WithKey(s, key, v) == []
  {
    if s != [] {
      WithKeyAllAbove(s[1..], key, v);
    }
  }

  /** Stability: the elements that share a key keep their input order. */
  lemma {:induction false} SortByStable<T>(s: seq<T>, key: T -> real, v: real)
    ensures WithKey(SortBy(s, key), key, v) == WithKey(s, key, v)
  {
    if s != [] {
      var init, last := s[..|s| - 1], s[|s| - 1];
      assert s == init + [last];
      SortByStable(init, key, v);
      WithKeyInsert(last, SortBy(init, key), key, v);
      WithKeyAppend(init, last, key, v);
    }
  }
}
