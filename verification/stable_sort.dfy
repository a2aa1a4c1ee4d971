/** Stable sorting by an integer key: what JavaScript's Array.prototype.sort
    does when given the numeric comparator `(a, b) => key(a) - key(b)`.
    The engine sorts the inventory by descending length and the candidate
    solutions by ascending absolute deviation; both rely on stability for
    their tie-breaking. */
module StableSort {

  /** Keys never decrease from left to right. */
  ghost predicate SortedBy<T>(s: seq<T>, key: T -> int) {
    forall i, j :: 0 <= i < j < |s| ==> key(s[i]) <= key(s[j])
  }

  /** The elements of `s` whose key is `v`, in their order in `s`. */
  function WithKey<T>(s: seq<T>, key: T -> int, v: int): seq<T>
  {
    if s == [] then []
    else (if key(s[0]) == v then [s[0]] else []) + WithKey(s[1..], key, v)
  }

  /** Filtering a sequence with one more element in front. */
  lemma WithKeyCons<T>(x: T, s: seq<T>, key: T -> int)
    ensures forall v :: WithKey([x] + s, key, v) == (if key(x) == v then [x] else []) + WithKey(s, key, v)
  {
    assert ([x] + s)[1..] == s;
  }

  /** Inserts `x` in front of the first element whose key is at least
      `key(x)`, so `x` precedes the elements it ties with. */
  function Insert<T>(x: T, s: seq<T>, key: T -> int): seq<T>
  {
    if s == [] || key(x) <= key(s[0]) then [x] + s
    else [s[0]] + Insert(x, s[1..], key)
  }

  /** Inserting adds exactly `x`. */
  lemma {:induction false} InsertPermutes<T>(x: T, s: seq<T>, key: T -> int)
    ensures multiset(Insert(x, s, key)) == multiset(s) + multiset{x}
  {
    if s == [] || key(x) <= key(s[0]) {
    } else {
      InsertPermutes(x, s[1..], key);
      assert s == [s[0]] + s[1..];
    }
  }

  /** Inserting into a sorted sequence keeps it sorted. */
  lemma {:induction false} InsertSorted<T>(x: T, s: seq<T>, key: T -> int)
    requires SortedBy(s, key)
    ensures SortedBy(Insert(x, s, key), key)
  {
    if s == [] || key(x) <= key(s[0]) {
      SortedCons(x, s, key);
    } else {
      var t := Insert(x, s[1..], key);
      assert forall j :: 0 <= j < |s[1..]| ==> s[1..][j] == s[j + 1];
      InsertSorted(x, s[1..], key);
      InsertPermutes(x, s[1..], key);
      InsertBounded(s[0], x, s[1..], t, key);
      SortedCons(s[0], t, key);
    }
  }

  /** Inserting puts `x` ahead of every element it ties with. */
  lemma {:induction false} InsertStable<T>(x: T, s: seq<T>, key: T -> int)
    ensures forall v :: WithKey(Insert(x, s, key), key, v) == (if key(x) == v then [x] else []) + WithKey(s, key, v)
  {
    if s == [] || key(x) <= key(s[0]) {
      WithKeyCons(x, s, key);
    } else {
      InsertStable(x, s[1..], key);
      InsertBehind(s[0], x, s[1..], Insert(x, s[1..], key), key);
      assert s == [s[0]] + s[1..];
    }
  }

  /** Every element of `t` is `x` or an element of `s`; if all of those
      have a key at least `key(y)`, so does everything in `t`. */
  lemma InsertBounded<T>(y: T, x: T, s: seq<T>, t: seq<T>, key: T -> int)
    requires multiset(t) == multiset(s) + multiset{x}
    requires key(y) <= key(x)
    requires forall j :: 0 <= j < |s| ==> key(y) <= key(s[j])
    ensures forall j :: 0 <= j < |t| ==> key(y) <= key(t[j])
  {
    forall j | 0 <= j < |t|
      ensures key(y) <= key(t[j])
    {
      assert t[j] in multiset(t);
      if t[j] != x {
        assert t[j] in multiset(s);
      }
    }
  }

  /** Passing over an element with a smaller key does not disturb the
      order among equal keys. */
  lemma InsertBehind<T>(y: T, x: T, s: seq<T>, t: seq<T>, key: T -> int)
    requires key(y) < key(x)
    requires forall v :: WithKey(t, key, v) == (if key(x) == v then [x] else []) + WithKey(s, key, v)
    ensures forall v :: WithKey([y] + t, key, v) == (if key(x) == v then [x] else []) + WithKey([y] + s, key, v)
  {
    WithKeyCons(y, t, key);
    WithKeyCons(y, s, key);
    forall v
      ensures WithKey([y] + t, key, v) == (if key(x) == v then [x] else []) + WithKey([y] + s, key, v)
    {
      if key(x) == v {
        assert WithKey([y] + t, key, v) == WithKey(t, key, v);
        assert WithKey([y] + s, key, v) == WithKey(s, key, v);
      } else {
        assert WithKey(t, key, v) == WithKey(s, key, v);
      }
    }
  }

  /** A sorted sequence stays sorted under a new first element with the
      least key. */
  lemma SortedCons<T>(y: T, t: seq<T>, key: T -> int)
    requires SortedBy(t, key)
    requires forall j :: 0 <= j < |t| ==> key(y) <= key(t[j])
    ensures SortedBy([y] + t, key)
  {
    var r := [y] + t;
    forall i, j | 0 <= i < j < |r|
      ensures key(r[i]) <= key(r[j])
    {
      if i > 0 {
        assert r[i] == t[i - 1] && r[j] == t[j - 1];
      } else {
        assert r[j] == t[j - 1];
      }
    }
  }

  /** Insertion sort from the back: the result is sorted, is a permutation
      of the input, and keeps the input order among equal keys. */
  function Sort<T>(s: seq<T>, key: T -> int): (r: seq<T>)
    ensures SortedBy(r, key)
    ensures multiset(r) == multiset(s)
    ensures forall v :: WithKey(r, key, v) == WithKey(s, key, v)
  {
    if s == [] then []
    else
      assert s == [s[0]] + s[1..];
      var t := Sort(s[1..], key);
      WithKeyCons(s[0], s[1..], key);
      InsertPermutes(s[0], t, key);
      InsertSorted(s[0], t, key);
      InsertStable(s[0], t, key);
      Insert(s[0], t, key)
  }
}
