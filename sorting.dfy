/** Enumerable.OrderBy(k).ThenBy(k2): a stable sort by a two-level integer
    key. A single OrderBy uses a key whose minor part is 0. */
module Sorting {

  datatype Key = Key(major: int, minor: int)

  predicate KeyLess(a: Key, b: Key) {
    a.major < b.major || (a.major == b.major && a.minor < b.minor)
  }

  predicate SortedBy<T>(s: seq<T>, key: T -> Key) {
    forall i, j :: 0 <= i < j < |s| ==> !KeyLess(key(s[j]), key(s[i]))
  }

  /** The elements whose key is k, in their order in s. */
  function WithKey<T>(s: seq<T>, key: T -> Key, k: Key): (r: seq<T>)
    ensures forall i :: 0 <= i < |r| ==> key(r[i]) == k
  {
    if s == [] then [] else (if key(s[0]) == k then [s[0]] else []) + WithKey(s[1..], key, k)
  }

  /** Inserts x before the first element whose key is not smaller than x's. */
  function Insert<T>(x: T, s: seq<T>, key: T -> Key): (r: seq<T>)
    requires SortedBy(s, key)
    ensures SortedBy(r, key)
    ensures multiset(r) == multiset(s) + multiset{x}
  {
    if s == [] || !KeyLess(key(s[0]), key(x)) then
      [x] + s
    else
      var t := Insert(x, s[1..], key);
      assert s == [s[0]] + s[1..];
      ConsFirst(s[0], s[1..], x, t, key);
      [s[0]] + t
  }

  /** A head whose key is below x's and not above any key after it stays
      in front when x goes into the tail. */
  lemma ConsFirst<T>(h: T, tail: seq<T>, x: T, t: seq<T>, key: T -> Key)
    requires SortedBy([h] + tail, key) && KeyLess(key(h), key(x))
    requires SortedBy(t, key) && multiset(t) == multiset(tail) + multiset{x}
    ensures SortedBy([h] + t, key)
    ensures multiset([h] + t) == multiset([h] + tail) + multiset{x}
  {
    forall i | 0 <= i < |t|
      ensures !KeyLess(key(t[i]), key(h))
    {
      assert t[i] in multiset(t);
      if t[i] != x {
        assert t[i] in multiset(tail);
        var j :| 0 <= j < |tail| && tail[j] == t[i];
        assert ([h] + tail)[0] == h && ([h] + tail)[j + 1] == tail[j];
      } else {
        assert key(t[i]) == key(x);
      }
    }
    var sl := [h] + t;
    forall a, b | 0 <= a < b < |sl|
      ensures !KeyLess(key(sl[b]), key(sl[a]))
    {
      assert sl[b] == t[b - 1];
      if a > 0 {
        assert sl[a] == t[a - 1];
      }
    }
  }

  /** The ordered sequence: sorted by key and a permutation of the input. */
  function SortBy<T>(s: seq<T>, key: T -> Key): (r: seq<T>)
    ensures SortedBy(r, key)
    ensures multiset(r) == multiset(s)
  {
    if s == [] then []
    else
      assert s == [s[0]] + s[1..];
      Insert(s[0], SortBy(s[1..], key), key)
  }

  /** Inserting never moves x past an element with the same key. */
  lemma {:induction false} InsertWithKey<T>(x: T, s: seq<T>, key: T -> Key, k: Key)
    requires SortedBy(s, key)
    ensures WithKey(Insert(x, s, key), key, k) == (if key(x) == k then [x] else []) + WithKey(s, key, k)
  {
    var xs: seq<T> := if key(x) == k then [x] else [];
    if s == [] || !KeyLess(key(s[0]), key(x)) {
      assert Insert(x, s, key) == [x] + s;
      WithKeyCons(x, s, key, k);
    } else {
      var t := Insert(x, s[1..], key);
      var hs: seq<T> := if key(s[0]) == k then [s[0]] else [];
      var rest := WithKey(s[1..], key, k);
      InsertWithKey(x, s[1..], key, k);
      assert Insert(x, s, key) == [s[0]] + t;
      WithKeyCons(s[0], t, key, k);
      assert WithKey(s, key, k) == hs + rest;
      assert key(s[0]) != key(x);
      SwapFront(hs, xs, rest);
    }
  }

  /** Two prefixes of which at least one is empty commute. */
  lemma SwapFront<T>(hs: seq<T>, xs: seq<T>, w: seq<T>)
    requires hs == [] || xs == []
    ensures hs + (xs + w) == xs + (hs + w)
  {
    if hs == [] {
      assert hs + (xs + w) == xs + w;
    } else {
      assert xs + (hs + w) == hs + w;
    }
  }

  /** The elements with key k of a sequence with a given first element. */
  lemma WithKeyCons<T>(h: T, t: seq<T>, key: T -> Key, k: Key)
    ensures WithKey([h] + t, key, k) == (if key(h) == k then [h] else []) + WithKey(t, key, k)
  {
    assert ([h] + t)[0] == h && ([h] + t)[1..] == t;
  }

  /** Stability: elements with equal keys keep their input order. */
  lemma {:induction false} SortByStable<T>(s: seq<T>, key: T -> Key, k: Key)
    ensures WithKey(SortBy(s, key), key, k) == WithKey(s, key, k)
  {
    if s != [] {
      SortByStable(s[1..], key, k);
      InsertWithKey(s[0], SortBy(s[1..], key), key, k);
    }
  }
}
