/** NumericCollectionExtensions.GetMedian: a copy of the numbers is sorted
    and the middle element (odd count) or the mean of the two middle
    elements (even count) is returned. Doubles are modelled as reals. */
module NumericCollectionExtensions {
  import opened Common

  const EmptyMedian: string := "Median of empty array not defined."

  predicate Sorted(s: seq<real>) {
    forall i, j :: 0 <= i < j < |s| ==> s[i] <= s[j]
  }

  /** x placed into a sorted sequence before the first larger element. */
  function Insert(x: real, s: seq<real>): (r: seq<real>)
    requires Sorted(s)
    ensures Sorted(r) && multiset(r) == multiset(s) + multiset{x}
  {
    if s == [] then [x]
    else if x <= s[0] then [x] + s
    else
      var rest := Insert(x, s[1..]);
      assert s == [s[0]] + s[1..];
      ConsBelow(s[0], s[1..], x, rest);
      [s[0]] + rest
  }

  /** A head no larger than anything after it, and smaller than x, stays in
      front when x goes into the tail. */
  lemma ConsBelow(h: real, tail: seq<real>, x: real, rest: seq<real>)
    requires Sorted([h] + tail) && h < x
    requires Sorted(rest) && multiset(rest) == multiset(tail) + multiset{x}
    ensures Sorted([h] + rest)
    ensures multiset([h] + rest) == multiset([h] + tail) + multiset{x}
  {
    forall k | 0 <= k < |rest|
      ensures h <= rest[k]
    {
      assert rest[k] in multiset(rest);
      if rest[k] != x {
        assert rest[k] in multiset(tail);
        var j :| 0 <= j < |tail| && tail[j] == rest[k];
        assert ([h] + tail)[0] == h && ([h] + tail)[j + 1] == tail[j];
      }
    }
    var sl := [h] + rest;
    forall a, b | 0 <= a < b < |sl|
      ensures sl[a] <= sl[b]
    {
      assert sl[b] == rest[b - 1];
      if a > 0 {
        assert sl[a] == rest[a - 1];
      }
    }
  }

  /** The numbers in ascending order: what Array.Sort leaves in the copy. */
  function SortedCopy(xs: seq<real>): (r: seq<real>)
    ensures Sorted(r) && multiset(r) == multiset(xs)
  {
    if xs == [] then []
    else
      assert xs == xs[..|xs| - 1] + [xs[|xs| - 1]];
      Insert(xs[|xs| - 1], SortedCopy(xs[..|xs| - 1]))
  }

  /** The middle of a sorted, non-empty sequence. */
  function Middle(s: seq<real>): real
    requires |s| > 0
  {
    var mid := |s| / 2;
    if |s| % 2 != 0 then s[mid] else (s[mid] + s[mid - 1]) / 2.0
  }

  /** The median of the numbers, or the error for none. */
  function MedianOf(xs: seq<real>): Result<real> {
    if xs == [] then Err(InvalidOperation(EmptyMedian)) else Ok(Middle(SortedCopy(xs)))
  }

  /** How many of the numbers are at most m, and at least m. */
  function CountAtMost(xs: seq<real>, m: real): nat {
    if xs == [] then 0 else CountAtMost(xs[..|xs| - 1], m) + (if xs[|xs| - 1] <= m then 1 else 0)
  }

  function CountAtLeast(xs: seq<real>, m: real): nat {
    if xs == [] then 0 else CountAtLeast(xs[..|xs| - 1], m) + (if xs[|xs| - 1] >= m then 1 else 0)
  }

  lemma {:induction false} CountAppend(a: seq<real>, b: seq<real>, m: real)
    ensures CountAtMost(a + b, m) == CountAtMost(a, m) + CountAtMost(b, m)
    ensures CountAtLeast(a + b, m) == CountAtLeast(a, m) + CountAtLeast(b, m)
  {
    if b != [] {
      CountAppend(a, b[..|b| - 1], m);
      assert (a + b)[..|a + b| - 1] == a + b[..|b| - 1];
    } else {
      assert a + b == a;
    }
  }

  /** The counts depend only on which numbers there are, not their order. */
  lemma {:induction false} CountPermutation(xs: seq<real>, ys: seq<real>, m: real)
    requires multiset(xs) == multiset(ys)
    ensures CountAtMost(xs, m) == CountAtMost(ys, m)
    ensures CountAtLeast(xs, m) == CountAtLeast(ys, m)
  {
    if xs != [] {
      var x := xs[|xs| - 1];
      var init := xs[..|xs| - 1];
      assert xs == init + [x];
      assert x in multiset(ys);
      var k :| 0 <= k < |ys| && ys[k] == x;
      var rest := ys[..k] + ys[k + 1..];
      assert ys == ys[..k] + [x] + ys[k + 1..];
      assert multiset(ys) == multiset(ys[..k]) + multiset{x} + multiset(ys[k + 1..]);
      assert multiset(xs) == multiset(init) + multiset{x};
      assert multiset(rest) == multiset(ys[..k]) + multiset(ys[k + 1..]);
      MultisetCancel(multiset(init), multiset(rest), x);
      CountPermutation(init, rest, m);
      CountAppend(init, [x], m);
      CountAppend(ys[..k], [x], m);
      CountAppend(ys[..k] + [x], ys[k + 1..], m);
      CountAppend(ys[..k], ys[k + 1..], m);
    }
  }

  /** A sorted sequence is fixed by its elements. */
  lemma {:induction false} SortedUnique(s: seq<real>, t: seq<real>)
    requires Sorted(s) && Sorted(t) && multiset(s) == multiset(t)
    ensures s == t
  {
    if s != [] {
      assert |t| == |multiset(t)| == |multiset(s)| == |s|;
      var last := |s| - 1;
      LastIsLargest(s, t[last]);
      LastIsLargest(t, s[last]);
      assert s[last] == t[last];
      var x := s[last];
      assert s == s[..last] + [x] && t == t[..last] + [x];
      assert multiset(s) == multiset(s[..last]) + multiset{x};
      assert multiset(t) == multiset(t[..last]) + multiset{x};
      MultisetCancel(multiset(s[..last]), multiset(t[..last]), x);
      SortedInit(s, last);
      SortedInit(t, last);
      SortedUnique(s[..last], t[..last]);
    }
  }

  lemma MultisetCancel(a: multiset<real>, b: multiset<real>, x: real)
    requires a + multiset{x} == b + multiset{x}
    ensures a == b
  {
    forall y
      ensures a[y] == b[y]
    {
      assert (a + multiset{x})[y] == (b + multiset{x})[y];
    }
  }

  lemma LastIsLargest(s: seq<real>, x: real)
    requires Sorted(s) && x in multiset(s)
    ensures x <= s[|s| - 1]
  {
    var i :| 0 <= i < |s| && s[i] == x;
  }

  lemma SortedInit(s: seq<real>, k: nat)
    requires Sorted(s) && k <= |s|
    ensures Sorted(s[..k])
  {
  }

  /** Any order of the same numbers has the same median. */
  lemma MedianPermutation(xs: seq<real>, ys: seq<real>)
    requires multiset(xs) == multiset(ys)
    ensures MedianOf(xs) == MedianOf(ys)
  {
    if xs != [] {
      assert |xs| == |multiset(xs)| == |ys|;
      SortedUnique(SortedCopy(xs), SortedCopy(ys));
    } else {
      assert |ys| == |multiset(ys)| == 0;
    }
  }

  /** The median is an error exactly for no numbers; otherwise at least
      half of the numbers are at most it and at least half at least it,
      so it lies between the smallest and the largest. */
  lemma MedianHalves(xs: seq<real>)
    ensures MedianOf(xs).Err? <==> xs == []
    ensures MedianOf(xs).Err? ==> MedianOf(xs).error == InvalidOperation(EmptyMedian)
    ensures MedianOf(xs).Ok? ==> && 2 * CountAtMost(xs, MedianOf(xs).value) >= |xs|
                                 && 2 * CountAtLeast(xs, MedianOf(xs).value) >= |xs|
    ensures MedianOf(xs).Ok? ==> && (exists i :: 0 <= i < |xs| && xs[i] <= MedianOf(xs).value)
                                 && (exists j :: 0 <= j < |xs| && MedianOf(xs).value <= xs[j])
  {
    if xs != [] {
      var s := SortedCopy(xs);
      assert |s| == |multiset(s)| == |xs|;
      var m := Middle(s);
      MiddleHalves(s);
      CountPermutation(s, xs, m);
      MedianInside(xs, m);
    }
  }

  /** In a sorted sequence, the middle has at least half the elements on
      either side of it. */
  lemma MiddleHalves(s: seq<real>)
    requires Sorted(s) && |s| > 0
    ensures 2 * CountAtMost(s, Middle(s)) >= |s| && 2 * CountAtLeast(s, Middle(s)) >= |s|
  {
    var m := Middle(s);
    var mid := |s| / 2;
    if |s| % 2 != 0 {
      assert |s| == 2 * mid + 1;
      PrefixAtMost(s, mid, m);
      SuffixAtLeast(s, mid, m);
    } else {
      assert |s| == 2 * mid && mid > 0;
      assert s[mid - 1] <= s[mid];
      PrefixAtMost(s, mid - 1, m);
      SuffixAtLeast(s, mid, m);
    }
  }

  /** Up to a position whose element is at most m, every element is. */
  lemma PrefixAtMost(s: seq<real>, hi: nat, m: real)
    requires Sorted(s) && hi < |s| && s[hi] <= m
    ensures CountAtMost(s, m) >= hi + 1
  {
    AllAtMost(s[..hi + 1], m);
    CountAppend(s[..hi + 1], s[hi + 1..], m);
    assert s[..hi + 1] + s[hi + 1..] == s;
  }

  /** From a position whose element is at least m, every element is. */
  lemma SuffixAtLeast(s: seq<real>, lo: nat, m: real)
    requires Sorted(s) && lo < |s| && m <= s[lo]
    ensures CountAtLeast(s, m) >= |s| - lo
  {
    AllAtLeast(s[lo..], m);
    CountAppend(s[..lo], s[lo..], m);
    assert s[..lo] + s[lo..] == s;
  }

  /** A count above zero names an element on that side. */
  lemma MedianInside(xs: seq<real>, m: real)
    requires 2 * CountAtMost(xs, m) >= |xs| > 0 && 2 * CountAtLeast(xs, m) >= |xs|
    ensures exists i :: 0 <= i < |xs| && xs[i] <= m
    ensures exists j :: 0 <= j < |xs| && m <= xs[j]
  {
    CountWitness(xs, m);
  }

  lemma {:induction false} CountWitness(xs: seq<real>, m: real)
    ensures CountAtMost(xs, m) > 0 ==> exists i :: 0 <= i < |xs| && xs[i] <= m
    ensures CountAtLeast(xs, m) > 0 ==> exists j :: 0 <= j < |xs| && m <= xs[j]
  {
    if xs != [] {
      var init := xs[..|xs| - 1];
      CountWitness(init, m);
      if CountAtMost(init, m) > 0 {
        var i :| 0 <= i < |init| && init[i] <= m;
        assert xs[i] == init[i];
      }
      if CountAtLeast(init, m) > 0 {
        var j :| 0 <= j < |init| && m <= init[j];
        assert xs[j] == init[j];
      }
    }
  }

  lemma {:induction false} AllAtMost(s: seq<real>, m: real)
    requires forall k :: 0 <= k < |s| ==> s[k] <= m
    ensures CountAtMost(s, m) == |s|
  {
    if s != [] {
      AllAtMost(s[..|s| - 1], m);
    }
  }

  lemma {:induction false} AllAtLeast(s: seq<real>, m: real)
    requires forall k :: 0 <= k < |s| ==> m <= s[k]
    ensures CountAtLeast(s, m) == |s|
  {
    if s != [] {
      AllAtLeast(s[..|s| - 1], m);
    }
  }

  /** Array.Sort on the copy: ascending, same numbers. */
  method SortInPlace(a: array<real>)
    modifies a
    ensures Sorted(a[..]) && multiset(a[..]) == multiset(old(a[..]))
  {
    for i := 0 to a.Length
      invariant forall k, l :: 0 <= k < l < i ==> a[k] <= a[l]
      invariant multiset(a[..]) == multiset(old(a[..]))
    {
      SinkLast(a, i);
    }
  }

  /** One insertion step: a[i] moves down past the larger elements of the
      sorted prefix a[..i], so a[..i + 1] is sorted. */
  method SinkLast(a: array<real>, i: nat)
    requires i < a.Length
    requires forall k, l :: 0 <= k < l < i ==> a[k] <= a[l]
    modifies a
    ensures forall k, l :: 0 <= k < l <= i ==> a[k] <= a[l]
    ensures multiset(a[..]) == multiset(old(a[..]))
  {
    var j := i;
    while j > 0 && a[j - 1] > a[j]
      invariant 0 <= j <= i
      invariant forall k, l :: 0 <= k < l <= i && l != j ==> a[k] <= a[l]
      invariant multiset(a[..]) == multiset(old(a[..]))
    {
      Swap(a, j - 1, j);
      j := j - 1;
    }
  }

  method Swap(a: array<real>, i: nat, j: nat)
    requires i < j < a.Length
    modifies a
    ensures a[i] == old(a[j]) && a[j] == old(a[i])
    ensures forall k :: 0 <= k < a.Length && k != i && k != j ==> a[k] == old(a[k])
    ensures multiset(a[..]) == multiset(old(a[..]))
  {
    a[i], a[j] := a[j], a[i];
  }

  /** The shared body of both overloads: clone, sort the clone, pick the
      middle. */
  method MedianOfCopy(numbers: seq<real>) returns (r: Result<real>)
    ensures r == MedianOf(numbers)
  {
    if |numbers| == 0 {
      return Err(InvalidOperation(EmptyMedian));
    }
    var sorted := new real[|numbers|](k requires 0 <= k < |numbers| => numbers[k]);
    assert sorted[..] == numbers;
    SortInPlace(sorted);
    var s := sorted[..];
    SortedUnique(s, SortedCopy(numbers));
    return Ok(Middle(s));
  }

  /** GetMedian(this double[]): null or empty fails; otherwise the median,
      and the caller's array is left as it was. */
  method GetMedian(sourceNumbers: array?<real>) returns (r: Result<real>)
    ensures sourceNumbers == null ==> r == Err(InvalidOperation(EmptyMedian))
    ensures sourceNumbers != null ==> r == MedianOf(sourceNumbers[..])
  {
    if sourceNumbers == null || sourceNumbers.Length == 0 {
      return Err(InvalidOperation(EmptyMedian));
    }
    r := MedianOfCopy(sourceNumbers[..]);
  }

  /** GetMedian(this IEnumerable<double>): the same, over the enumerated
      numbers (None stands for null). */
  method GetMedianOfSequence(sourceNumbers: Option<seq<real>>) returns (r: Result<real>)
    ensures sourceNumbers.None? ==> r == Err(InvalidOperation(EmptyMedian))
    ensures sourceNumbers.Some? ==> r == MedianOf(sourceNumbers.value)
  {
    if sourceNumbers.None? || |sourceNumbers.value| == 0 {
      return Err(InvalidOperation(EmptyMedian));
    }
    r := MedianOfCopy(sourceNumbers.value);
  }
}
