/** ParallelProcessor<T>: the items are dealt round-robin into one slice per
    thread, and each slice's worker applies the action to its items. The
    workers run one after the other here; the action's effect is recorded
    as the sequence of items it was applied to. */
module ParallelProcessor {
  import opened Common

  /** The message WaitHandle.WaitAll gives for an empty array of handles. */
  const NoHandles: string := "Waithandle array may not be empty."

  /** WaitHandle.WaitAll waits on at most this many handles. */
  const MaxWaitHandles: nat := 64

  /** The message WaitHandle.WaitAll gives for more than 64 handles. */
  const TooManyHandles: string := "The number of WaitHandles must be less than or equal to 64."

  /** The indices 0 .. count - 1 that fall to slice s of n, in ascending order. */
  function Slice(count: nat, n: nat, s: nat): (r: seq<int>)
    requires n > 0
    ensures Below(r, count)
  {
    if count == 0 then []
    else Slice(count - 1, n, s) + (if (count - 1) % n == s then [count - 1] else [])
  }

  /** Slice s over count = last + 1 items: slice s over last items, then
      index last when it falls to s. */
  lemma SliceNext(count: nat, n: nat, s: nat, last: nat)
    requires n > 0 && count == last + 1
    ensures Slice(count, n, s) == Slice(last, n, s) + (if last % n == s then [last] else [])
  {
  }

  /** Every index below count lies in the slice numbered by its remainder,
      and in no other. */
  lemma {:induction false} SliceMembers(count: nat, n: nat, s: nat, i: int)
    requires n > 0
    ensures i in Slice(count, n, s) <==> 0 <= i < count && i % n == s
  {
    if count > 0 {
      var last: nat := count - 1;
      SliceMembers(last, n, s, i);
      SliceNext(count, n, s, last);
    }
  }

  /** The indices ascend strictly. */
  predicate Ascending(xs: seq<int>) {
    forall a, b :: 0 <= a < b < |xs| ==> xs[a] < xs[b]
  }

  /** Within a slice the indices ascend strictly and stay below count. */
  lemma {:induction false} SliceAscending(count: nat, n: nat, s: nat)
    requires n > 0
    ensures Ascending(Slice(count, n, s))
    ensures forall i :: i in Slice(count, n, s) ==> i < count
  {
    if count > 0 {
      var last: nat := count - 1;
      var prev := Slice(last, n, s);
      var tail: seq<int> := if last % n == s then [last] else [];
      SliceAscending(last, n, s);
      SliceNext(count, n, s, last);
      AppendLargest(prev, tail, last);
    }
  }

  /** Appending at most one index larger than every index kept keeps the
      order strict. */
  lemma AppendLargest(prev: seq<int>, tail: seq<int>, last: nat)
    requires Ascending(prev) && forall i :: i in prev ==> i < last
    requires tail == [] || tail == [last]
    ensures Ascending(prev + tail)
    ensures forall i :: i in prev + tail ==> i <= last
  {
    var sl := prev + tail;
    forall a, b | 0 <= a < b < |sl|
      ensures sl[a] < sl[b]
    {
      assert sl[a] == prev[a] && prev[a] in prev;
      if b >= |prev| {
        assert sl[b] == last;
      } else {
        assert sl[b] == prev[b];
      }
    }
  }

  /** The indices of slices 0 .. upto - 1, one slice after the other. */
  function Dealt(count: nat, n: nat, upto: nat): seq<int>
    requires n > 0
  {
    if upto == 0 then [] else Dealt(count, n, upto - 1) + Slice(count, n, upto - 1)
  }

  lemma DealtNext(count: nat, n: nat, u: nat, upto: nat)
    requires n > 0 && upto == u + 1
    ensures Dealt(count, n, upto) == Dealt(count, n, u) + Slice(count, n, u)
  {
  }

  function Range(count: nat): seq<int> {
    if count == 0 then [] else Range(count - 1) + [count - 1]
  }

  lemma RangeNext(count: nat, last: nat)
    requires count == last + 1
    ensures Range(count) == Range(last) + [last]
  {
    RangeAfter(last);
  }

  lemma RangeAfter(last: nat)
    ensures Range(last + 1) == Range(last) + [last]
  {
  }

  /** Occurrences in a concatenation add up. */
  lemma CountAppend(a: seq<int>, b: seq<int>, i: int)
    ensures multiset(a + b)[i] == multiset(a)[i] + multiset(b)[i]
  {
  }

  /** How often index i occurs in slice s. */
  lemma {:induction false} SliceCount(count: nat, n: nat, s: nat, i: int)
    requires n > 0
    ensures multiset(Slice(count, n, s))[i] == if 0 <= i < count && i % n == s then 1 else 0
  {
    if count > 0 {
      var last: nat := count - 1;
      var prev := Slice(last, n, s);
      var tail: seq<int> := if last % n == s then [last] else [];
      SliceCount(last, n, s, i);
      SliceNext(count, n, s, last);
      CountAppend(prev, tail, i);
      assert multiset(tail)[i] == if i == last && last % n == s then 1 else 0;
    }
  }

  /** How often index i occurs over slices 0 .. upto - 1. */
  lemma {:induction false} DealtCount(count: nat, n: nat, upto: nat, i: int)
    requires n > 0
    ensures multiset(Dealt(count, n, upto))[i] == if 0 <= i < count && i % n < upto then 1 else 0
  {
    if upto > 0 {
      var u: nat := upto - 1;
      var prev := Dealt(count, n, u);
      var slice := Slice(count, n, u);
      DealtCount(count, n, u, i);
      SliceCount(count, n, u, i);
      DealtNext(count, n, u, upto);
      CountAppend(prev, slice, i);
    }
  }

  lemma {:induction false} RangeCount(count: nat, i: int)
    ensures multiset(Range(count))[i] == if 0 <= i < count then 1 else 0
  {
    if count > 0 {
      var last: nat := count - 1;
      RangeCount(last, i);
      RangeNext(count, last);
      CountAppend(Range(last), [last], i);
      assert multiset([last])[i] == if i == last then 1 else 0;
    }
  }

  /** Every index is dealt exactly once over all the slices. */
  lemma DealtIsPermutation(count: nat, n: nat)
    requires n > 0
    ensures multiset(Dealt(count, n, n)) == multiset(Range(count))
  {
    forall i: int
      ensures multiset(Dealt(count, n, n))[i] == multiset(Range(count))[i]
    {
      DealtCount(count, n, n, i);
      RangeCount(count, i);
    }
  }

  /** Every index points into a list of `count` items. */
  predicate Below(indexes: seq<int>, count: nat) {
    forall k :: 0 <= k < |indexes| ==> 0 <= indexes[k] < count
  }

  /** The items at the given indices, in index order. */
  function Pick<T>(items: seq<T>, indexes: seq<int>): (r: seq<T>)
    requires Below(indexes, |items|)
    ensures |r| == |indexes|
  {
    seq(|indexes|, k requires 0 <= k < |indexes| => items[indexes[k]])
  }

  lemma PickAppend<T>(items: seq<T>, a: seq<int>, b: seq<int>)
    requires Below(a, |items|) && Below(b, |items|)
    ensures Below(a + b, |items|)
    ensures Pick(items, a + b) == Pick(items, a) + Pick(items, b)
  {
    assert Below(a + b, |items|) by {
      forall k | 0 <= k < |a + b|
        ensures 0 <= (a + b)[k] < |items|
      {
        if k >= |a| {
          assert (a + b)[k] == b[k - |a|];
        }
      }
    }
  }

  /** The items the workers of slices 0 .. upto - 1 act on, in turn. */
  function Work<T>(items: seq<T>, n: nat, upto: nat): seq<T>
    requires n > 0
  {
    if upto == 0 then []
    else
      Work(items, n, upto - 1) + Pick(items, Slice(|items|, n, upto - 1))
  }

  lemma WorkNext<T>(items: seq<T>, n: nat, u: nat, upto: nat)
    requires n > 0 && upto == u + 1
    ensures Work(items, n, upto) == Work(items, n, u) + Pick(items, Slice(|items|, n, u))
  {
  }

  /** One more slice's work, after whatever was done before. */
  lemma WorkStep<T>(done: seq<T>, items: seq<T>, n: nat, upto: nat)
    requires n > 0
    ensures done + Work(items, n, upto + 1) == (done + Work(items, n, upto)) + Pick(items, Slice(|items|, n, upto))
  {
    WorkNext(items, n, upto, upto + 1);
  }

  /** The work done over all slices is the items at the dealt indices. */
  lemma {:induction false} WorkPicksDealt<T>(items: seq<T>, n: nat, upto: nat)
    requires n > 0
    ensures Below(Dealt(|items|, n, upto), |items|)
    ensures Work(items, n, upto) == Pick(items, Dealt(|items|, n, upto))
  {
    if upto > 0 {
      var u: nat := upto - 1;
      var a := Dealt(|items|, n, u);
      var b := Slice(|items|, n, u);
      WorkPicksDealt(items, n, u);
      WorkNext(items, n, u, upto);
      DealtNext(|items|, n, u, upto);
      PickAppend(items, a, b);
    }
  }

  /** A ManualResetEvent: signalled or not. */
  class ResetEvent {
    var signalled: bool

    constructor (initialState: bool)
      ensures signalled == initialState
    {
      signalled := initialState;
    }

    method Set()
      modifies this
      ensures signalled
    {
      signalled := true;
    }

    method Reset()
      modifies this
      ensures !signalled
    {
      signalled := false;
    }
  }

  /** SlicedList<T>: a copy of the items, the indices of this slice, and
      the event its worker sets when done. */
  class SlicedList<T> {
    var items: seq<T>
    var indexes: seq<int>
    const manualResetEvent: ResetEvent

    constructor (manualResetEvent: ResetEvent)
      ensures this.manualResetEvent == manualResetEvent
      ensures items == [] && indexes == []
    {
      this.manualResetEvent := manualResetEvent;
      items := [];
      indexes := [];
    }
  }

  class ParallelProcessor<T> {
    const numberOfThreads: nat
    const listSlices: array<SlicedList<T>>
    const manualResetEvents: array<ResetEvent>
    /** The items the action has been applied to, in order. */
    var performed: seq<T>

    /** One slice and one event per thread, slice i owning event i. */
    ghost predicate Valid()
      reads listSlices, manualResetEvents
    {
      && listSlices.Length == numberOfThreads && manualResetEvents.Length == numberOfThreads
      && (forall i :: 0 <= i < numberOfThreads ==> listSlices[i].manualResetEvent == manualResetEvents[i])
      && (forall i, j :: 0 <= i < j < numberOfThreads ==> listSlices[i] != listSlices[j])
      && (forall i, j :: 0 <= i < j < numberOfThreads ==> manualResetEvents[i] != manualResetEvents[j])
    }

    ghost function Slices(): set<SlicedList<T>>
      reads listSlices
    {
      set i | 0 <= i < listSlices.Length :: listSlices[i]
    }

    ghost function Events(): set<ResetEvent>
      reads manualResetEvents
    {
      set i | 0 <= i < manualResetEvents.Length :: manualResetEvents[i]
    }

    /** The constructor: n slices, each with no items and no indices, each
        with its own new, unsignalled event. */
    constructor (numberOfThreads: nat)
      ensures this.numberOfThreads == numberOfThreads && Valid() && performed == []
      ensures fresh(listSlices) && fresh(manualResetEvents)
      ensures forall i :: 0 <= i < numberOfThreads ==>
        && fresh(listSlices[i]) && fresh(manualResetEvents[i])
        && listSlices[i].items == [] && listSlices[i].indexes == []
        && !manualResetEvents[i].signalled
    {
      var slices: seq<SlicedList<T>> := [];
      var events: seq<ResetEvent> := [];
      for i := 0 to numberOfThreads
        invariant |slices| == i && |events| == i
        invariant forall j :: 0 <= j < i ==>
          && fresh(slices[j]) && fresh(events[j])
          && slices[j].manualResetEvent == events[j]
          && slices[j].items == [] && slices[j].indexes == [] && !events[j].signalled
        invariant forall j, k :: 0 <= j < k < i ==> slices[j] != slices[k] && events[j] != events[k]
      {
        var event := new ResetEvent(false);
        var slice := new SlicedList(event);
        slices := slices + [slice];
        events := events + [event];
      }
      this.numberOfThreads := numberOfThreads;
      listSlices := new SlicedList<T>[numberOfThreads](i requires 0 <= i < numberOfThreads => slices[i]);
      manualResetEvents := new ResetEvent[numberOfThreads](i requires 0 <= i < numberOfThreads => events[i]);
      performed := [];
    }

    /** Each slice holds the items and exactly its round-robin indices. */
    ghost predicate Prepared(items: seq<T>)
      reads listSlices, Slices()
      requires numberOfThreads > 0 && listSlices.Length == numberOfThreads
    {
      forall s :: 0 <= s < numberOfThreads ==>
        listSlices[s].items == items && listSlices[s].indexes == Slice(|items|, numberOfThreads, s)
    }

    /** prepareListSlices: every slice gets a copy of the items and its
        index list is cleared; then index i is appended to slice i % n.
        With no threads and some items the remainder divides by zero. */
    method PrepareListSlices(items: seq<T>) returns (r: Result<()>)
      requires Valid()
      modifies Slices()
      ensures r.Err? <==> numberOfThreads == 0 && items != []
      ensures r.Err? ==> r.error == DivideByZero
      ensures r.Ok? && numberOfThreads > 0 ==> Prepared(items)
    {
      for i := 0 to numberOfThreads
        invariant forall j :: 0 <= j < i ==> listSlices[j].items == items && listSlices[j].indexes == []
      {
        listSlices[i].items := items;
        listSlices[i].indexes := [];
      }
      if numberOfThreads == 0 {
        return if items == [] then Ok(()) else Err(DivideByZero);
      }
      for i := 0 to |items|
        invariant forall s :: 0 <= s < numberOfThreads ==>
          listSlices[s].items == items && listSlices[s].indexes == Slice(i, numberOfThreads, s)
      {
        var slice := listSlices[i % numberOfThreads];
        slice.indexes := slice.indexes + [i];
      }
      return Ok(());
    }

    /** DoWork(slice): the action on the slice's item at each of its
        indices, in order; then the slice's event is set. */
    method DoWork(slicedList: SlicedList<T>)
      requires Below(slicedList.indexes, |slicedList.items|)
      modifies this, slicedList.manualResetEvent
      ensures performed == old(performed) + Pick(slicedList.items, slicedList.indexes)
      ensures slicedList.manualResetEvent.signalled
    {
      for k := 0 to |slicedList.indexes|
        invariant performed == old(performed) + Pick(slicedList.items, slicedList.indexes)[..k]
      {
        performed := performed + [slicedList.items[slicedList.indexes[k]]];
      }
      assert Pick(slicedList.items, slicedList.indexes)[..|slicedList.indexes|]
          == Pick(slicedList.items, slicedList.indexes);
      slicedList.manualResetEvent.Set();
    }

    /** ForEach(items): prepares the slices, runs every slice's worker in
        turn and waits for all events. With no threads it fails: by the
        division when there are items, else in WaitAll. With more than 64
        threads the workers are queued and have run, and then WaitAll
        refuses that many handles. Otherwise the action has been applied
        to the items slice by slice, and every event is signalled. */
    method ForEach(items: seq<T>) returns (r: Result<()>)
      requires Valid()
      modifies this, Slices(), Events()
      ensures r.Err? <==> numberOfThreads == 0 || numberOfThreads > MaxWaitHandles
      ensures numberOfThreads == 0 ==> r.error == (if items == [] then Argument(NoHandles) else DivideByZero)
      ensures numberOfThreads > MaxWaitHandles ==> r.error == NotSupported(TooManyHandles)
      ensures numberOfThreads > 0 ==>
        && performed == old(performed) + Work(items, numberOfThreads, numberOfThreads)
        && Prepared(items)
        && forall i :: 0 <= i < numberOfThreads ==> manualResetEvents[i].signalled
    {
      var prepared := PrepareListSlices(items);
      if prepared.Err? {
        return prepared;
      }
      if numberOfThreads == 0 {
        return Err(Argument(NoHandles));
      }
      RunSlices(items);
      if numberOfThreads > MaxWaitHandles {
        return Err(NotSupported(TooManyHandles));
      }
      return Ok(());
    }

    /** ForEach's loop over the threads: each slice's worker in turn. */
    method RunSlices(items: seq<T>)
      requires Valid() && numberOfThreads > 0 && Prepared(items)
      modifies this, Events()
      ensures performed == old(performed) + Work(items, numberOfThreads, numberOfThreads)
      ensures Prepared(items)
      ensures forall i :: 0 <= i < numberOfThreads ==> manualResetEvents[i].signalled
    {
      for i := 0 to numberOfThreads
        invariant Valid() && Prepared(items)
        invariant performed == old(performed) + Work(items, numberOfThreads, i)
        invariant forall j :: 0 <= j < i ==> manualResetEvents[j].signalled
      {
        assert manualResetEvents[i] in Events();
        RunSlice(items, i, old(performed));
      }
    }

    /** One turn of ForEach's loop: reset slice i's event, then its worker
        runs and sets it again. The work done so far grows by slice i's
        picks, and the events of the earlier slices stay signalled. */
    method RunSlice(items: seq<T>, i: nat, ghost done: seq<T>)
      requires Valid() && i < numberOfThreads && Prepared(items)
      requires performed == done + Work(items, numberOfThreads, i)
      requires forall j :: 0 <= j < i ==> manualResetEvents[j].signalled
      modifies this, manualResetEvents[i]
      ensures performed == done + Work(items, numberOfThreads, i + 1)
      ensures Valid() && Prepared(items)
      ensures forall j :: 0 <= j <= i ==> manualResetEvents[j].signalled
    {
      WorkStep(done, items, numberOfThreads, i);
      manualResetEvents[i].Reset();
      DoWork(listSlices[i]);
    }
  }

  /** Running ForEach applies the action once at every position of the
      input: the indices the workers visit are a permutation of 0 .. count - 1
      and the items acted on are the items at those indices. */
  lemma EachItemOnce<T>(items: seq<T>, n: nat)
    requires n > 0
    ensures multiset(Dealt(|items|, n, n)) == multiset(Range(|items|))
    ensures Below(Dealt(|items|, n, n), |items|)
    ensures Work(items, n, n) == Pick(items, Dealt(|items|, n, n))
  {
    DealtIsPermutation(|items|, n);
    WorkPicksDealt(items, n, n);
  }
}
