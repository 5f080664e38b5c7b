/** The public operations of the Go d-ary heap: `NewHeap`, `Peek`,
    `Contains`, `Get`, `Push` and `Pop`, over the state of `HeapState` and the
    sift functions of `Sift`. */
module DaryHeap {
  import opened Ordering
  import opened Tree
  import opened HeapState
  import opened Sift

  /** `NewHeap(d, lessFunc)` without options: an empty slice and an empty
      index. The capacity hints only size allocations, which `seq` and `map`
      do not have. */
  function NewHeap(d: int, order: Order): (h: Heap)
    requires d >= 1
    ensures Valid(h) && HeapOrdered(h)
    ensures h.heapSize == 0 && h.d == d && h.order == order
    ensures forall v :: v !in h.index
  {
    Heap([], d, 0, order, map[])
  }

  /** Every live element is reachable from the root through its parents, and
      no step along that path is strictly `Less`, so nothing live is
      strictly `Less` than the root. */
  lemma {:induction false} RootIsExtremal(h: Heap, j: int)
    requires Shaped(h) && HeapOrdered(h) && 0 <= j < h.heapSize
    ensures !Less(h.order, h.data[j], h.data[0])
    decreases j
  {
    if j == 0 {
      LessIsStrictTotal(h.order, h.data[0], h.data[0], h.data[0]);
    } else {
      var p := Parent(j, h.d);
      RootIsExtremal(h, p);
      LessIsStrictTotal(h.order, h.data[j], h.data[p], h.data[0]);
    }
  }

  /** The root of a heap-ordered state is an extremal live element. */
  lemma RootIsExtremalValue(h: Heap)
    requires Shaped(h)
    ensures HeapOrdered(h) && h.heapSize > 0 ==>
              h.data[0] in Live(h) && forall e :: e in Live(h) ==> !Less(h.order, e, h.data[0])
  {
    if HeapOrdered(h) && h.heapSize > 0 {
      assert Live(h)[0] == h.data[0];
      forall e | e in Live(h)
        ensures !Less(h.order, e, h.data[0])
      {
        var j :| 0 <= j < |Live(h)| && Live(h)[j] == e;
        RootIsExtremal(h, j);
      }
    }
  }

  /** `Peek`: the zero value on an empty heap, otherwise the root, which on a
      heap-ordered state is a live element nothing live is strictly `Less`
      than. It does not change the state: it returns only a value. */
  function Peek(h: Heap): (r: int)
    requires Shaped(h)
    ensures h.heapSize == 0 ==> r == 0
    ensures HeapOrdered(h) && h.heapSize > 0 ==>
              r in Live(h) && forall e :: e in Live(h) ==> !Less(h.order, e, r)
  {
    RootIsExtremalValue(h);
    if h.heapSize == 0 then 0 else h.data[0]
  }

  /** `Contains`: whether the value is a key of the index; on a valid state
      that is exactly whether it is live, duplicates included. */
  function Contains(h: Heap, v: int): (r: bool)
    ensures Valid(h) ==> (r <==> v in Live(h))
    ensures Valid(h) && r ==> |h.index[v]| == multiset(Live(h))[v] > 0
  {
    v in h.index
  }

  /** `Get`: `(0, false)` when the value has no recorded position, otherwise
      the element stored at its first recorded position and `true`. Since
      recorded positions drift (see `UpdateIndex`), that element need not be
      the value asked for; it is always some slot of the backing slice, so
      the read is in range. */
  function Get(h: Heap, v: int): (r: (int, bool))
    requires PositionsInBounds(h)
    ensures !r.1 ==> r.0 == 0
    ensures Valid(h) ==> (r.1 <==> v in Live(h))
    ensures r.1 ==> r.0 in h.data
  {
    if v !in h.index || |h.index[v]| == 0 then (0, false)
    else (h.data[h.index[v][0]], true)
  }

  /** The first half of `Push`: write `v` into slot `heapSize` (appending when
      the slice is full), record a position for it (a copy of its first one
      when it is already a key, else `heapSize`), and grow `heapSize`. */
  function Place(h: Heap, v: int): (r: Heap)
    requires Valid(h)
    ensures Valid(r)
    ensures r.d == h.d && r.order == h.order && r.heapSize == h.heapSize + 1
    ensures |r.data| == if |h.data| == h.heapSize then |h.data| + 1 else |h.data|
    ensures Live(r) == Live(h) + [v]
    ensures forall j :: h.heapSize < j < |h.data| ==> r.data[j] == h.data[j]
    ensures HeapOrdered(h) ==> UpInvariant(r, h.heapSize)
  {
    var n := h.heapSize;
    var data := if |h.data| == n then h.data + [v] else h.data[n := v];
    var index :=
      if v in h.index then h.index[v := h.index[v] + [h.index[v][0]]]
      else h.index[v := [n]];
    var r := Heap(data, h.d, n + 1, h.order, index);
    PlaceLive(h, v, r);
    PlaceCounts(h, v, r);
    PlaceOrder(h, r);
    r
  }

  /** The slot `Place` writes extends the live elements by `v` and leaves
      every other slot alone. */
  lemma PlaceLive(h: Heap, v: int, r: Heap)
    requires Shaped(h)
    requires r.data == if |h.data| == h.heapSize then h.data + [v] else h.data[h.heapSize := v]
    requires r.heapSize == h.heapSize + 1
    ensures r.heapSize <= |r.data|
    ensures Live(r) == Live(h) + [v]
    ensures forall j :: 0 <= j < |h.data| && j != h.heapSize ==> r.data[j] == h.data[j]
  {
  }

  /** The index `Place` builds counts the new live elements: `v` gains one
      entry, a copy of its first, or a new list when it was absent. */
  lemma PlaceCounts(h: Heap, v: int, r: Heap)
    requires Valid(h)
    requires r.heapSize == h.heapSize + 1 && |h.data| <= |r.data| && h.heapSize < |r.data|
    requires Live(r) == Live(h) + [v]
    requires r.index == if v in h.index then h.index[v := h.index[v] + [h.index[v][0]]]
                        else h.index[v := [h.heapSize]]
    ensures PositionsInBounds(r)
    ensures Counted(r)
  {
    assert multiset(Live(r)) == multiset(Live(h)) + multiset{v};
    assert v !in h.index ==> multiset(Live(h))[v] == 0;
    forall w
      ensures w in r.index <==> w in Live(r)
    {
      calc {
        w in Live(r);
        w in multiset(Live(r));
        w in multiset(Live(h)) || w == v;
      }
    }
  }

  /** Placing an element after a heap-ordered prefix can break heap order
      only at the new slot. */
  lemma PlaceOrder(h: Heap, r: Heap)
    requires Shaped(h) && Shaped(r) && r.d == h.d && r.order == h.order
    requires r.heapSize == h.heapSize + 1
    requires forall j :: 0 <= j < h.heapSize ==> r.data[j] == h.data[j]
    ensures HeapOrdered(h) ==> UpInvariant(r, h.heapSize)
  {
  }

  /** `Push(v)`: place `v`, then sift it up from slot `heapSize`. One more
      live element, exactly one more `v`, heap order kept, and only slots on
      the path from the new slot to the root move. */
  function Push(h: Heap, v: int): (r: Heap)
    requires Valid(h)
    ensures Valid(r)
    ensures r.d == h.d && r.order == h.order && r.heapSize == h.heapSize + 1
    ensures multiset(Live(r)) == multiset(Live(h)) + multiset{v}
    ensures HeapOrdered(h) ==> HeapOrdered(r)
    ensures forall j :: 0 <= j < h.heapSize && !OnRootPath(j, h.heapSize, h.d) ==> r.data[j] == h.data[j]
  {
    var placed := Place(h, v);
    assert forall j :: 0 <= j < h.heapSize ==> placed.data[j] == Live(placed)[j] == h.data[j];
    Up(placed, h.heapSize)
  }

  /** What `Pop` does on a heap with at least one element: it returns the old
      root, shrinks `heapSize` by one, removes exactly one occurrence of the
      returned value from the live elements, keeps the state valid, and on a
      heap-ordered state keeps heap order and returns an extremal element. */
  ghost predicate RemovesRoot(h: Heap, v: int, r: Heap)
    requires Valid(h) && h.heapSize >= 1
  {
    && Valid(r)
    && r.d == h.d && r.order == h.order && r.heapSize == h.heapSize - 1
    && v == h.data[0]
    && multiset(Live(r)) == multiset(Live(h)) - multiset{v}
    && (HeapOrdered(h) ==> HeapOrdered(r) && forall e :: e in Live(h) ==> !Less(h.order, e, v))
  }

  /** The first half of `Pop`: the last live element is copied into the root
      and the popped value's first index entry is dropped (its key deleted
      once its list is empty); `heapSize` is not yet decremented. Once it is,
      the state is valid again. The moved value can be re-indexed exactly when
      it is still a key, which fails when the popped element was the only
      one. */
  function DetachRoot(h: Heap): (r: Heap)
    requires Valid(h) && h.heapSize >= 1
    ensures |r.data| == |h.data| && r.d == h.d && r.order == h.order && r.heapSize == h.heapSize
    ensures r.data[0] == r.data[h.heapSize - 1] == h.data[h.heapSize - 1]
    ensures forall j :: 0 < j < |h.data| ==> r.data[j] == h.data[j]
    ensures PositionsInBounds(r)
    ensures Counted(r.(heapSize := h.heapSize - 1))
    ensures multiset(Live(r.(heapSize := h.heapSize - 1))) == multiset(Live(h)) - multiset{h.data[0]}
    ensures Updatable(r.index, r.data[0]) <==> h.heapSize >= 2
    ensures HeapOrdered(h) ==> DownInvariant(r.(heapSize := h.heapSize - 1), 0)
  {
    var top := h.data[0];
    var last := h.heapSize - 1;
    var data := h.data[0 := h.data[last]];
    LiveIsUpdatable(h, 0);
    var rest := h.index[top][1..];
    var index := if |rest| == 0 then h.index - {top} else h.index[top := rest];
    var r := Heap(data, h.d, h.heapSize, h.order, index);
    DetachRootFacts(h, r);
    r
  }

  /** The facts `DetachRoot` promises, for the state it builds. */
  lemma DetachRootFacts(h: Heap, r: Heap)
    requires Valid(h) && h.heapSize >= 1 && Updatable(h.index, h.data[0])
    requires r.data == h.data[0 := h.data[h.heapSize - 1]]
    requires r.d == h.d && r.order == h.order && r.heapSize == h.heapSize
    requires DropsFirstEntry(h, r)
    ensures PositionsInBounds(r)
    ensures Counted(r.(heapSize := h.heapSize - 1))
    ensures multiset(Live(r.(heapSize := h.heapSize - 1))) == multiset(Live(h)) - multiset{h.data[0]}
    ensures Updatable(r.index, r.data[0]) <==> h.heapSize >= 2
    ensures HeapOrdered(h) ==> DownInvariant(r.(heapSize := h.heapSize - 1), 0)
  {
    var r' := r.(heapSize := h.heapSize - 1);
    MoveLastToFront(Live(h), Live(r'));
    DetachRootPositions(h, r);
    DetachRootCounts(h, r');
    SingleOccurrence(h);
    DetachRootUpdatable(h, r');
    DetachRootOrder(h, r');
  }

  /** A one-element valid heap lists its element once. */
  lemma SingleOccurrence(h: Heap)
    requires Valid(h) && h.heapSize >= 1
    ensures h.heapSize == 1 ==> h.data[0] in h.index && |h.index[h.data[0]]| == 1
  {
    if h.heapSize == 1 {
      LiveIsUpdatable(h, 0);
      assert Live(h) == [h.data[0]];
      assert multiset(Live(h)) == multiset{h.data[0]};
    }
  }

  /** Overwriting the first element with the last and dropping the last
      removes one occurrence of the first. */
  lemma MoveLastToFront(s: seq<int>, t: seq<int>)
    requires |s| >= 1 && t == s[0 := s[|s| - 1]][..|s| - 1]
    ensures multiset(t) == multiset(s) - multiset{s[0]}
  {
    var n := |s|;
    if n >= 2 {
      assert t == [s[n - 1]] + s[1..n - 1];
      assert s == [s[0]] + s[1..n - 1] + [s[n - 1]];
    }
  }

  /** The index `DetachRoot` builds: the popped value's list without its
      first entry, its key deleted when nothing is left. */
  ghost predicate DropsFirstEntry(h: Heap, r: Heap)
    requires |h.data| >= 1 && Updatable(h.index, h.data[0])
  {
    var top := h.data[0];
    var rest := h.index[top][1..];
    r.index == if |rest| == 0 then h.index - {top} else h.index[top := rest]
  }

  /** Dropping an entry keeps every remaining entry in bounds. */
  lemma DetachRootPositions(h: Heap, r: Heap)
    requires Valid(h) && h.heapSize >= 1 && Updatable(h.index, h.data[0]) && |r.data| == |h.data|
    requires DropsFirstEntry(h, r)
    ensures PositionsInBounds(r)
  {
    var top := h.data[0];
    forall v, k | v in r.index && 0 <= k < |r.index[v]|
      ensures 0 <= r.index[v][k] < |r.data|
    {
      if v == top {
        assert r.index[v][k] == h.index[top][k + 1];
      }
    }
  }

  /** The counting argument behind `DetachRoot`: the popped value loses one
      list entry and one live occurrence. */
  lemma DetachRootCounts(h: Heap, r: Heap)
    requires Valid(h) && h.heapSize >= 1 && Updatable(h.index, h.data[0])
    requires r.heapSize <= |r.data|
    requires DropsFirstEntry(h, r)
    requires multiset(Live(r)) == multiset(Live(h)) - multiset{h.data[0]}
    ensures Counted(r)
  {
    var top := h.data[0];
    forall v
      ensures v in r.index <==> v in Live(r)
    {
      calc {
        v in Live(r);
        v in multiset(Live(r));
        v in multiset(Live(h)) - multiset{top};
      }
    }
  }

  /** The moved value is still a key exactly when something is left. */
  lemma DetachRootUpdatable(h: Heap, r: Heap)
    requires Shaped(h) && h.heapSize >= 1
    requires Shaped(r) && r.heapSize == h.heapSize - 1 && |r.data| == |h.data|
    requires r.data[0] == h.data[h.heapSize - 1]
    requires Counted(r) && |h.data| >= 1 && Updatable(h.index, h.data[0]) && DropsFirstEntry(h, r)
    requires h.heapSize == 1 ==> |h.index[h.data[0]]| == 1
    ensures Updatable(r.index, r.data[0]) <==> h.heapSize >= 2
  {
    if h.heapSize >= 2 {
      assert r.data[0] == Live(r)[0];
    }
  }

  /** Moving the last element into the root leaves heap order broken only
      below the root. */
  lemma DetachRootOrder(h: Heap, r: Heap)
    requires Shaped(h) && h.heapSize >= 1
    requires Shaped(r) && |r.data| == |h.data| && r.d == h.d && r.order == h.order && r.heapSize == h.heapSize - 1
    requires forall j :: 0 < j < |h.data| ==> r.data[j] == h.data[j]
    ensures HeapOrdered(h) ==> DownInvariant(r, 0)
  {
  }

  /** Swapping two slots that hold the same value leaves the data alone. */
  lemma SwapEqualSlots(h: Heap, i: int, j: int)
    requires 0 <= i < |h.data| && 0 <= j < |h.data| && h.data[i] == h.data[j]
    requires Updatable(h.index, h.data[i])
    ensures Swap(h, i, j).data == h.data
  {
  }

  /** The outcome of the Go `Pop`: a value and the new state, or the runtime
      fault of indexing a missing key's empty list inside `updateIndex`. */
  datatype PopOutcome = Popped(value: int, heap: Heap) | IndexFault

  /** `Pop` as written: on an empty heap it returns the zero value and leaves
      the state alone. Otherwise it detaches the root, calls `swap(0, last)`
      (which only re-indexes the moved value, as both slots now hold it),
      decrements `heapSize` and sifts down from the root. When the heap held
      a single element, the popped value's key is deleted before `swap(0, 0)`
      tries to re-index it, and the call faults. */
  function Pop(h: Heap): (r: PopOutcome)
    requires Valid(h)
    ensures h.heapSize == 0 ==> r == Popped(0, h)
    ensures r.IndexFault? <==> h.heapSize == 1
    ensures r.Popped? && h.heapSize >= 1 ==> RemovesRoot(h, r.value, r.heap)
  {
    if h.heapSize == 0 then Popped(0, h)
    else
      var top := h.data[0];
      var last := h.heapSize - 1;
      var detached := DetachRoot(h);
      if !Updatable(detached.index, detached.data[0]) then IndexFault
      else Popped(top, SwapAndSiftDown(h, detached))
  }

  /** The second half of `Pop` on a heap of at least two elements:
      `swap(0, last)` on the detached state, the decrement of `heapSize`, and
      `down(0)`. */
  function SwapAndSiftDown(h: Heap, detached: Heap): (r: Heap)
    requires Valid(h) && h.heapSize >= 2
    requires detached == DetachRoot(h)
    ensures RemovesRoot(h, h.data[0], r)
  {
    var last := h.heapSize - 1;
    var shrunk := detached.(heapSize := last);
    SwapEqualSlots(detached, 0, last);
    var h2 := Swap(detached, 0, last).(heapSize := last);
    assert Live(h2) == Live(shrunk);
    CountedRespectsLengths(shrunk, h2);
    DownInvariantIgnoresIndex(shrunk, h2, 0);
    RootIsExtremalValue(h);
    var r := Down(h2, 0);
    assert Valid(r);
    assert r.d == h.d && r.order == h.order && r.heapSize == h.heapSize - 1;
    assert multiset(Live(r)) == multiset(Live(h)) - multiset{h.data[0]};
    assert HeapOrdered(h) ==> HeapOrdered(r);
    r
  }

  /** `Pop` with the fault removed: when the popped element is the only one,
      the swap and the sift are skipped, leaving an empty heap. */
  function PopCorrected(h: Heap): (r: (int, Heap))
    requires Valid(h)
    ensures h.heapSize == 0 ==> r == (0, h)
    ensures h.heapSize >= 1 ==> RemovesRoot(h, r.0, r.1)
  {
    if h.heapSize == 0 then (0, h)
    else
      var top := h.data[0];
      var last := h.heapSize - 1;
      var detached := DetachRoot(h);
      if last == 0 then
        RootIsExtremalValue(h);
        (top, detached.(heapSize := 0))
      else (top, SwapAndSiftDown(h, detached))
  }

  /** The correction changes nothing except on a one-element heap. */
  lemma PopCorrectedAgrees(h: Heap)
    requires Valid(h)
    ensures h.heapSize != 1 ==> Pop(h) == Popped(PopCorrected(h).0, PopCorrected(h).1)
    ensures h.heapSize == 1 ==> Pop(h) == IndexFault && PopCorrected(h).1.heapSize == 0
  {
  }

  /** Putting in front of a sorted sequence a value that nothing in it is
      strictly `Less` than keeps it sorted. */
  lemma PrependExtremal(o: Order, v: int, tail: seq<int>, live: seq<int>)
    requires multiset(tail) <= multiset(live)
    requires forall e :: e in live ==> !Less(o, e, v)
    requires forall a, b :: 0 <= a < b < |tail| ==> !Less(o, tail[b], tail[a])
    ensures forall a, b :: 0 <= a < b < |[v] + tail| ==> !Less(o, ([v] + tail)[b], ([v] + tail)[a])
  {
    var out := [v] + tail;
    forall a, b | 0 <= a < b < |out|
      ensures !Less(o, out[b], out[a])
    {
      if a == 0 {
        assert out[b] == tail[b - 1];
        assert out[b] in multiset(tail);
      } else {
        assert out[b] == tail[b - 1] && out[a] == tail[a - 1];
      }
    }
  }

  /** Popping until the heap is empty yields every live element once, each
      no more extreme than the one before it: ascending for a min-heap,
      descending for a max-heap. */
  function Drain(h: Heap): (out: seq<int>)
    requires Valid(h) && HeapOrdered(h)
    ensures multiset(out) == multiset(Live(h))
    ensures forall a, b :: 0 <= a < b < |out| ==> !Less(h.order, out[b], out[a])
    decreases h.heapSize
  {
    if h.heapSize == 0 then []
    else
      var (v, rest) := PopCorrected(h);
      var tail := Drain(rest);
      PrependExtremal(h.order, v, tail, Live(h));
      [v] + tail
  }
}
