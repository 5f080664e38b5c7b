/** The heap's state (the Go `Heap` struct) and the two primitives that touch
    the position index: `updateIndex` and `swap`. */
module HeapState {
  import opened Ordering
  import opened Tree

  /** `data` is the backing slice (its length is the slice length, which may
      exceed `heapSize`: slots at and beyond `heapSize` hold stale values),
      `d` the branching factor, `order` the `lessFunc`, and `index` the map
      from each value to its list of recorded positions. */
  datatype Heap = Heap(
    data: seq<int>,
    d: int,
    heapSize: nat,
    order: Order,
    index: map<int, seq<int>>)

  /** The fields every operation relies on to stay in bounds. */
  ghost predicate Shaped(h: Heap)
  {
    h.d >= 1 && h.heapSize <= |h.data|
  }

  /** The live elements, `data[0..heapSize)`. */
  function Live(h: Heap): seq<int>
    requires h.heapSize <= |h.data|
  {
    h.data[..h.heapSize]
  }

  /** Every recorded position is a slot of the backing slice, so reading
      `data` at any of them cannot go out of range. */
  ghost predicate PositionsInBounds(h: Heap)
  {
    forall v, k :: v in h.index && 0 <= k < |h.index[v]| ==> 0 <= h.index[v][k] < |h.data|
  }

  /** The counting invariant: a value is a key of the index exactly when it is
      live, and its list is as long as its number of live occurrences. The
      list's entries are NOT the positions of the value (see `UpdateIndex`). */
  ghost predicate Counted(h: Heap)
    requires h.heapSize <= |h.data|
  {
    && (forall v :: v in h.index <==> v in Live(h))
    && (forall v :: v in h.index ==> |h.index[v]| == multiset(Live(h))[v])
  }

  /** The invariant every state reachable from `NewHeap` keeps. */
  ghost predicate Valid(h: Heap)
  {
    Shaped(h) && PositionsInBounds(h) && Counted(h)
  }

  /** Heap order: no live child is strictly `Less` than its parent. */
  ghost predicate HeapOrdered(h: Heap)
    requires Shaped(h)
  {
    forall i :: 1 <= i < h.heapSize ==> !Less(h.order, h.data[i], h.data[Parent(i, h.d)])
  }

  /** What `updateIndex(v, _)` needs in order not to fault: `v` is a key and
      its list has a slot 0 to overwrite. */
  predicate Updatable(index: map<int, seq<int>>, v: int)
  {
    v in index && |index[v]| > 0
  }

  /** `updateIndex(v, pos)`: overwrites slot 0 of v's list with `pos`. The
      scan over the list that precedes the assignment in the Go code has no
      effect, since its `break` leaves only the scan. So no position is added
      or removed: v keeps the same number of entries, and the entry it had
      for its other occurrence is lost when the list holds more than one. */
  function UpdateIndex(index: map<int, seq<int>>, v: int, pos: int): (r: map<int, seq<int>>)
    requires Updatable(index, v)
    ensures r.Keys == index.Keys
    ensures forall w :: w in index ==> |r[w]| == |index[w]|
    ensures forall w :: w in index && w != v ==> r[w] == index[w]
    ensures r[v][0] == pos && r[v][1..] == index[v][1..]
  {
    index[v := index[v][0 := pos]]
  }

  /** `swap(i, j)`: exchanges two slots, then re-indexes the new occupant of
      i and then that of j. */
  function Swap(h: Heap, i: int, j: int): (r: Heap)
    requires 0 <= i < |h.data| && 0 <= j < |h.data|
    requires Updatable(h.index, h.data[i]) && Updatable(h.index, h.data[j])
    ensures |r.data| == |h.data| && r.d == h.d && r.heapSize == h.heapSize && r.order == h.order
    ensures r.data[i] == h.data[j] && r.data[j] == h.data[i]
    ensures forall k :: 0 <= k < |h.data| && k != i && k != j ==> r.data[k] == h.data[k]
    ensures r.index.Keys == h.index.Keys
    ensures forall v :: v in h.index ==> |r.index[v]| == |h.index[v]|
    ensures PositionsInBounds(h) ==> PositionsInBounds(r)
  {
    var data := h.data[i := h.data[j]][j := h.data[i]];
    var index1 := UpdateIndex(h.index, data[i], i);
    var index2 := UpdateIndex(index1, data[j], j);
    h.(data := data, index := index2)
  }

  /** Every live value can be re-indexed in a valid state. */
  lemma LiveIsUpdatable(h: Heap, j: int)
    requires Valid(h) && 0 <= j < h.heapSize
    ensures Updatable(h.index, h.data[j])
  {
    assert h.data[j] == Live(h)[j];
    assert h.data[j] in Live(h);
  }

  /** The counting invariant depends only on the live data, the key set and
      the list lengths. */
  lemma CountedRespectsLengths(h: Heap, h': Heap)
    requires h.heapSize <= |h.data| && h'.heapSize <= |h'.data|
    requires Live(h) == Live(h')
    requires h.index.Keys == h'.index.Keys
    requires forall v :: v in h.index ==> |h'.index[v]| == |h.index[v]|
    requires Counted(h)
    ensures Counted(h')
  {
  }

  /** The live multiset is unchanged by exchanging two live slots. */
  lemma SwapLiveMultiset(h: Heap, i: int, j: int, r: Heap)
    requires h.heapSize <= |h.data| && |r.data| == |h.data| && r.heapSize == h.heapSize
    requires 0 <= i < h.heapSize && 0 <= j < h.heapSize
    requires r.data[i] == h.data[j] && r.data[j] == h.data[i]
    requires forall k :: 0 <= k < |h.data| && k != i && k != j ==> r.data[k] == h.data[k]
    ensures Live(r) == Live(h)[i := h.data[j]][j := h.data[i]]
    ensures multiset(Live(r)) == multiset(Live(h))
  {
    var s := Live(h)[i := h.data[j]][j := h.data[i]];
    forall k | 0 <= k < |s|
      ensures Live(r)[k] == s[k]
    {
    }
    assert Live(r) == s;
    var s1 := Live(h)[i := h.data[j]];
    assert multiset(s1) == multiset(Live(h)) - multiset{h.data[i]} + multiset{h.data[j]};
    assert multiset(s) == multiset(s1) - multiset{s1[j]} + multiset{h.data[i]};
  }

  /** `swap` of two live slots keeps a valid state valid and the live
      multiset unchanged. */
  lemma SwapKeepsValid(h: Heap, i: int, j: int)
    requires Valid(h) && 0 <= i < h.heapSize && 0 <= j < h.heapSize
    requires Updatable(h.index, h.data[i]) && Updatable(h.index, h.data[j])
    ensures Valid(Swap(h, i, j))
    ensures multiset(Live(Swap(h, i, j))) == multiset(Live(h))
  {
    var r := Swap(h, i, j);
    SwapLiveMultiset(h, i, j, r);
    forall v
      ensures v in r.index <==> v in Live(r)
    {
      calc {
        v in Live(r);
        v in multiset(Live(r));
        v in multiset(Live(h));
        v in Live(h);
      }
    }
  }
}
