/** The two restoration loops of the Go heap, `up` and `down`, as recursive
    functions over the state, with the invariants that make them restore heap
    order. */
module Sift {
  import opened Ordering
  import opened Tree
  import opened HeapState

  /** The state `up(i)` expects: heap order holds everywhere except possibly
      between slot i and its parent, and i's children are not `Less` than i's
      parent (so i may move up over them). */
  ghost predicate UpInvariant(h: Heap, i: int)
    requires Shaped(h)
  {
    && (forall j :: 1 <= j < h.heapSize && j != i ==> !Less(h.order, h.data[j], h.data[Parent(j, h.d)]))
    && (i >= 1 ==> forall j :: 1 <= j < h.heapSize && Parent(j, h.d) == i ==>
          !Less(h.order, h.data[j], h.data[Parent(i, h.d)]))
  }

  /** The state `down(i)` expects: heap order holds everywhere except possibly
      between slot i and its children, and i's children are not `Less` than
      i's parent (so any of them may move up into i). */
  ghost predicate DownInvariant(h: Heap, i: int)
    requires Shaped(h)
  {
    && (forall j :: 1 <= j < h.heapSize && Parent(j, h.d) != i ==> !Less(h.order, h.data[j], h.data[Parent(j, h.d)]))
    && (i >= 1 ==> forall j :: 1 <= j < h.heapSize && Parent(j, h.d) == i ==>
          !Less(h.order, h.data[j], h.data[Parent(i, h.d)]))
  }

  /** The sift-down invariant looks only at the data, not at the index. */
  lemma DownInvariantIgnoresIndex(h: Heap, h': Heap, i: int)
    requires Shaped(h) && h'.data == h.data && h'.heapSize == h.heapSize
    requires h'.d == h.d && h'.order == h.order
    ensures DownInvariant(h, i) <==> DownInvariant(h', i)
  {
  }

  /** `up(i)`: while i is not the root and `lessFunc(data[i], data[parent(i)])`,
      swap the two and continue from the parent. */
  function Up(h: Heap, i: nat): (r: Heap)
    requires Valid(h) && i < h.heapSize
    ensures Valid(r)
    ensures |r.data| == |h.data| && r.d == h.d && r.heapSize == h.heapSize && r.order == h.order
    ensures multiset(Live(r)) == multiset(Live(h))
    ensures forall j :: 0 <= j < |h.data| && !OnRootPath(j, i, h.d) ==> r.data[j] == h.data[j]
    ensures UpInvariant(h, i) ==> HeapOrdered(r)
    decreases i
  {
    if i > 0 && Less(h.order, h.data[i], h.data[Parent(i, h.d)]) then
      var p := Parent(i, h.d);
      LiveIsUpdatable(h, i);
      LiveIsUpdatable(h, p);
      SwapKeepsValid(h, i, p);
      var h' := Swap(h, i, p);
      UpStep(h, i, h');
      Up(h', p)
    else
      UpDone(h, i);
      h
  }

  /** One step of `up` moves the exception one level toward the root. */
  lemma UpStep(h: Heap, i: int, h': Heap)
    requires Shaped(h) && 1 <= i < h.heapSize
    requires Less(h.order, h.data[i], h.data[Parent(i, h.d)])
    requires |h'.data| == |h.data| && h'.d == h.d && h'.heapSize == h.heapSize && h'.order == h.order
    requires h'.data[i] == h.data[Parent(i, h.d)] && h'.data[Parent(i, h.d)] == h.data[i]
    requires forall k :: 0 <= k < |h.data| && k != i && k != Parent(i, h.d) ==> h'.data[k] == h.data[k]
    ensures UpInvariant(h, i) ==> UpInvariant(h', Parent(i, h.d))
  {
    if !UpInvariant(h, i) {
      return;
    }
    var o, d, p := h.order, h.d, Parent(i, h.d);
    forall j | 1 <= j < h.heapSize && j != p
      ensures !Less(o, h'.data[j], h'.data[Parent(j, d)])
    {
      var q := Parent(j, d);
      if j == i {
        LessIsStrictTotal(o, h.data[i], h.data[p], h.data[p]);
      } else if q == i {
        assert !Less(o, h.data[j], h.data[p]);
      } else if q == p {
        assert !Less(o, h.data[j], h.data[p]);
        LessIsStrictTotal(o, h.data[j], h.data[p], h.data[i]);
      } else {
        assert !Less(o, h.data[j], h.data[q]);
      }
    }
    if p >= 1 {
      var g := Parent(p, d);
      forall j | 1 <= j < h.heapSize && Parent(j, d) == p
        ensures !Less(o, h'.data[j], h'.data[g])
      {
        assert !Less(o, h.data[p], h.data[g]);
        if j != i {
          LessIsStrictTotal(o, h.data[j], h.data[p], h.data[g]);
        }
      }
    }
  }

  /** When `up` stops, heap order holds everywhere. */
  lemma UpDone(h: Heap, i: int)
    requires Shaped(h) && 0 <= i < h.heapSize
    requires i == 0 || !Less(h.order, h.data[i], h.data[Parent(i, h.d)])
    ensures UpInvariant(h, i) ==> HeapOrdered(h)
  {
  }

  /** The inner loop of `down(i)` from child number k on, with `s` the best
      slot found so far: a child replaces `s` only when it is strictly `Less`,
      so among equally small children the lowest slot wins. */
  function ScanChildren(h: Heap, i: nat, k: int, s: nat): (r: nat)
    requires Shaped(h) && i < h.heapSize && 1 <= k <= h.d + 1
    requires s == i || (Child(i, 1, h.d) <= s < Child(i, k, h.d) && s < h.heapSize)
    requires forall c :: Child(i, 1, h.d) <= c < Child(i, k, h.d) && c < h.heapSize ==>
               !Less(h.order, h.data[c], h.data[s])
    requires forall c :: Child(i, 1, h.d) <= c < s ==> Less(h.order, h.data[s], h.data[c])
    requires s != i ==> Less(h.order, h.data[s], h.data[i])
    ensures r == i || (Child(i, 1, h.d) <= r <= Child(i, h.d, h.d) && r < h.heapSize)
    ensures forall c :: Child(i, 1, h.d) <= c <= Child(i, h.d, h.d) && c < h.heapSize ==>
              !Less(h.order, h.data[c], h.data[r])
    ensures forall c :: Child(i, 1, h.d) <= c < r ==> Less(h.order, h.data[r], h.data[c])
    ensures r != i ==> Less(h.order, h.data[r], h.data[i])
    decreases h.d + 1 - k
  {
    if k <= h.d && Child(i, k, h.d) < h.heapSize then
      var c := Child(i, k, h.d);
      if Less(h.order, h.data[c], h.data[s]) then
        ScanTakesChild(h, i, k, s);
        ScanChildren(h, i, k + 1, c)
      else
        ScanKeepsBest(h, i, k, s);
        ScanChildren(h, i, k + 1, s)
    else
      ScanEnds(h, i, k, s);
      s
  }

  /** A child strictly `Less` than the best so far becomes the new best, and
      it is then strictly `Less` than every child scanned before it. */
  lemma ScanTakesChild(h: Heap, i: nat, k: int, s: nat)
    requires Shaped(h) && i < h.heapSize && 1 <= k <= h.d
    requires Child(i, k, h.d) < h.heapSize
    requires s == i || (Child(i, 1, h.d) <= s < Child(i, k, h.d) && s < h.heapSize)
    requires forall c :: Child(i, 1, h.d) <= c < Child(i, k, h.d) && c < h.heapSize ==>
               !Less(h.order, h.data[c], h.data[s])
    requires s != i ==> Less(h.order, h.data[s], h.data[i])
    requires Less(h.order, h.data[Child(i, k, h.d)], h.data[s])
    ensures forall c :: Child(i, 1, h.d) <= c < Child(i, k + 1, h.d) && c < h.heapSize ==>
              !Less(h.order, h.data[c], h.data[Child(i, k, h.d)])
    ensures forall c :: Child(i, 1, h.d) <= c < Child(i, k, h.d) ==>
              Less(h.order, h.data[Child(i, k, h.d)], h.data[c])
    ensures Less(h.order, h.data[Child(i, k, h.d)], h.data[i])
  {
    var o, b, x := h.order, Child(i, 1, h.d), h.data[Child(i, k, h.d)];
    LessIsStrictTotal(o, x, h.data[s], h.data[i]);
    forall c | b <= c < Child(i, k, h.d)
      ensures Less(o, x, h.data[c])
    {
      LessIsStrictTotal(o, x, h.data[s], h.data[c]);
    }
  }

  /** A child that is not strictly `Less` than the best so far leaves it. */
  lemma ScanKeepsBest(h: Heap, i: nat, k: int, s: nat)
    requires Shaped(h) && s < h.heapSize && 1 <= k <= h.d
    requires Child(i, k, h.d) < h.heapSize
    requires forall c :: Child(i, 1, h.d) <= c < Child(i, k, h.d) && c < h.heapSize ==>
               !Less(h.order, h.data[c], h.data[s])
    requires !Less(h.order, h.data[Child(i, k, h.d)], h.data[s])
    ensures forall c :: Child(i, 1, h.d) <= c < Child(i, k + 1, h.d) && c < h.heapSize ==>
              !Less(h.order, h.data[c], h.data[s])
  {
  }

  /** The scan stops after child d or at the first child beyond the live
      prefix; either way it has seen every live child. */
  lemma ScanEnds(h: Heap, i: nat, k: int, s: nat)
    requires Shaped(h) && s < h.heapSize && 1 <= k <= h.d + 1
    requires !(k <= h.d && Child(i, k, h.d) < h.heapSize)
    requires forall c :: Child(i, 1, h.d) <= c < Child(i, k, h.d) && c < h.heapSize ==>
               !Less(h.order, h.data[c], h.data[s])
    ensures forall c :: Child(i, 1, h.d) <= c <= Child(i, h.d, h.d) && c < h.heapSize ==>
              !Less(h.order, h.data[c], h.data[s])
  {
    assert Child(i, h.d, h.d) < Child(i, k, h.d) || h.heapSize <= Child(i, k, h.d);
  }

  /** The slot `down(i)` moves i's element to: i itself when no child is
      strictly `Less` than it, otherwise the lowest-numbered child among the
      most extreme ones. */
  function SmallestChild(h: Heap, i: nat): (s: nat)
    requires Shaped(h) && i < h.heapSize
    ensures s < h.heapSize
    ensures s == i || (s > i && Parent(s, h.d) == i)
    ensures forall c :: 1 <= c < h.heapSize && Parent(c, h.d) == i ==> !Less(h.order, h.data[c], h.data[s])
    ensures s != i ==> Less(h.order, h.data[s], h.data[i])
    ensures forall c :: 1 <= c < s && Parent(c, h.d) == i ==> Less(h.order, h.data[s], h.data[c])
  {
    var s := ScanChildren(h, i, 1, i);
    forall c | 1 <= c < h.heapSize
      ensures Parent(c, h.d) == i <==> Child(i, 1, h.d) <= c <= Child(i, h.d, h.d)
    {
      ParentIffChild(c, i, h.d);
    }
    if s != i then ParentIffChild(s, i, h.d); s else s
  }

  /** `down(i)`: swap i with its smallest child while that child is strictly
      `Less`, continuing from the child; i strictly grows, so it stops. */
  function Down(h: Heap, i: nat): (r: Heap)
    requires Valid(h) && i < h.heapSize
    ensures Valid(r)
    ensures |r.data| == |h.data| && r.d == h.d && r.heapSize == h.heapSize && r.order == h.order
    ensures multiset(Live(r)) == multiset(Live(h))
    ensures forall j :: h.heapSize <= j < |h.data| ==> r.data[j] == h.data[j]
    ensures DownInvariant(h, i) ==> HeapOrdered(r)
    decreases h.heapSize - i
  {
    var s := SmallestChild(h, i);
    if s == i then
      DownDone(h, i);
      h
    else
      LiveIsUpdatable(h, i);
      LiveIsUpdatable(h, s);
      SwapKeepsValid(h, i, s);
      var h' := Swap(h, i, s);
      DownStep(h, i, s, h');
      Down(h', s)
  }

  /** One step of `down` moves the exception one level toward the leaves. */
  lemma DownStep(h: Heap, i: int, s: int, h': Heap)
    requires Shaped(h) && 0 <= i < s < h.heapSize && Parent(s, h.d) == i
    requires Less(h.order, h.data[s], h.data[i])
    requires forall c :: 1 <= c < h.heapSize && Parent(c, h.d) == i ==> !Less(h.order, h.data[c], h.data[s])
    requires |h'.data| == |h.data| && h'.d == h.d && h'.heapSize == h.heapSize && h'.order == h.order
    requires h'.data[i] == h.data[s] && h'.data[s] == h.data[i]
    requires forall k :: 0 <= k < |h.data| && k != i && k != s ==> h'.data[k] == h.data[k]
    ensures DownInvariant(h, i) ==> DownInvariant(h', s)
  {
    if !DownInvariant(h, i) {
      return;
    }
    var o, d := h.order, h.d;
    forall j | 1 <= j < h.heapSize && Parent(j, d) != s
      ensures !Less(o, h'.data[j], h'.data[Parent(j, d)])
    {
      var q := Parent(j, d);
      if j == s {
        LessIsStrictTotal(o, h.data[s], h.data[i], h.data[i]);
      } else if j == i {
        assert !Less(o, h.data[s], h.data[q]);
      } else if q == i {
        assert !Less(o, h.data[j], h.data[s]);
      } else {
        assert !Less(o, h.data[j], h.data[q]);
      }
    }
    forall j | 1 <= j < h.heapSize && Parent(j, d) == s
      ensures !Less(o, h'.data[j], h'.data[i])
    {
      assert !Less(o, h.data[j], h.data[s]);
    }
  }

  /** When `down` stops, heap order holds everywhere. */
  lemma DownDone(h: Heap, i: int)
    requires Shaped(h) && 0 <= i < h.heapSize
    requires forall c :: 1 <= c < h.heapSize && Parent(c, h.d) == i ==> !Less(h.order, h.data[c], h.data[i])
    ensures DownInvariant(h, i) ==> HeapOrdered(h)
  {
  }
}
