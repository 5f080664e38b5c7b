/** The lookup tests, `Contains` and `Get`, on the concrete states a binary
    min-heap passes through, and the lookup that `updateIndex` breaks. */
module Lookups {
  import opened Ordering
  import opened Tree
  import opened HeapState
  import opened Sift
  import opened DaryHeap

  /** The states after pushing 5, 3, 4, 1 and 1 into an empty binary
      min-heap, and after each of two pops. */
  const S1: Heap := Heap([5], 2, 1, MinFirst, map[5 := [0]])
  const S2: Heap := Heap([3, 5], 2, 2, MinFirst, map[5 := [1], 3 := [0]])
  const S3: Heap := Heap([3, 5, 4], 2, 3, MinFirst, map[5 := [1], 3 := [0], 4 := [2]])
  const S4: Heap := Heap([1, 3, 4, 5], 2, 4, MinFirst, map[5 := [3], 3 := [1], 4 := [2], 1 := [0]])
  const S5: Heap := Heap([1, 1, 4, 5, 3], 2, 5, MinFirst, map[5 := [3], 3 := [4], 4 := [2], 1 := [1, 0]])
  const T1: Heap := Heap([1, 3, 4, 5, 3], 2, 4, MinFirst, map[5 := [3], 3 := [1], 4 := [2], 1 := [0]])
  const T2: Heap := Heap([3, 5, 4, 5, 3], 2, 3, MinFirst, map[5 := [1], 3 := [0], 4 := [2]])

  lemma PushFirst()
    ensures Push(NewHeap(2, MinFirst), 5) == S1
  {
    var p := Place(NewHeap(2, MinFirst), 5);
    assert p.data == [5];
    assert p == S1;
  }

  /** The state after `Place` of the second push, 3, before `up`. */
  const A2: Heap := Heap([5, 3], 2, 2, MinFirst, map[5 := [0], 3 := [1]])

  lemma SwapA2()
    ensures Swap(A2, 1, 0) == S2
  {
    var q := Swap(A2, 1, 0);
    assert q.data == [3, 5];
    var i1 := UpdateIndex(A2.index, 5, 1);
    assert A2.index[5][0 := 1] == [1];
    assert i1 == map[5 := [1], 3 := [1]];
    assert i1[3][0 := 0] == [0];
    assert UpdateIndex(i1, 3, 0) == S2.index;
  }

  lemma PushSecond()
    requires Valid(S1)
    ensures Push(S1, 3) == S2
  {
    var p := Place(S1, 3);
    assert p.data == [5, 3];
    assert p == A2;
    assert Parent(1, 2) == 0;
    SwapA2();
    LiveIsUpdatable(p, 1);
    LiveIsUpdatable(p, 0);
    SwapKeepsValid(p, 1, 0);
    assert Up(p, 1) == Up(S2, 0) == S2;
  }

  lemma PushThird()
    requires Valid(S2)
    ensures Push(S2, 4) == S3
  {
    var p := Place(S2, 4);
    assert p.data == [3, 5, 4];
    assert p == S3;
    assert Parent(2, 2) == 0;
  }

  /** The state after `Place` of the fourth push, 1, before `up`. */
  const A4: Heap := Heap([3, 5, 4, 1], 2, 4, MinFirst, map[5 := [1], 3 := [0], 4 := [2], 1 := [3]])
  /** The fourth push after the first swap of its `up`, from slot 3 to slot 1. */
  const B4: Heap := Heap([3, 1, 4, 5], 2, 4, MinFirst, map[5 := [3], 3 := [0], 4 := [2], 1 := [1]])
  /** The state after `Place` of the fifth push, 1, before `up`. */
  const A5: Heap := Heap([1, 3, 4, 5, 1], 2, 5, MinFirst, map[5 := [3], 3 := [1], 4 := [2], 1 := [0, 0]])

  lemma SwapA4()
    ensures Swap(A4, 3, 1) == B4
  {
    var q := Swap(A4, 3, 1);
    assert q.data == [3, 1, 4, 5];
    var i1 := UpdateIndex(A4.index, 5, 3);
    assert A4.index[5][0 := 3] == [3];
    assert i1 == map[5 := [3], 3 := [0], 4 := [2], 1 := [3]];
    assert i1[1][0 := 1] == [1];
    assert UpdateIndex(i1, 1, 1) == B4.index;
  }

  lemma SwapB4()
    ensures Swap(B4, 1, 0) == S4
  {
    var r := Swap(B4, 1, 0);
    assert r.data == [1, 3, 4, 5];
    var j1 := UpdateIndex(B4.index, 3, 1);
    assert B4.index[3][0 := 1] == [1];
    assert j1 == map[5 := [3], 3 := [1], 4 := [2], 1 := [1]];
    assert j1[1][0 := 0] == [0];
    assert UpdateIndex(j1, 1, 0) == S4.index;
  }

  lemma PushFourth()
    requires Valid(S3)
    ensures Push(S3, 1) == S4
  {
    var p := Place(S3, 1);
    assert p.data == [3, 5, 4, 1];
    assert p == A4;
    SwapA4();
    SwapB4();
    assert Parent(3, 2) == 1 && Parent(1, 2) == 0;
    var q := Swap(p, 3, 1);
    LiveIsUpdatable(p, 3);
    LiveIsUpdatable(p, 1);
    SwapKeepsValid(p, 3, 1);
    assert Up(p, 3) == Up(q, 1);
    LiveIsUpdatable(q, 1);
    LiveIsUpdatable(q, 0);
    SwapKeepsValid(q, 1, 0);
    assert Up(q, 1) == Up(S4, 0) == S4;
  }

  lemma SwapA5()
    ensures Swap(A5, 4, 1) == S5
  {
    var q := Swap(A5, 4, 1);
    assert q.data == [1, 1, 4, 5, 3];
    var i1 := UpdateIndex(A5.index, 3, 4);
    assert A5.index[3][0 := 4] == [4];
    assert i1 == map[5 := [3], 3 := [4], 4 := [2], 1 := [0, 0]];
    assert i1[1][0 := 1] == [1, 0];
    assert UpdateIndex(i1, 1, 1) == S5.index;
  }

  lemma PushFifth()
    requires Valid(S4)
    ensures Push(S4, 1) == S5
  {
    var p := Place(S4, 1);
    assert p.data == [1, 3, 4, 5, 1];
    assert S4.index[1] + [S4.index[1][0]] == [0, 0];
    assert p == A5;
    SwapA5();
    assert Parent(4, 2) == 1 && Parent(1, 2) == 0;
    LiveIsUpdatable(p, 4);
    LiveIsUpdatable(p, 1);
    SwapKeepsValid(p, 4, 1);
    assert Up(p, 4) == Up(S5, 1) == S5;
  }

  /** The five pushes of both lookup tests build `S5`. */
  lemma FivePushes()
    ensures Push(Push(Push(Push(Push(NewHeap(2, MinFirst), 5), 3), 4), 1), 1) == S5
  {
    PushFirst();
    PushSecond();
    PushThird();
    PushFourth();
    PushFifth();
  }

  /** The first pop: `S5` with its last element copied into the root and
      the popped key's entry dropped, before the size drops. */
  const D5: Heap := Heap([3, 1, 4, 5, 3], 2, 5, MinFirst, map[5 := [3], 3 := [4], 4 := [2], 1 := [0]])
  /** The first pop after the size drops, before `down(0)`. */
  const H5: Heap := Heap([3, 1, 4, 5, 3], 2, 4, MinFirst, map[5 := [3], 3 := [4], 4 := [2], 1 := [0]])
  /** The second pop: `T1` with its root detached, before the size drops. */
  const D6: Heap := Heap([5, 3, 4, 5, 3], 2, 4, MinFirst, map[5 := [3], 3 := [1], 4 := [2]])
  /** The second pop after the size drops, before `down(0)`. */
  const H6: Heap := Heap([5, 3, 4, 5, 3], 2, 3, MinFirst, map[5 := [3], 3 := [1], 4 := [2]])

  /** `DetachRoot` copies the last live element into the root. */
  lemma DetachRootData(h: Heap)
    requires Valid(h) && h.heapSize >= 1
    ensures DetachRoot(h).data == h.data[0 := h.data[h.heapSize - 1]]
  {
  }

  lemma DetachS5Data()
    ensures S5.data[0 := S5.data[S5.heapSize - 1]] == D5.data
  {
  }

  lemma DetachS5Index()
    requires Valid(S5)
    ensures DetachRoot(S5).index == D5.index
  {
    assert S5.index[1][1..] == [0];
    assert S5.index[1 := [0]] == D5.index;
  }

  lemma DetachS5()
    requires Valid(S5)
    ensures DetachRoot(S5) == D5
    ensures Valid(H5)
  {
    DetachRootData(S5);
    DetachS5Data();
    DetachS5Index();
    assert DetachRoot(S5).(heapSize := 4) == H5;
  }

  lemma SwapD5()
    ensures Swap(D5, 0, 4) == D5
  {
    var q := Swap(D5, 0, 4);
    assert q.data == D5.data;
    var i1 := UpdateIndex(D5.index, 3, 0);
    assert D5.index[3][0 := 0] == [0];
    assert i1 == map[5 := [3], 3 := [0], 4 := [2], 1 := [0]];
    assert i1[3][0 := 4] == [4];
    assert UpdateIndex(i1, 3, 4) == D5.index;
  }

  lemma SwapH5()
    ensures Swap(H5, 0, 1) == T1
  {
    var q := Swap(H5, 0, 1);
    assert q.data == [1, 3, 4, 5, 3];
    var i1 := UpdateIndex(H5.index, 1, 0);
    assert H5.index[1][0 := 0] == [0];
    assert i1 == H5.index;
    assert i1[3][0 := 1] == [1];
    assert UpdateIndex(i1, 3, 1) == T1.index;
  }

  lemma SiftH5()
    requires Valid(H5)
    ensures Down(H5, 0) == T1
  {
    assert Parent(1, 2) == 0 && Parent(2, 2) == 0 && Parent(3, 2) == 1;
    assert SmallestChild(H5, 0) == 1;
    SwapH5();
    LiveIsUpdatable(H5, 0);
    LiveIsUpdatable(H5, 1);
    SwapKeepsValid(H5, 0, 1);
    assert SmallestChild(T1, 1) == 1;
    assert Down(H5, 0) == Down(T1, 1) == T1;
  }

  lemma PopFirst()
    requires Valid(S5)
    ensures Pop(S5) == Popped(1, T1)
  {
    DetachS5();
    SwapD5();
    SiftH5();
    assert D5.(heapSize := 4) == H5;
  }

  lemma DetachT1Data()
    ensures T1.data[0 := T1.data[T1.heapSize - 1]] == D6.data
  {
  }

  lemma DetachT1Index()
    requires Valid(T1)
    ensures DetachRoot(T1).index == D6.index
  {
    assert T1.index[1][1..] == [];
    assert T1.index - {1} == D6.index;
  }

  lemma DetachT1()
    requires Valid(T1)
    ensures DetachRoot(T1) == D6
    ensures Valid(H6)
  {
    DetachRootData(T1);
    DetachT1Data();
    DetachT1Index();
    assert DetachRoot(T1).(heapSize := 3) == H6;
  }

  lemma SwapD6()
    ensures Swap(D6, 0, 3) == D6
  {
    var q := Swap(D6, 0, 3);
    assert q.data == D6.data;
    var i1 := UpdateIndex(D6.index, 5, 0);
    assert D6.index[5][0 := 0] == [0];
    assert i1 == map[5 := [0], 3 := [1], 4 := [2]];
    assert i1[5][0 := 3] == [3];
    assert UpdateIndex(i1, 5, 3) == D6.index;
  }

  lemma SwapH6()
    ensures Swap(H6, 0, 1) == T2
  {
    var q := Swap(H6, 0, 1);
    assert q.data == [3, 5, 4, 5, 3];
    var i1 := UpdateIndex(H6.index, 3, 0);
    assert H6.index[3][0 := 0] == [0];
    assert i1 == map[5 := [3], 3 := [0], 4 := [2]];
    assert i1[5][0 := 1] == [1];
    assert UpdateIndex(i1, 5, 1) == T2.index;
  }

  lemma SiftH6()
    requires Valid(H6)
    ensures Down(H6, 0) == T2
  {
    assert Parent(1, 2) == 0 && Parent(2, 2) == 0;
    assert SmallestChild(H6, 0) == 1;
    SwapH6();
    LiveIsUpdatable(H6, 0);
    LiveIsUpdatable(H6, 1);
    SwapKeepsValid(H6, 0, 1);
    assert SmallestChild(T2, 1) == 1;
    assert Down(H6, 0) == Down(T2, 1) == T2;
  }

  lemma PopSecond()
    requires Valid(T1)
    ensures Pop(T1) == Popped(1, T2)
  {
    DetachT1();
    SwapD6();
    SiftH6();
    assert D6.(heapSize := 3) == H6;
  }

  /** The five pushes of both lookup tests build `S5`, and the two pops that
      follow return 1 each and leave `T1` and then `T2`. */
  lemma PushesThenPops()
    ensures Push(Push(Push(Push(Push(NewHeap(2, MinFirst), 5), 3), 4), 1), 1) == S5
    ensures Valid(S5) && Pop(S5) == Popped(1, T1)
    ensures Valid(T1) && Pop(T1) == Popped(1, T2)
  {
    FivePushes();
    PopFirst();
    PopSecond();
  }

  /** What `TestHeapContains` expects of the state its pushes build: 5 and
      3 are present and 2 is not; after one pop the second 1 is still
      present, after two it is not. */
  ghost predicate ContainsExpected(h: Heap)
    requires Valid(h) && h.heapSize >= 2
  {
    && Contains(h, 5) && Contains(h, 3) && !Contains(h, 2)
    && Pop(h).Popped? && Contains(Pop(h).heap, 1)
    && Pop(Pop(h).heap).Popped? && !Contains(Pop(Pop(h).heap).heap, 1)
  }

  /** What `TestHeapGet` expects of the same state: `Get` finds 5 and 3 and
      reports 2 absent; after one pop it finds 1, after two it reports 1
      absent. */
  ghost predicate GetExpected(h: Heap)
    requires Valid(h) && h.heapSize >= 2
  {
    && Get(h, 5) == (5, true) && Get(h, 3) == (3, true) && Get(h, 2) == (0, false)
    && Pop(h).Popped? && Get(Pop(h).heap, 1) == (1, true)
    && Pop(Pop(h).heap).Popped? && Get(Pop(Pop(h).heap).heap, 1) == (0, false)
  }

  lemma LookupsOfS5()
    requires PositionsInBounds(S5)
    ensures Contains(S5, 5) && Contains(S5, 3) && !Contains(S5, 2)
    ensures Get(S5, 5) == (5, true) && Get(S5, 3) == (3, true) && Get(S5, 2) == (0, false)
  {
  }

  lemma LookupsOfT1()
    requires PositionsInBounds(T1)
    ensures Contains(T1, 1) && Get(T1, 1) == (1, true)
  {
  }

  lemma LookupsOfT2()
    requires PositionsInBounds(T2)
    ensures !Contains(T2, 1) && Get(T2, 1) == (0, false)
  {
  }

  lemma ExpectedOfS5()
    requires Valid(S5) && Pop(S5) == Popped(1, T1)
    requires Valid(T1) && Pop(T1) == Popped(1, T2)
    ensures ContainsExpected(S5) && GetExpected(S5)
  {
    assert Valid(T2);
    LookupsOfS5();
    LookupsOfT1();
    LookupsOfT2();
  }

  /** `TestHeapContains` holds of the state the pushes build. */
  lemma ContainsTest()
    ensures ContainsExpected(Push(Push(Push(Push(Push(NewHeap(2, MinFirst), 5), 3), 4), 1), 1))
  {
    PushesThenPops();
    ExpectedOfS5();
  }

  /** `TestHeapGet` holds of the state the pushes build. */
  lemma GetTest()
    ensures GetExpected(Push(Push(Push(Push(Push(NewHeap(2, MinFirst), 5), 3), 4), 1), 1))
  {
    PushesThenPops();
    ExpectedOfS5();
  }

  /** The states of a binary min-heap after pushing 1 twice, popping once and
      pushing 5: the pop's `swap(0, 1)` overwrites the remaining 1's only
      recorded position with the vacated slot 1, which the push of 5 then
      fills. */
  const U1: Heap := Heap([1], 2, 1, MinFirst, map[1 := [0]])
  const U2: Heap := Heap([1, 1], 2, 2, MinFirst, map[1 := [0, 0]])
  const DU: Heap := Heap([1, 1], 2, 2, MinFirst, map[1 := [0]])
  const U3: Heap := Heap([1, 1], 2, 1, MinFirst, map[1 := [1]])
  const U4: Heap := Heap([1, 5], 2, 2, MinFirst, map[1 := [1], 5 := [1]])

  lemma DriftPushes()
    ensures Push(NewHeap(2, MinFirst), 1) == U1
    ensures Valid(U1) && Push(U1, 1) == U2
  {
    var p := Place(NewHeap(2, MinFirst), 1);
    assert p.data == [1];
    assert p == U1;
    var q := Place(U1, 1);
    assert q.data == [1, 1];
    assert U1.index[1] + [U1.index[1][0]] == [0, 0];
    assert q == U2;
    assert Parent(1, 2) == 0;
  }

  lemma SwapDU()
    ensures Swap(DU, 0, 1) == U3.(heapSize := 2)
  {
    var q := Swap(DU, 0, 1);
    assert q.data == [1, 1];
    assert DU.index[1][0 := 0] == [0];
    assert UpdateIndex(DU.index, 1, 0) == DU.index;
    assert DU.index[1][0 := 1] == [1];
    assert UpdateIndex(DU.index, 1, 1) == U3.index;
  }

  lemma DriftPop()
    requires Valid(U2)
    ensures Pop(U2) == Popped(1, U3)
  {
    DetachRootData(U2);
    assert U2.data[0 := U2.data[1]] == DU.data;
    assert U2.index[1][1..] == [0];
    assert U2.index[1 := [0]] == DU.index;
    assert DetachRoot(U2) == DU;
    SwapDU();
    assert SmallestChild(U3, 0) == 0;
  }

  lemma DriftPush()
    requires Valid(U3)
    ensures Push(U3, 5) == U4
  {
    var p := Place(U3, 5);
    assert p.data == [1, 5];
    assert p == U4;
    assert Parent(1, 2) == 0;
  }

  /** `Get` can return a different value than the one asked for: after
      pushing 1 twice, popping once and pushing 5, the live elements are
      [1, 5] and `Get(1)` reports 5. */
  lemma GetDrift()
    ensures var p := Pop(Push(Push(NewHeap(2, MinFirst), 1), 1));
            && p.Popped? && p.value == 1
            && Live(Push(p.heap, 5)) == [1, 5] && Get(Push(p.heap, 5), 1) == (5, true)
  {
    DriftPushes();
    DriftPop();
    DriftPush();
  }

  /** What `Get` evidently intends, computed by scanning the live elements
      instead of trusting the index: it finds a live element equal to `v`
      exactly when `v` is live, and then returns that element. Its flag
      always agrees with `Get`'s. */
  method GetCorrected(h: Heap, v: int) returns (r: int, found: bool)
    requires Valid(h)
    ensures found <==> v in Live(h)
    ensures found ==> r == v
    ensures !found ==> r == 0
    ensures found == Get(h, v).1
  {
    var i := 0;
    while i < h.heapSize
      invariant 0 <= i <= h.heapSize
      invariant v !in Live(h)[..i]
    {
      if h.data[i] == v {
        assert Live(h)[i] == v;
        return h.data[i], true;
      }
      assert Live(h)[..i + 1] == Live(h)[..i] + [h.data[i]];
      i := i + 1;
    }
    assert Live(h)[..i] == Live(h);
    return 0, false;
  }
}
