/** The scenarios of the Go test suite, run against the model. Each table is
    written as a trace: its operations, each with the multiset of live
    elements it leaves and the values it returns. A trace the reference
    queue follows fixes what the queue observes, and `RunAgreesWithQueue`
    carries that over to the heap. */
module Scenarios {
  import opened Ordering
  import opened Tree
  import opened HeapState
  import opened DaryHeap
  import opened PriorityQueue

  /** A table of operations annotated with what each step leaves and
      returns. `LastPop(x)` is a final pop of the only element, x: `Pop` as
      written faults there, `PopCorrected` returns x. */
  datatype Trace =
    | Done
    | LastPop(x: int)
    | Then(op: Op, after: multiset<int>, out: seq<int>, rest: Trace)

  /** The operations of a trace, without the annotations. */
  function OpsOf(t: Trace): seq<Op>
  {
    match t
    case Done => []
    case LastPop(_) => [PopOp]
    case Then(op, _, _, rest) => [op] + OpsOf(rest)
  }

  /** Puts several values in front of a queue run's results. */
  function Prepend(out: seq<int>, q: QueueOutcome): QueueOutcome
  {
    match q
    case QueueCompleted(rs, final) => QueueCompleted(out + rs, final)
    case QueueStopped(rs) => QueueStopped(out + rs)
  }

  /** The queue outcome a trace starting from `m` announces. */
  function Announced(m: multiset<int>, t: Trace, corrected: bool): QueueOutcome
    decreases t
  {
    match t
    case Done => QueueCompleted([], m)
    case LastPop(x) => if corrected then QueueCompleted([x], multiset{}) else QueueStopped([])
    case Then(_, after, out, rest) => Prepend(out, Announced(after, rest, corrected))
  }

  /** One step of the reference queue from `m`, other than a pop of its only
      element, leaving `after` and returning `out`. */
  ghost predicate QueueStep(o: Order, m: multiset<int>, op: Op, after: multiset<int>, out: seq<int>)
  {
    match op
    case PushOp(v) => after == m + multiset{v} && out == []
    case PeekOp => after == m && |out| == 1 && (if |m| == 0 then out[0] == 0 else IsExtremal(o, m, out[0]))
    case PopOp =>
      if |m| == 0 then after == m && out == [0]
      else |m| >= 2 && |out| == 1 && IsExtremal(o, m, out[0]) && after == m - multiset{out[0]}
  }

  /** Every step of the trace is a step of the reference queue. */
  ghost predicate Follows(o: Order, m: multiset<int>, t: Trace)
    decreases t
  {
    match t
    case Done => true
    case LastPop(x) => m == multiset{x}
    case Then(op, after, out, rest) => QueueStep(o, m, op, after, out) && Follows(o, after, rest)
  }

  /** A trace the reference queue follows announces exactly what the queue
      observes on the trace's operations. */
  lemma {:induction false} FollowedTraceIsObserved(o: Order, m: multiset<int>, t: Trace, corrected: bool)
    requires Follows(o, m, t)
    ensures Queue(o, m, OpsOf(t), corrected) == Announced(m, t, corrected)
    decreases t
  {
    match t
    case Done =>
    case LastPop(x) =>
      assert OpsOf(t)[1..] == [];
      if corrected {
        ExtremalIsUnique(o, m, x);
        assert m - multiset{x} == multiset{};
      }
    case Then(op, after, out, rest) =>
      FollowedTraceIsObserved(o, after, rest, corrected);
      FirstStepIsObserved(o, m, t, corrected);
  }

  /** The queue observes a trace's first step as the step announces. */
  lemma FirstStepIsObserved(o: Order, m: multiset<int>, t: Trace, corrected: bool)
    requires t.Then? && QueueStep(o, m, t.op, t.after, t.out)
    ensures Queue(o, m, OpsOf(t), corrected) == Prepend(t.out, Queue(o, t.after, OpsOf(t.rest), corrected))
  {
    var ops := OpsOf(t);
    assert ops[0] == t.op && ops[1..] == OpsOf(t.rest);
    var q := Queue(o, t.after, OpsOf(t.rest), corrected);
    match t.op
    case PushOp(v) =>
      assert [] + q.results == q.results;
    case PeekOp =>
      if |m| >= 1 {
        ExtremalIsUnique(o, m, t.out[0]);
      }
      assert t.out == [t.out[0]];
    case PopOp =>
      if |m| >= 1 {
        ExtremalIsUnique(o, m, t.out[0]);
      }
      assert t.out == [t.out[0]];
  }

  /** A heap holding one element lays it out alone. */
  lemma SingleLayout(h: Heap, o: Order, a: int)
    requires Holds(h, o, multiset{a})
    ensures Live(h) == [a]
  {
    var l := Live(h);
    assert |l| == 1;
    assert l[0] in multiset(l);
  }

  /** A heap holding two elements lays them out in order: the one that is
      not `Less` than the other second. */
  lemma PairLayout(h: Heap, o: Order, a: int, b: int)
    requires Holds(h, o, multiset{a, b}) && !Less(o, b, a)
    ensures Live(h) == [a, b]
  {
    var l := Live(h);
    assert |l| == 2;
    assert Parent(1, h.d) == 0;
    assert !Less(o, l[1], l[0]);
    assert l == [l[0], l[1]];
    assert multiset{l[0], l[1]} == multiset{a, b};
    LessIsStrictTotal(o, a, b, b);
  }

  /** The number of annotated steps of a trace, before its end. */
  function Steps(t: Trace): (k: nat)
    ensures k <= |OpsOf(t)|
    decreases t
  {
    if t.Then? then 1 + Steps(t.rest) else 0
  }

  /** The first n annotated steps of a trace, ending there. */
  function Take(t: Trace, n: nat): (p: Trace)
    requires n <= Steps(t)
    ensures Steps(p) == n
    decreases t
  {
    if n == 0 then Done else Then(t.op, t.after, t.out, Take(t.rest, n - 1))
  }

  /** The multiset a trace starting from `m` announces after n steps. */
  function After(m: multiset<int>, t: Trace, n: nat): multiset<int>
    requires n <= Steps(t)
    decreases t
  {
    if n == 0 then m else After(t.after, t.rest, n - 1)
  }

  /** Cutting a trace after n steps keeps its first n operations. */
  lemma {:induction false} TakeOps(t: Trace, n: nat)
    requires n <= Steps(t)
    ensures OpsOf(Take(t, n)) == OpsOf(t)[..n]
    decreases t
  {
    if n > 0 {
      TakeOps(t.rest, n - 1);
    }
  }

  /** A prefix of a trace the queue follows is followed too, and it
      announces a completed run ending at the multiset after n steps. */
  lemma {:induction false} TakeFollows(o: Order, m: multiset<int>, t: Trace, n: nat, corrected: bool)
    requires Follows(o, m, t) && n <= Steps(t)
    ensures Follows(o, m, Take(t, n))
    ensures Announced(m, Take(t, n), corrected).QueueCompleted?
    ensures Announced(m, Take(t, n), corrected).rest == After(m, t, n)
    decreases t
  {
    if n > 0 {
      TakeFollows(o, t.after, t.rest, n - 1, corrected);
    }
  }

  /** After the first n steps of a followed table, the heap is valid,
      heap-ordered and holds exactly the multiset the table announces. */
  lemma PrefixHolds(d: int, o: Order, t: Trace, n: nat, corrected: bool)
    requires d >= 1 && Follows(o, multiset{}, t) && n <= Steps(t)
    ensures var r := Run(NewHeap(d, o), OpsOf(t)[..n], corrected);
            r.Completed? && Holds(r.heap, o, After(multiset{}, t, n))
  {
    var p := Take(t, n);
    TakeOps(t, n);
    TakeFollows(o, multiset{}, t, n, corrected);
    FollowedTraceIsObserved(o, multiset{}, p, corrected);
    FreshRunAgrees(d, o, OpsOf(p), corrected);
  }

  /** "MinHeap with d=2": a min-heap of branching factor 2. */
  const MinHeapBinaryTable: Trace :=
    Then(PushOp(5), multiset{5}, [],
    Then(PushOp(3), multiset{5, 3}, [],
    Then(PeekOp, multiset{5, 3}, [3],
    MinHeapBinaryPart2)))

  /** The table from step 4 on. */
  const MinHeapBinaryPart2: Trace :=
    Then(PushOp(4), multiset{5, 3, 4}, [],
    Then(PopOp, multiset{5, 4}, [3],
    Then(PushOp(1), multiset{5, 4, 1}, [],
    MinHeapBinaryPart3)))

  /** The table from step 7 on. */
  const MinHeapBinaryPart3: Trace :=
    Then(PopOp, multiset{5, 4}, [1],
    Then(PopOp, multiset{5}, [4],
    LastPop(5)))

  lemma MinHeapBinaryPart3Follows()
    ensures Follows(MinFirst, multiset{5, 4, 1}, MinHeapBinaryPart3)
  {
  }

  lemma MinHeapBinaryPart2Follows()
    ensures Follows(MinFirst, multiset{5, 3}, MinHeapBinaryPart2)
  {
    MinHeapBinaryPart3Follows();
  }

  lemma MinHeapBinaryFollows()
    ensures Follows(MinFirst, multiset{}, MinHeapBinaryTable)
  {
    MinHeapBinaryPart2Follows();
  }

  lemma MinHeapBinaryPart3Announced(corrected: bool)
    ensures Announced(multiset{5, 4, 1}, MinHeapBinaryPart3, corrected)
         == if corrected then QueueCompleted([1, 4, 5], multiset{}) else QueueStopped([1, 4])
  {
  }

  lemma MinHeapBinaryPart2Announced(corrected: bool)
    ensures Announced(multiset{5, 3}, MinHeapBinaryPart2, corrected)
         == if corrected then QueueCompleted([3, 1, 4, 5], multiset{}) else QueueStopped([3, 1, 4])
  {
    MinHeapBinaryPart3Announced(corrected);
  }

  lemma MinHeapBinaryObserved(corrected: bool)
    ensures Queue(MinFirst, multiset{}, OpsOf(MinHeapBinaryTable), corrected)
         == if corrected then QueueCompleted([3, 3, 1, 4, 5], multiset{}) else QueueStopped([3, 3, 1, 4])
  {
    MinHeapBinaryFollows();
    FollowedTraceIsObserved(MinFirst, multiset{}, MinHeapBinaryTable, corrected);
    MinHeapBinaryPart2Announced(corrected);
  }

  /** The peek and pops return 3, 3, 1, 4, but the final pop of the remaining 5
      faults instead of emptying the heap. */
  lemma MinHeapBinary()
    ensures Run(NewHeap(2, MinFirst), OpsOf(MinHeapBinaryTable), false) == Faulted([3, 3, 1, 4])
  {
    MinHeapBinaryObserved(false);
    FreshRunAgrees(2, MinFirst, OpsOf(MinHeapBinaryTable), false);
  }

  /** With `PopCorrected` the table returns what the test expects, 5 last, and
      leaves the heap empty. */
  lemma MinHeapBinaryCorrected()
    ensures var r := Run(NewHeap(2, MinFirst), OpsOf(MinHeapBinaryTable), true);
            r.Completed? && r.results == [3, 3, 1, 4, 5] && r.heap.heapSize == 0
  {
    MinHeapBinaryObserved(true);
    FreshRunAgrees(2, MinFirst, OpsOf(MinHeapBinaryTable), true);
  }

  /** The multisets the table announces after the pops whose layout it checks. */
  lemma MinHeapBinaryAnnounces()
    ensures Steps(MinHeapBinaryTable) >= 8
    ensures After(multiset{}, MinHeapBinaryTable, 5) == multiset{4, 5}
    ensures After(multiset{}, MinHeapBinaryTable, 7) == multiset{4, 5}
    ensures After(multiset{}, MinHeapBinaryTable, 8) == multiset{5}
  {
  }

  /** After any of its first 8 steps the table leaves a valid, heap-ordered
      state holding the multiset the table announces. */
  lemma MinHeapBinaryHolds(n: nat)
    requires n <= 8
    ensures var r := Run(NewHeap(2, MinFirst), OpsOf(MinHeapBinaryTable)[..n], false);
            r.Completed? && Holds(r.heap, MinFirst, After(multiset{}, MinHeapBinaryTable, n))
  {
    MinHeapBinaryFollows();
    PrefixHolds(2, MinFirst, MinHeapBinaryTable, n, false);
  }

  /** After its first pop the table checks the layout [4, 5] (heap_test.go:33). */
  lemma MinHeapBinaryAfterPop1()
    ensures var r := Run(NewHeap(2, MinFirst), OpsOf(MinHeapBinaryTable)[..5], false);
            r.Completed? && Valid(r.heap) && Live(r.heap) == [4, 5]
  {
    MinHeapBinaryHolds(5);
    MinHeapBinaryAnnounces();
    PairLayout(Run(NewHeap(2, MinFirst), OpsOf(MinHeapBinaryTable)[..5], false).heap, MinFirst, 4, 5);
  }

  /** After its second pop the table checks the layout [4, 5] (heap_test.go:35). */
  lemma MinHeapBinaryAfterPop2()
    ensures var r := Run(NewHeap(2, MinFirst), OpsOf(MinHeapBinaryTable)[..7], false);
            r.Completed? && Valid(r.heap) && Live(r.heap) == [4, 5]
  {
    MinHeapBinaryHolds(7);
    MinHeapBinaryAnnounces();
    PairLayout(Run(NewHeap(2, MinFirst), OpsOf(MinHeapBinaryTable)[..7], false).heap, MinFirst, 4, 5);
  }

  /** After its third pop the table checks the layout [5] (heap_test.go:36). */
  lemma MinHeapBinaryAfterPop3()
    ensures var r := Run(NewHeap(2, MinFirst), OpsOf(MinHeapBinaryTable)[..8], false);
            r.Completed? && Valid(r.heap) && Live(r.heap) == [5]
  {
    MinHeapBinaryHolds(8);
    MinHeapBinaryAnnounces();
    SingleLayout(Run(NewHeap(2, MinFirst), OpsOf(MinHeapBinaryTable)[..8], false).heap, MinFirst, 5);
  }


  /** "MinHeap All elements same" and "MaxHeap All elements same": three equal
      elements in a heap of branching factor 3; both tables compare with
      `a > b`. */
  const AllSameTable: Trace :=
    Then(PushOp(1), multiset{1}, [],
    Then(PushOp(1), multiset{1, 1}, [],
    Then(PushOp(1), multiset{1, 1, 1}, [],
    AllSamePart2)))

  /** The table from step 4 on. */
  const AllSamePart2: Trace :=
    Then(PeekOp, multiset{1, 1, 1}, [1],
    Then(PopOp, multiset{1, 1}, [1],
    Then(PopOp, multiset{1}, [1],
    Done)))

  lemma AllSamePart2Follows()
    ensures Follows(MaxFirst, multiset{1, 1, 1}, AllSamePart2)
  {
  }

  lemma AllSameFollows()
    ensures Follows(MaxFirst, multiset{}, AllSameTable)
  {
    AllSamePart2Follows();
  }

  lemma AllSamePart2Announced()
    ensures Announced(multiset{1, 1, 1}, AllSamePart2, false)
         == QueueCompleted([1, 1, 1], multiset{1})
  {
  }

  lemma AllSameObserved()
    ensures Queue(MaxFirst, multiset{}, OpsOf(AllSameTable), false)
         == QueueCompleted([1, 1, 1], multiset{1})
  {
    AllSameFollows();
    FollowedTraceIsObserved(MaxFirst, multiset{}, AllSameTable, false);
    AllSamePart2Announced();
  }

  /** Every peek and pop returns 1, and one 1 is left. */
  lemma AllSame()
    ensures var r := Run(NewHeap(3, MaxFirst), OpsOf(AllSameTable), false);
            r.Completed? && r.results == [1, 1, 1] && Valid(r.heap) && Live(r.heap) == [1]
  {
    AllSameObserved();
    FreshRunAgrees(3, MaxFirst, OpsOf(AllSameTable), false);
    var r := Run(NewHeap(3, MaxFirst), OpsOf(AllSameTable), false);
    SingleLayout(r.heap, MaxFirst, 1);
  }

  /** The multisets the table announces after the pops whose layout it checks. */
  lemma AllSameAnnounces()
    ensures Steps(AllSameTable) >= 5
    ensures After(multiset{}, AllSameTable, 5) == multiset{1, 1}
  {
  }

  /** After any of its first 6 steps the table leaves a valid, heap-ordered
      state holding the multiset the table announces. */
  lemma AllSameHolds(n: nat)
    requires n <= 6
    ensures var r := Run(NewHeap(3, MaxFirst), OpsOf(AllSameTable)[..n], false);
            r.Completed? && Holds(r.heap, MaxFirst, After(multiset{}, AllSameTable, n))
  {
    AllSameFollows();
    PrefixHolds(3, MaxFirst, AllSameTable, n, false);
  }

  /** After its first pop the table checks the layout [1, 1] (heap_test.go:58). */
  lemma AllSameAfterPop1()
    ensures var r := Run(NewHeap(3, MaxFirst), OpsOf(AllSameTable)[..5], false);
            r.Completed? && Valid(r.heap) && Live(r.heap) == [1, 1]
  {
    AllSameHolds(5);
    AllSameAnnounces();
    PairLayout(Run(NewHeap(3, MaxFirst), OpsOf(AllSameTable)[..5], false).heap, MaxFirst, 1, 1);
  }


  /** "MinHeap Ascending order push". */
  const MinAscendingTable: Trace :=
    Then(PushOp(1), multiset{1}, [],
    Then(PushOp(2), multiset{1, 2}, [],
    Then(PushOp(3), multiset{1, 2, 3}, [],
    MinAscendingPart2)))

  /** The table from step 4 on. */
  const MinAscendingPart2: Trace :=
    Then(PeekOp, multiset{1, 2, 3}, [1],
    Then(PopOp, multiset{2, 3}, [1],
    Done))

  lemma MinAscendingPart2Follows()
    ensures Follows(MinFirst, multiset{1, 2, 3}, MinAscendingPart2)
  {
  }

  lemma MinAscendingFollows()
    ensures Follows(MinFirst, multiset{}, MinAscendingTable)
  {
    MinAscendingPart2Follows();
  }

  lemma MinAscendingPart2Announced()
    ensures Announced(multiset{1, 2, 3}, MinAscendingPart2, false)
         == QueueCompleted([1, 1], multiset{2, 3})
  {
  }

  lemma MinAscendingObserved()
    ensures Queue(MinFirst, multiset{}, OpsOf(MinAscendingTable), false)
         == QueueCompleted([1, 1], multiset{2, 3})
  {
    MinAscendingFollows();
    FollowedTraceIsObserved(MinFirst, multiset{}, MinAscendingTable, false);
    MinAscendingPart2Announced();
  }

  /** The peek and the pop return 1 and leave the heap [2, 3]. */
  lemma MinAscending()
    ensures var r := Run(NewHeap(2, MinFirst), OpsOf(MinAscendingTable), false);
            r.Completed? && r.results == [1, 1] && Valid(r.heap) && Live(r.heap) == [2, 3]
  {
    MinAscendingObserved();
    FreshRunAgrees(2, MinFirst, OpsOf(MinAscendingTable), false);
    var r := Run(NewHeap(2, MinFirst), OpsOf(MinAscendingTable), false);
    PairLayout(r.heap, MinFirst, 2, 3);
  }

  /** "MinHeap Descending order push". */
  const MinDescendingTable: Trace :=
    Then(PushOp(3), multiset{3}, [],
    Then(PushOp(2), multiset{3, 2}, [],
    Then(PushOp(1), multiset{3, 2, 1}, [],
    MinDescendingPart2)))

  /** The table from step 4 on. */
  const MinDescendingPart2: Trace :=
    Then(PeekOp, multiset{3, 2, 1}, [1],
    Then(PopOp, multiset{3, 2}, [1],
    Done))

  lemma MinDescendingPart2Follows()
    ensures Follows(MinFirst, multiset{3, 2, 1}, MinDescendingPart2)
  {
  }

  lemma MinDescendingFollows()
    ensures Follows(MinFirst, multiset{}, MinDescendingTable)
  {
    MinDescendingPart2Follows();
  }

  lemma MinDescendingPart2Announced()
    ensures Announced(multiset{3, 2, 1}, MinDescendingPart2, false)
         == QueueCompleted([1, 1], multiset{3, 2})
  {
  }

  lemma MinDescendingObserved()
    ensures Queue(MinFirst, multiset{}, OpsOf(MinDescendingTable), false)
         == QueueCompleted([1, 1], multiset{3, 2})
  {
    MinDescendingFollows();
    FollowedTraceIsObserved(MinFirst, multiset{}, MinDescendingTable, false);
    MinDescendingPart2Announced();
  }

  /** The peek and the pop return 1 and leave the heap [2, 3]. */
  lemma MinDescending()
    ensures var r := Run(NewHeap(2, MinFirst), OpsOf(MinDescendingTable), false);
            r.Completed? && r.results == [1, 1] && Valid(r.heap) && Live(r.heap) == [2, 3]
  {
    MinDescendingObserved();
    FreshRunAgrees(2, MinFirst, OpsOf(MinDescendingTable), false);
    var r := Run(NewHeap(2, MinFirst), OpsOf(MinDescendingTable), false);
    PairLayout(r.heap, MinFirst, 2, 3);
  }

  /** "MinHeap Higher branching factor": a min-heap of branching factor 4. */
  const MinHeapQuaternaryTable: Trace :=
    Then(PushOp(5), multiset{5}, [],
    Then(PushOp(3), multiset{5, 3}, [],
    Then(PushOp(4), multiset{5, 3, 4}, [],
    MinHeapQuaternaryPart2)))

  /** The table from step 4 on. */
  const MinHeapQuaternaryPart2: Trace :=
    Then(PushOp(1), multiset{5, 3, 4, 1}, [],
    Then(PeekOp, multiset{5, 3, 4, 1}, [1],
    Then(PopOp, multiset{5, 3, 4}, [1],
    MinHeapQuaternaryPart3)))

  /** The table from step 7 on. */
  const MinHeapQuaternaryPart3: Trace :=
    Then(PopOp, multiset{5, 4}, [3],
    Then(PushOp(4), multiset{5, 4, 4}, [],
    Then(PopOp, multiset{5, 4}, [4],
    MinHeapQuaternaryPart4)))

  /** The table from step 10 on. */
  const MinHeapQuaternaryPart4: Trace :=
    Then(PopOp, multiset{5}, [4],
    LastPop(5))

  lemma MinHeapQuaternaryPart4Follows()
    ensures Follows(MinFirst, multiset{5, 4}, MinHeapQuaternaryPart4)
  {
  }

  lemma MinHeapQuaternaryPart3Follows()
    ensures Follows(MinFirst, multiset{5, 3, 4}, MinHeapQuaternaryPart3)
  {
    MinHeapQuaternaryPart4Follows();
  }

  lemma MinHeapQuaternaryPart2Follows()
    ensures Follows(MinFirst, multiset{5, 3, 4}, MinHeapQuaternaryPart2)
  {
    MinHeapQuaternaryPart3Follows();
  }

  lemma MinHeapQuaternaryFollows()
    ensures Follows(MinFirst, multiset{}, MinHeapQuaternaryTable)
  {
    MinHeapQuaternaryPart2Follows();
  }

  lemma MinHeapQuaternaryPart4Announced(corrected: bool)
    ensures Announced(multiset{5, 4}, MinHeapQuaternaryPart4, corrected)
         == if corrected then QueueCompleted([4, 5], multiset{}) else QueueStopped([4])
  {
  }

  lemma MinHeapQuaternaryPart3Announced(corrected: bool)
    ensures Announced(multiset{5, 3, 4}, MinHeapQuaternaryPart3, corrected)
         == if corrected then QueueCompleted([3, 4, 4, 5], multiset{}) else QueueStopped([3, 4, 4])
  {
    MinHeapQuaternaryPart4Announced(corrected);
  }

  lemma MinHeapQuaternaryPart2Announced(corrected: bool)
    ensures Announced(multiset{5, 3, 4}, MinHeapQuaternaryPart2, corrected)
         == if corrected then QueueCompleted([1, 1, 3, 4, 4, 5], multiset{}) else QueueStopped([1, 1, 3, 4, 4])
  {
    MinHeapQuaternaryPart3Announced(corrected);
  }

  lemma MinHeapQuaternaryObserved(corrected: bool)
    ensures Queue(MinFirst, multiset{}, OpsOf(MinHeapQuaternaryTable), corrected)
         == if corrected then QueueCompleted([1, 1, 3, 4, 4, 5], multiset{}) else QueueStopped([1, 1, 3, 4, 4])
  {
    MinHeapQuaternaryFollows();
    FollowedTraceIsObserved(MinFirst, multiset{}, MinHeapQuaternaryTable, corrected);
    MinHeapQuaternaryPart2Announced(corrected);
  }

  /** The peek and pops return 1, 1, 3, 4, 4, but the final pop of the remaining
      5 faults. */
  lemma MinHeapQuaternary()
    ensures Run(NewHeap(4, MinFirst), OpsOf(MinHeapQuaternaryTable), false) == Faulted([1, 1, 3, 4, 4])
  {
    MinHeapQuaternaryObserved(false);
    FreshRunAgrees(4, MinFirst, OpsOf(MinHeapQuaternaryTable), false);
  }

  /** With `PopCorrected` the table returns 5 last, as the test expects, and
      leaves the heap empty. */
  lemma MinHeapQuaternaryCorrected()
    ensures var r := Run(NewHeap(4, MinFirst), OpsOf(MinHeapQuaternaryTable), true);
            r.Completed? && r.results == [1, 1, 3, 4, 4, 5] && r.heap.heapSize == 0
  {
    MinHeapQuaternaryObserved(true);
    FreshRunAgrees(4, MinFirst, OpsOf(MinHeapQuaternaryTable), true);
  }

  /** The multisets the table announces after the pops whose layout it checks. */
  lemma MinHeapQuaternaryAnnounces()
    ensures Steps(MinHeapQuaternaryTable) >= 10
    ensures After(multiset{}, MinHeapQuaternaryTable, 7) == multiset{4, 5}
    ensures After(multiset{}, MinHeapQuaternaryTable, 9) == multiset{4, 5}
    ensures After(multiset{}, MinHeapQuaternaryTable, 10) == multiset{5}
  {
  }

  /** After any of its first 10 steps the table leaves a valid, heap-ordered
      state holding the multiset the table announces. */
  lemma MinHeapQuaternaryHolds(n: nat)
    requires n <= 10
    ensures var r := Run(NewHeap(4, MinFirst), OpsOf(MinHeapQuaternaryTable)[..n], false);
            r.Completed? && Holds(r.heap, MinFirst, After(multiset{}, MinHeapQuaternaryTable, n))
  {
    MinHeapQuaternaryFollows();
    PrefixHolds(4, MinFirst, MinHeapQuaternaryTable, n, false);
  }

  /** After its second pop the table checks the layout [4, 5] (heap_test.go:97). */
  lemma MinHeapQuaternaryAfterPop2()
    ensures var r := Run(NewHeap(4, MinFirst), OpsOf(MinHeapQuaternaryTable)[..7], false);
            r.Completed? && Valid(r.heap) && Live(r.heap) == [4, 5]
  {
    MinHeapQuaternaryHolds(7);
    MinHeapQuaternaryAnnounces();
    PairLayout(Run(NewHeap(4, MinFirst), OpsOf(MinHeapQuaternaryTable)[..7], false).heap, MinFirst, 4, 5);
  }

  /** After its third pop the table checks the layout [4, 5] (heap_test.go:99). */
  lemma MinHeapQuaternaryAfterPop3()
    ensures var r := Run(NewHeap(4, MinFirst), OpsOf(MinHeapQuaternaryTable)[..9], false);
            r.Completed? && Valid(r.heap) && Live(r.heap) == [4, 5]
  {
    MinHeapQuaternaryHolds(9);
    MinHeapQuaternaryAnnounces();
    PairLayout(Run(NewHeap(4, MinFirst), OpsOf(MinHeapQuaternaryTable)[..9], false).heap, MinFirst, 4, 5);
  }

  /** After its fourth pop the table checks the layout [5] (heap_test.go:100). */
  lemma MinHeapQuaternaryAfterPop4()
    ensures var r := Run(NewHeap(4, MinFirst), OpsOf(MinHeapQuaternaryTable)[..10], false);
            r.Completed? && Valid(r.heap) && Live(r.heap) == [5]
  {
    MinHeapQuaternaryHolds(10);
    MinHeapQuaternaryAnnounces();
    SingleLayout(Run(NewHeap(4, MinFirst), OpsOf(MinHeapQuaternaryTable)[..10], false).heap, MinFirst, 5);
  }


  /** "MaxHeap with d=2": a max-heap of branching factor 2. */
  const MaxHeapBinaryTable: Trace :=
    Then(PushOp(5), multiset{5}, [],
    Then(PushOp(3), multiset{5, 3}, [],
    Then(PeekOp, multiset{5, 3}, [5],
    MaxHeapBinaryPart2)))

  /** The table from step 4 on. */
  const MaxHeapBinaryPart2: Trace :=
    Then(PushOp(4), multiset{5, 3, 4}, [],
    Then(PopOp, multiset{3, 4}, [5],
    Then(PushOp(1), multiset{3, 4, 1}, [],
    MaxHeapBinaryPart3)))

  /** The table from step 7 on. */
  const MaxHeapBinaryPart3: Trace :=
    Then(PopOp, multiset{3, 1}, [4],
    Then(PopOp, multiset{1}, [3],
    LastPop(1)))

  lemma MaxHeapBinaryPart3Follows()
    ensures Follows(MaxFirst, multiset{3, 4, 1}, MaxHeapBinaryPart3)
  {
  }

  lemma MaxHeapBinaryPart2Follows()
    ensures Follows(MaxFirst, multiset{5, 3}, MaxHeapBinaryPart2)
  {
    MaxHeapBinaryPart3Follows();
  }

  lemma MaxHeapBinaryFollows()
    ensures Follows(MaxFirst, multiset{}, MaxHeapBinaryTable)
  {
    MaxHeapBinaryPart2Follows();
  }

  lemma MaxHeapBinaryPart3Announced(corrected: bool)
    ensures Announced(multiset{3, 4, 1}, MaxHeapBinaryPart3, corrected)
         == if corrected then QueueCompleted([4, 3, 1], multiset{}) else QueueStopped([4, 3])
  {
  }

  lemma MaxHeapBinaryPart2Announced(corrected: bool)
    ensures Announced(multiset{5, 3}, MaxHeapBinaryPart2, corrected)
         == if corrected then QueueCompleted([5, 4, 3, 1], multiset{}) else QueueStopped([5, 4, 3])
  {
    MaxHeapBinaryPart3Announced(corrected);
  }

  lemma MaxHeapBinaryObserved(corrected: bool)
    ensures Queue(MaxFirst, multiset{}, OpsOf(MaxHeapBinaryTable), corrected)
         == if corrected then QueueCompleted([5, 5, 4, 3, 1], multiset{}) else QueueStopped([5, 5, 4, 3])
  {
    MaxHeapBinaryFollows();
    FollowedTraceIsObserved(MaxFirst, multiset{}, MaxHeapBinaryTable, corrected);
    MaxHeapBinaryPart2Announced(corrected);
  }

  /** The peek and pops return 5, 5, 4, 3, but the final pop of the remaining 1
      faults. */
  lemma MaxHeapBinary()
    ensures Run(NewHeap(2, MaxFirst), OpsOf(MaxHeapBinaryTable), false) == Faulted([5, 5, 4, 3])
  {
    MaxHeapBinaryObserved(false);
    FreshRunAgrees(2, MaxFirst, OpsOf(MaxHeapBinaryTable), false);
  }

  /** With `PopCorrected` the table returns 1 last, as the test expects, and
      leaves the heap empty. */
  lemma MaxHeapBinaryCorrected()
    ensures var r := Run(NewHeap(2, MaxFirst), OpsOf(MaxHeapBinaryTable), true);
            r.Completed? && r.results == [5, 5, 4, 3, 1] && r.heap.heapSize == 0
  {
    MaxHeapBinaryObserved(true);
    FreshRunAgrees(2, MaxFirst, OpsOf(MaxHeapBinaryTable), true);
  }

  /** The multisets the table announces after the pops whose layout it checks. */
  lemma MaxHeapBinaryAnnounces()
    ensures Steps(MaxHeapBinaryTable) >= 8
    ensures After(multiset{}, MaxHeapBinaryTable, 5) == multiset{4, 3}
    ensures After(multiset{}, MaxHeapBinaryTable, 7) == multiset{3, 1}
    ensures After(multiset{}, MaxHeapBinaryTable, 8) == multiset{1}
  {
  }

  /** After any of its first 8 steps the table leaves a valid, heap-ordered
      state holding the multiset the table announces. */
  lemma MaxHeapBinaryHolds(n: nat)
    requires n <= 8
    ensures var r := Run(NewHeap(2, MaxFirst), OpsOf(MaxHeapBinaryTable)[..n], false);
            r.Completed? && Holds(r.heap, MaxFirst, After(multiset{}, MaxHeapBinaryTable, n))
  {
    MaxHeapBinaryFollows();
    PrefixHolds(2, MaxFirst, MaxHeapBinaryTable, n, false);
  }

  /** After its first pop the table checks the layout [4, 3] (heap_test.go:113). */
  lemma MaxHeapBinaryAfterPop1()
    ensures var r := Run(NewHeap(2, MaxFirst), OpsOf(MaxHeapBinaryTable)[..5], false);
            r.Completed? && Valid(r.heap) && Live(r.heap) == [4, 3]
  {
    MaxHeapBinaryHolds(5);
    MaxHeapBinaryAnnounces();
    PairLayout(Run(NewHeap(2, MaxFirst), OpsOf(MaxHeapBinaryTable)[..5], false).heap, MaxFirst, 4, 3);
  }

  /** After its second pop the table checks the layout [3, 1] (heap_test.go:115). */
  lemma MaxHeapBinaryAfterPop2()
    ensures var r := Run(NewHeap(2, MaxFirst), OpsOf(MaxHeapBinaryTable)[..7], false);
            r.Completed? && Valid(r.heap) && Live(r.heap) == [3, 1]
  {
    MaxHeapBinaryHolds(7);
    MaxHeapBinaryAnnounces();
    PairLayout(Run(NewHeap(2, MaxFirst), OpsOf(MaxHeapBinaryTable)[..7], false).heap, MaxFirst, 3, 1);
  }

  /** After its third pop the table checks the layout [1] (heap_test.go:116). */
  lemma MaxHeapBinaryAfterPop3()
    ensures var r := Run(NewHeap(2, MaxFirst), OpsOf(MaxHeapBinaryTable)[..8], false);
            r.Completed? && Valid(r.heap) && Live(r.heap) == [1]
  {
    MaxHeapBinaryHolds(8);
    MaxHeapBinaryAnnounces();
    SingleLayout(Run(NewHeap(2, MaxFirst), OpsOf(MaxHeapBinaryTable)[..8], false).heap, MaxFirst, 1);
  }


  /** "MaxHeap Ascending order push". */
  const MaxAscendingTable: Trace :=
    Then(PushOp(1), multiset{1}, [],
    Then(PushOp(2), multiset{1, 2}, [],
    Then(PushOp(3), multiset{1, 2, 3}, [],
    MaxAscendingPart2)))

  /** The table from step 4 on. */
  const MaxAscendingPart2: Trace :=
    Then(PeekOp, multiset{1, 2, 3}, [3],
    Then(PopOp, multiset{1, 2}, [3],
    Done))

  lemma MaxAscendingPart2Follows()
    ensures Follows(MaxFirst, multiset{1, 2, 3}, MaxAscendingPart2)
  {
  }

  lemma MaxAscendingFollows()
    ensures Follows(MaxFirst, multiset{}, MaxAscendingTable)
  {
    MaxAscendingPart2Follows();
  }

  lemma MaxAscendingPart2Announced()
    ensures Announced(multiset{1, 2, 3}, MaxAscendingPart2, false)
         == QueueCompleted([3, 3], multiset{1, 2})
  {
  }

  lemma MaxAscendingObserved()
    ensures Queue(MaxFirst, multiset{}, OpsOf(MaxAscendingTable), false)
         == QueueCompleted([3, 3], multiset{1, 2})
  {
    MaxAscendingFollows();
    FollowedTraceIsObserved(MaxFirst, multiset{}, MaxAscendingTable, false);
    MaxAscendingPart2Announced();
  }

  /** The peek and the pop return 3 and leave the heap [2, 1]. */
  lemma MaxAscending()
    ensures var r := Run(NewHeap(2, MaxFirst), OpsOf(MaxAscendingTable), false);
            r.Completed? && r.results == [3, 3] && Valid(r.heap) && Live(r.heap) == [2, 1]
  {
    MaxAscendingObserved();
    FreshRunAgrees(2, MaxFirst, OpsOf(MaxAscendingTable), false);
    var r := Run(NewHeap(2, MaxFirst), OpsOf(MaxAscendingTable), false);
    PairLayout(r.heap, MaxFirst, 2, 1);
  }

  /** "MaxHeap Descending order push". */
  const MaxDescendingTable: Trace :=
    Then(PushOp(3), multiset{3}, [],
    Then(PushOp(2), multiset{3, 2}, [],
    Then(PushOp(1), multiset{3, 2, 1}, [],
    MaxDescendingPart2)))

  /** The table from step 4 on. */
  const MaxDescendingPart2: Trace :=
    Then(PeekOp, multiset{3, 2, 1}, [3],
    Then(PopOp, multiset{2, 1}, [3],
    Done))

  lemma MaxDescendingPart2Follows()
    ensures Follows(MaxFirst, multiset{3, 2, 1}, MaxDescendingPart2)
  {
  }

  lemma MaxDescendingFollows()
    ensures Follows(MaxFirst, multiset{}, MaxDescendingTable)
  {
    MaxDescendingPart2Follows();
  }

  lemma MaxDescendingPart2Announced()
    ensures Announced(multiset{3, 2, 1}, MaxDescendingPart2, false)
         == QueueCompleted([3, 3], multiset{2, 1})
  {
  }

  lemma MaxDescendingObserved()
    ensures Queue(MaxFirst, multiset{}, OpsOf(MaxDescendingTable), false)
         == QueueCompleted([3, 3], multiset{2, 1})
  {
    MaxDescendingFollows();
    FollowedTraceIsObserved(MaxFirst, multiset{}, MaxDescendingTable, false);
    MaxDescendingPart2Announced();
  }

  /** The peek and the pop return 3 and leave the heap [2, 1]. */
  lemma MaxDescending()
    ensures var r := Run(NewHeap(2, MaxFirst), OpsOf(MaxDescendingTable), false);
            r.Completed? && r.results == [3, 3] && Valid(r.heap) && Live(r.heap) == [2, 1]
  {
    MaxDescendingObserved();
    FreshRunAgrees(2, MaxFirst, OpsOf(MaxDescendingTable), false);
    var r := Run(NewHeap(2, MaxFirst), OpsOf(MaxDescendingTable), false);
    PairLayout(r.heap, MaxFirst, 2, 1);
  }

  /** "MaxHeap Higher branching factor": a max-heap of branching factor 4. */
  const MaxHeapQuaternaryTable: Trace :=
    Then(PushOp(5), multiset{5}, [],
    Then(PushOp(3), multiset{5, 3}, [],
    Then(PushOp(4), multiset{5, 3, 4}, [],
    MaxHeapQuaternaryPart2)))

  /** The table from step 4 on. */
  const MaxHeapQuaternaryPart2: Trace :=
    Then(PushOp(1), multiset{5, 3, 4, 1}, [],
    Then(PeekOp, multiset{5, 3, 4, 1}, [5],
    Then(PopOp, multiset{3, 4, 1}, [5],
    MaxHeapQuaternaryPart3)))

  /** The table from step 7 on. */
  const MaxHeapQuaternaryPart3: Trace :=
    Then(PopOp, multiset{3, 1}, [4],
    Then(PushOp(4), multiset{3, 1, 4}, [],
    Then(PopOp, multiset{3, 1}, [4],
    MaxHeapQuaternaryPart4)))

  /** The table from step 10 on. */
  const MaxHeapQuaternaryPart4: Trace :=
    Then(PopOp, multiset{1}, [3],
    LastPop(1))

  lemma MaxHeapQuaternaryPart4Follows()
    ensures Follows(MaxFirst, multiset{3, 1}, MaxHeapQuaternaryPart4)
  {
  }

  lemma MaxHeapQuaternaryPart3Follows()
    ensures Follows(MaxFirst, multiset{3, 4, 1}, MaxHeapQuaternaryPart3)
  {
    MaxHeapQuaternaryPart4Follows();
  }

  lemma MaxHeapQuaternaryPart2Follows()
    ensures Follows(MaxFirst, multiset{5, 3, 4}, MaxHeapQuaternaryPart2)
  {
    MaxHeapQuaternaryPart3Follows();
  }

  lemma MaxHeapQuaternaryFollows()
    ensures Follows(MaxFirst, multiset{}, MaxHeapQuaternaryTable)
  {
    MaxHeapQuaternaryPart2Follows();
  }

  lemma MaxHeapQuaternaryPart4Announced(corrected: bool)
    ensures Announced(multiset{3, 1}, MaxHeapQuaternaryPart4, corrected)
         == if corrected then QueueCompleted([3, 1], multiset{}) else QueueStopped([3])
  {
  }

  lemma MaxHeapQuaternaryPart3Announced(corrected: bool)
    ensures Announced(multiset{3, 4, 1}, MaxHeapQuaternaryPart3, corrected)
         == if corrected then QueueCompleted([4, 4, 3, 1], multiset{}) else QueueStopped([4, 4, 3])
  {
    MaxHeapQuaternaryPart4Announced(corrected);
  }

  lemma MaxHeapQuaternaryPart2Announced(corrected: bool)
    ensures Announced(multiset{5, 3, 4}, MaxHeapQuaternaryPart2, corrected)
         == if corrected then QueueCompleted([5, 5, 4, 4, 3, 1], multiset{}) else QueueStopped([5, 5, 4, 4, 3])
  {
    MaxHeapQuaternaryPart3Announced(corrected);
  }

  lemma MaxHeapQuaternaryObserved(corrected: bool)
    ensures Queue(MaxFirst, multiset{}, OpsOf(MaxHeapQuaternaryTable), corrected)
         == if corrected then QueueCompleted([5, 5, 4, 4, 3, 1], multiset{}) else QueueStopped([5, 5, 4, 4, 3])
  {
    MaxHeapQuaternaryFollows();
    FollowedTraceIsObserved(MaxFirst, multiset{}, MaxHeapQuaternaryTable, corrected);
    MaxHeapQuaternaryPart2Announced(corrected);
  }

  /** The peek and pops return 5, 5, 4, 4, 3, but the final pop of the remaining
      1 faults. */
  lemma MaxHeapQuaternary()
    ensures Run(NewHeap(4, MaxFirst), OpsOf(MaxHeapQuaternaryTable), false) == Faulted([5, 5, 4, 4, 3])
  {
    MaxHeapQuaternaryObserved(false);
    FreshRunAgrees(4, MaxFirst, OpsOf(MaxHeapQuaternaryTable), false);
  }

  /** With `PopCorrected` the table returns 1 last, as the test expects, and
      leaves the heap empty. */
  lemma MaxHeapQuaternaryCorrected()
    ensures var r := Run(NewHeap(4, MaxFirst), OpsOf(MaxHeapQuaternaryTable), true);
            r.Completed? && r.results == [5, 5, 4, 4, 3, 1] && r.heap.heapSize == 0
  {
    MaxHeapQuaternaryObserved(true);
    FreshRunAgrees(4, MaxFirst, OpsOf(MaxHeapQuaternaryTable), true);
  }

  /** The multisets the table announces after the pops whose layout it checks. */
  lemma MaxHeapQuaternaryAnnounces()
    ensures Steps(MaxHeapQuaternaryTable) >= 10
    ensures After(multiset{}, MaxHeapQuaternaryTable, 7) == multiset{3, 1}
    ensures After(multiset{}, MaxHeapQuaternaryTable, 9) == multiset{3, 1}
    ensures After(multiset{}, MaxHeapQuaternaryTable, 10) == multiset{1}
  {
  }

  /** After any of its first 10 steps the table leaves a valid, heap-ordered
      state holding the multiset the table announces. */
  lemma MaxHeapQuaternaryHolds(n: nat)
    requires n <= 10
    ensures var r := Run(NewHeap(4, MaxFirst), OpsOf(MaxHeapQuaternaryTable)[..n], false);
            r.Completed? && Holds(r.heap, MaxFirst, After(multiset{}, MaxHeapQuaternaryTable, n))
  {
    MaxHeapQuaternaryFollows();
    PrefixHolds(4, MaxFirst, MaxHeapQuaternaryTable, n, false);
  }

  /** After its second pop the table checks the layout [3, 1] (heap_test.go:173). */
  lemma MaxHeapQuaternaryAfterPop2()
    ensures var r := Run(NewHeap(4, MaxFirst), OpsOf(MaxHeapQuaternaryTable)[..7], false);
            r.Completed? && Valid(r.heap) && Live(r.heap) == [3, 1]
  {
    MaxHeapQuaternaryHolds(7);
    MaxHeapQuaternaryAnnounces();
    PairLayout(Run(NewHeap(4, MaxFirst), OpsOf(MaxHeapQuaternaryTable)[..7], false).heap, MaxFirst, 3, 1);
  }

  /** After its third pop the table checks the layout [3, 1] (heap_test.go:175). */
  lemma MaxHeapQuaternaryAfterPop3()
    ensures var r := Run(NewHeap(4, MaxFirst), OpsOf(MaxHeapQuaternaryTable)[..9], false);
            r.Completed? && Valid(r.heap) && Live(r.heap) == [3, 1]
  {
    MaxHeapQuaternaryHolds(9);
    MaxHeapQuaternaryAnnounces();
    PairLayout(Run(NewHeap(4, MaxFirst), OpsOf(MaxHeapQuaternaryTable)[..9], false).heap, MaxFirst, 3, 1);
  }

  /** After its fourth pop the table checks the layout [1] (heap_test.go:176). */
  lemma MaxHeapQuaternaryAfterPop4()
    ensures var r := Run(NewHeap(4, MaxFirst), OpsOf(MaxHeapQuaternaryTable)[..10], false);
            r.Completed? && Valid(r.heap) && Live(r.heap) == [1]
  {
    MaxHeapQuaternaryHolds(10);
    MaxHeapQuaternaryAnnounces();
    SingleLayout(Run(NewHeap(4, MaxFirst), OpsOf(MaxHeapQuaternaryTable)[..10], false).heap, MaxFirst, 1);
  }


  /** "MinHeap Single element" and "MaxHeap Single element", for any
      branching factor, order and value: the peek returns the value, the pop
      as written faults, and `PopCorrected` returns it and empties the heap,
      as the tests expect. */
  lemma SingleElement(d: int, o: Order, v: int)
    requires d >= 1
    ensures Peek(Push(NewHeap(d, o), v)) == v
    ensures Pop(Push(NewHeap(d, o), v)) == IndexFault
    ensures PopCorrected(Push(NewHeap(d, o), v)).0 == v
    ensures PopCorrected(Push(NewHeap(d, o), v)).1.heapSize == 0
  {
    var h := Push(NewHeap(d, o), v);
    assert multiset(Live(h)) == multiset{v};
    SingleLayout(h, o, v);
    assert h.data[0] == Live(h)[0];
  }

  /** "MaxHeap Pop from empty heap" and "MaxHeap Peek into empty heap", for
      any branching factor and order: both return the zero value and leave
      the heap empty. */
  lemma EmptyHeap(d: int, o: Order)
    requires d >= 1
    ensures Run(NewHeap(d, o), [PopOp], false) == Completed([0], NewHeap(d, o))
    ensures Run(NewHeap(d, o), [PeekOp], false) == Completed([0], NewHeap(d, o))
  {
    assert [PopOp][1..] == [] && [PeekOp][1..] == [];
  }
}
