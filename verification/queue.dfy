/** The heap as a priority queue: a table of operations run against a heap
    agrees with the same table run against a bare multiset that hands out an
    extremal element on each pop. This is the abstract reading of `Push`,
    `Pop` and `Peek` the Go tests check case by case. */
module PriorityQueue {
  import opened Ordering
  import opened HeapState
  import opened DaryHeap

  /** A heap-ordered valid state under order `o` whose live elements are
      the multiset `m`. */
  ghost predicate Holds(h: Heap, o: Order, m: multiset<int>)
  {
    Valid(h) && HeapOrdered(h) && h.order == o && multiset(Live(h)) == m
  }

  /** `x` is an element of `m` that nothing in `m` is strictly `Less` than. */
  ghost predicate IsExtremal(o: Order, m: multiset<int>, x: int)
  {
    x in m && forall e :: e in m ==> !Less(o, e, x)
  }

  /** Every non-empty multiset has an extremal element. */
  lemma {:induction false} ExtremalExists(o: Order, m: multiset<int>)
    requires |m| >= 1
    ensures exists x :: IsExtremal(o, m, x)
    decreases |m|
  {
    if forall e :: e !in m {
      assert false;
    }
    var y :| y in m;
    var rest := m - multiset{y};
    if |rest| == 0 {
      assert m == multiset{y};
      assert IsExtremal(o, m, y);
    } else {
      ExtremalExists(o, rest);
      var z :| IsExtremal(o, rest, z);
      var x := if Less(o, y, z) then y else z;
      forall e | e in m
        ensures !Less(o, e, x)
      {
        LessIsStrictTotal(o, e, y, z);
        LessIsStrictTotal(o, e, z, y);
        if e != y {
          assert e in rest;
        } else if x != y {
          assert !Less(o, y, z);
        }
      }
      assert IsExtremal(o, m, x);
    }
  }

  /** The extremal element of a non-empty multiset; under a strict total
      order it is unique. */
  ghost function Extremal(o: Order, m: multiset<int>): (x: int)
    requires |m| >= 1
    ensures IsExtremal(o, m, x)
    ensures forall y :: IsExtremal(o, m, y) ==> y == x
  {
    ExtremalExists(o, m);
    var x :| IsExtremal(o, m, x);
    ExtremalIsUnique(o, m, x);
    x
  }

  /** Two extremal elements of the same multiset are equal. */
  lemma ExtremalIsUnique(o: Order, m: multiset<int>, x: int)
    requires IsExtremal(o, m, x)
    ensures forall y :: IsExtremal(o, m, y) ==> y == x
  {
    forall y | IsExtremal(o, m, y)
      ensures y == x
    {
      LessIsStrictTotal(o, x, y, y);
    }
  }

  /** One step of a test table: push a value, pop, or peek. */
  datatype Op = PushOp(v: int) | PopOp | PeekOp

  /** What running a table against a heap observes: the values `Pop` and
      `Peek` returned, in order, and either the final state or the fault that
      stopped the run. */
  datatype Outcome = Completed(results: seq<int>, heap: Heap) | Faulted(results: seq<int>)

  /** Puts a value in front of a run's results. */
  function Record(v: int, o: Outcome): Outcome
  {
    match o
    case Completed(rs, h) => Completed([v] + rs, h)
    case Faulted(rs) => Faulted([v] + rs)
  }

  /** Runs a table of operations against one heap, as the Go test driver
      does: every `Pop` and `Peek` result is recorded, and a fault ends the
      run. `corrected` selects `PopCorrected` instead of `Pop`. */
  function Run(h: Heap, ops: seq<Op>, corrected: bool): Outcome
    requires Valid(h)
    decreases |ops|
  {
    if ops == [] then Completed([], h)
    else match ops[0]
      case PushOp(v) => Run(Push(h, v), ops[1..], corrected)
      case PeekOp => Record(Peek(h), Run(h, ops[1..], corrected))
      case PopOp =>
        if corrected then
          var (v, next) := PopCorrected(h);
          Record(v, Run(next, ops[1..], corrected))
        else
          match Pop(h)
          case IndexFault => Faulted([])
          case Popped(v, next) => Record(v, Run(next, ops[1..], corrected))
  }

  /** The driver records at most one result per operation, never stops
      early with the corrected pop, and a completed run ends in a valid
      state. */
  lemma {:induction false} RunShape(h: Heap, ops: seq<Op>, corrected: bool)
    requires Valid(h)
    ensures var r := Run(h, ops, corrected);
            |r.results| <= |ops| && (corrected ==> r.Completed?) && (r.Completed? ==> Valid(r.heap))
    decreases |ops|
  {
    if ops != [] {
      match ops[0]
      case PushOp(v) =>
        RunShape(Push(h, v), ops[1..], corrected);
      case PeekOp =>
        RunShape(h, ops[1..], corrected);
      case PopOp =>
        if corrected {
          RunShape(PopCorrected(h).1, ops[1..], corrected);
        } else if Pop(h).Popped? {
          RunShape(Pop(h).heap, ops[1..], corrected);
        }
    }
  }

  /** What the same table observes against a bare multiset. */
  datatype QueueOutcome = QueueCompleted(results: seq<int>, rest: multiset<int>) | QueueStopped(results: seq<int>)

  /** Puts a value in front of a queue run's results. */
  function QueueRecord(v: int, q: QueueOutcome): QueueOutcome
  {
    match q
    case QueueCompleted(rs, m) => QueueCompleted([v] + rs, m)
    case QueueStopped(rs) => QueueStopped([v] + rs)
  }

  /** The reference priority queue: a push adds one copy, a peek reports and
      a pop removes an extremal element, and both report the zero value when
      the queue is empty. Unless `corrected`, a pop of the last element stops
      the run, where the Go `Pop` faults. */
  ghost function Queue(o: Order, m: multiset<int>, ops: seq<Op>, corrected: bool): QueueOutcome
    decreases |ops|
  {
    if ops == [] then QueueCompleted([], m)
    else match ops[0]
      case PushOp(v) => Queue(o, m + multiset{v}, ops[1..], corrected)
      case PeekOp => QueueRecord(if |m| == 0 then 0 else Extremal(o, m), Queue(o, m, ops[1..], corrected))
      case PopOp =>
        if |m| == 0 then QueueRecord(0, Queue(o, m, ops[1..], corrected))
        else if |m| == 1 && !corrected then QueueStopped([])
        else
          var x := Extremal(o, m);
          QueueRecord(x, Queue(o, m - multiset{x}, ops[1..], corrected))
  }

  /** A heap run and a queue run agree: the same results, the same way of
      ending, and a final heap that is valid, heap-ordered and holds the
      queue's final multiset. */
  ghost predicate Agree(r: Outcome, q: QueueOutcome, o: Order)
  {
    match r
    case Completed(rs, h) => q.QueueCompleted? && rs == q.results && Holds(h, o, q.rest)
    case Faulted(rs) => q.QueueStopped? && rs == q.results
  }

  /** Recording the same value in front keeps two runs in agreement. */
  lemma RecordAgrees(v: int, r: Outcome, q: QueueOutcome, o: Order)
    requires Agree(r, q, o)
    ensures Agree(Record(v, r), QueueRecord(v, q), o)
  {
  }

  /** On a heap-ordered state, `Peek` returns the extremal live value. */
  lemma PeekIsExtremal(h: Heap, o: Order, m: multiset<int>)
    requires Holds(h, o, m) && |m| >= 1
    ensures Peek(h) == Extremal(o, m)
  {
    assert |Live(h)| == |m|;
    var v := Peek(h);
    assert v in Live(h);
  }

  /** `Pop` on a heap of two or more elements removes the extremal value. */
  lemma PopIsExtremal(h: Heap, o: Order, m: multiset<int>)
    requires Holds(h, o, m) && |m| >= 2
    ensures Pop(h).Popped? && Pop(h).value == Extremal(o, m)
    ensures Holds(Pop(h).heap, o, m - multiset{Extremal(o, m)})
  {
    var v := Pop(h).value;
    assert Live(h)[0] == h.data[0] == v;
    ExtremalIsUnique(o, m, v);
  }

  /** `PopCorrected` on a non-empty heap removes the extremal value. */
  lemma PopCorrectedIsExtremal(h: Heap, o: Order, m: multiset<int>)
    requires Holds(h, o, m) && |m| >= 1
    ensures PopCorrected(h).0 == Extremal(o, m)
    ensures Holds(PopCorrected(h).1, o, m - multiset{Extremal(o, m)})
  {
    var v := PopCorrected(h).0;
    assert Live(h)[0] == h.data[0] == v;
    ExtremalIsUnique(o, m, v);
  }

  /** The heap refines the reference priority queue: every table, run from a
      valid heap-ordered state, observes what the queue observes from its
      multiset of live elements, with `Pop` as written stopping exactly where
      the queue pops its last element and with `PopCorrected` never
      stopping. */
  lemma {:induction false} RunAgreesWithQueue(h: Heap, o: Order, m: multiset<int>, ops: seq<Op>, corrected: bool)
    requires Holds(h, o, m)
    ensures Agree(Run(h, ops, corrected), Queue(o, m, ops, corrected), o)
    decreases |ops|
  {
    if ops != [] {
      assert |Live(h)| == |m|;
      match ops[0]
      case PushOp(v) =>
        RunAgreesWithQueue(Push(h, v), o, m + multiset{v}, ops[1..], corrected);
      case PeekOp =>
        if |m| >= 1 {
          PeekIsExtremal(h, o, m);
        }
        RunAgreesWithQueue(h, o, m, ops[1..], corrected);
        RecordAgrees(Peek(h), Run(h, ops[1..], corrected), Queue(o, m, ops[1..], corrected), o);
      case PopOp =>
        PopStepAgrees(h, o, m, ops, corrected);
    }
  }

  /** The `Pop` case of `RunAgreesWithQueue`. */
  lemma {:induction false} PopStepAgrees(h: Heap, o: Order, m: multiset<int>, ops: seq<Op>, corrected: bool)
    requires Holds(h, o, m) && |ops| >= 1 && ops[0] == PopOp
    ensures Agree(Run(h, ops, corrected), Queue(o, m, ops, corrected), o)
    decreases |ops|, 0
  {
    assert |Live(h)| == |m|;
    var q := Queue(o, m, ops[1..], corrected);
    if |m| == 0 {
      RunAgreesWithQueue(h, o, m, ops[1..], corrected);
      RecordAgrees(0, Run(h, ops[1..], corrected), q, o);
    } else if corrected {
      PopCorrectedIsExtremal(h, o, m);
      var x := Extremal(o, m);
      var next := PopCorrected(h).1;
      RunAgreesWithQueue(next, o, m - multiset{x}, ops[1..], corrected);
      RecordAgrees(x, Run(next, ops[1..], corrected), Queue(o, m - multiset{x}, ops[1..], corrected), o);
    } else if |m| >= 2 {
      PopIsExtremal(h, o, m);
      var x := Extremal(o, m);
      var next := Pop(h).heap;
      RunAgreesWithQueue(next, o, m - multiset{x}, ops[1..], corrected);
      RecordAgrees(x, Run(next, ops[1..], corrected), Queue(o, m - multiset{x}, ops[1..], corrected), o);
    }
  }

  /** A table run against a fresh heap agrees with the reference queue
      started empty. */
  lemma FreshRunAgrees(d: int, o: Order, ops: seq<Op>, corrected: bool)
    requires d >= 1
    ensures Agree(Run(NewHeap(d, o), ops, corrected), Queue(o, multiset{}, ops, corrected), o)
  {
    RunAgreesWithQueue(NewHeap(d, o), o, multiset{}, ops, corrected);
  }
}
