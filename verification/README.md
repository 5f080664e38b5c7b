# A verified model of a generic d-ary heap

This project models the Go package `heap` (`heap.go`). The package is an
array-backed d-ary heap, ordered by a caller-supplied `lessFunc`, with a
secondary index that maps each value to a list of recorded positions.

The model fixes the element type to `int` and the comparison to `a < b`
(a min-heap) or `a > b` (a max-heap). It represents the Go `Heap` struct
as an immutable datatype, and each operation returns the new state.

The modules follow the structure of the Go file:

- `Ordering`: the two `lessFunc`s and the strict-order facts about them.
- `Tree`: `parent` and `child`. `parent` uses Go's truncating division.
- `HeapState`: the `Heap` struct, its invariants, `updateIndex` and `swap`.
- `Sift`: `up` and `down`, as recursive functions. Each carries the
  invariant under which it restores heap order.
- `DaryHeap`: `NewHeap` without options, `Peek`, `Contains`, `Get`,
  `Push` and `Pop`. It also holds `PopCorrected`, described under Findings.
- `PriorityQueue`: a table of `Push`/`Pop`/`Peek` calls run against the
  heap, the way the Go test driver runs one. Such a run agrees step by step
  with a reference queue: a bare multiset that hands out an extremal element
  on each pop.
- `Scenarios`: every table of `TestHeapOperations`, each stated as a lemma
  about the run.
- `Lookups`: `TestHeapContains` and `TestHeapGet` on the concrete states
  they build. Also the lookup that the index drift breaks.

The invariant every reachable state keeps is `HeapState.Valid`. It says
that `d >= 1`, that `heapSize` fits the slice, and that every recorded
position lies inside the slice. It also holds the counting invariant: a
value is a key of the index exactly when it is live, and its list is as
long as its number of live occurrences.

The index does NOT record where each value sits. `updateIndex`
(heap.go:97-106) always overwrites slot 0 of the list; its loop has no
effect. `Push` (heap.go:143-147) appends a copy of the first entry. So the
model proves list lengths, key presence and bounds, not positions. That is
where the code departs from the package's own description of the index:
"index completeness" (every live slot is listed for its value) does not
hold of the code. The model follows the code.

## Model

| member | source | states |
|---|---|---|
| Tree.Parent | heap.go:79-82 | `parent(i)` is `(i - 1) / d` truncated toward zero: a live slot's parent lies strictly below it, and slot 0's is 0, or -1 when d is 1 |
| Tree.Child | heap.go:84-87 | the k-th child of a slot lies at least k slots beyond it |
| Tree.ParentIffChild | heap.go:79-87 | a slot j >= 1 has parent i exactly when j is one of i's children d*i+1 .. d*i+d |
| Tree.ParentOfChild | heap.go:79-87 | `parent(child(i, k)) == i` for every k in 1..d |
| Tree.RootPathBounds | heap.go:171-177 | the path `up` walks from any slot ends at the root and visits only slots no larger than its start |
| HeapState.UpdateIndex | heap.go:96-106 | `updateIndex(v, pos)` makes `pos` the first entry of v's list and changes no key, no list length, no other list and no other entry |
| HeapState.Swap | heap.go:89-94 | `swap(i, j)` exchanges the two slots, leaves every other slot, the size, the key set and every list length alone, and keeps recorded positions in range |
| HeapState.LiveIsUpdatable | heap.go:96-106 | every live value of a valid state has a non-empty list, so `updateIndex` on it cannot fault |
| HeapState.SwapKeepsValid | heap.go:89-94 | swapping two live slots keeps the state valid and the live multiset unchanged |
| Sift.Up | heap.go:171-177 | `up(i)` keeps the state valid and the live multiset unchanged, moves only slots on the path from i to the root, and restores heap order when only i was out of place |
| Sift.UpStep | heap.go:173-175 | one swap of `up` moves the single heap-order exception from slot i to its parent |
| Sift.UpDone | heap.go:173 | when `up` stops (i is the root or not `Less` than its parent), heap order holds |
| Sift.ScanChildren | heap.go:182-188 | the inner loop of `down` ends at the node or at one of its live children. No live child is strictly `Less` than the result, the result is strictly `Less` than every earlier child, and it is a child only when it is strictly `Less` than the node. So among tied children the first one wins |
| Sift.SmallestChild | heap.go:182-188 | the slot `down` picks is a live child of i or i itself; no child is strictly `Less` than it; it is a child only if strictly `Less` than i; ties go to the lowest child |
| Sift.Down | heap.go:179-196 | `down(i)` keeps the state valid and the live multiset unchanged, leaves stale slots alone, terminates because i strictly grows, and restores heap order when only i was out of place |
| Sift.DownStep | heap.go:190-194 | one swap of `down` moves the single heap-order exception from slot i to the chosen child |
| Sift.DownDone | heap.go:190-192 | when no child is strictly `Less` than slot i, heap order holds |
| DaryHeap.NewHeap | heap.go:61-77 | a new heap has branching factor d, no live elements and no keys, and is valid and heap-ordered |
| DaryHeap.RootIsExtremal | heap.go:108-115 | in a heap-ordered state no live element is strictly `Less` than the root |
| DaryHeap.Peek | heap.go:108-115 | `Peek` returns the zero value on an empty heap. On a non-empty heap-ordered state it returns a live element that no live element is strictly `Less` than |
| DaryHeap.Contains | heap.go:117-121 | on a valid state `Contains(v)` holds exactly when v is live, and then v's list is as long as v's live count |
| DaryHeap.Get | heap.go:123-133 | `Get(v)` returns 0 whenever it reports false, and a found value is read from inside the slice. On a valid state it reports false exactly when v is not live |
| DaryHeap.Place | heap.go:136-148 | the first half of `Push` appends v to the live elements, keeps the state valid, and breaks heap order at most at the new slot |
| DaryHeap.Push | heap.go:135-150 | `Push(v)` adds exactly one v to the live multiset, keeps the state valid and heap-ordered, and moves only slots on the path from the new slot to the root |
| DaryHeap.DetachRoot | heap.go:158-164 | copying the last live element into the root and dropping one entry of the popped value keeps the counts right once the size drops; the moved value stays a key exactly when two or more elements were live |
| DaryHeap.Pop | heap.go:152-169 | `Pop` returns 0 and changes nothing on an empty heap; it faults exactly when one element is live; otherwise it returns the root, removes exactly one occurrence of it, and keeps the state valid and heap-ordered |
| DaryHeap.SwapAndSiftDown | heap.go:165-167 | the `swap(0, last)`, decrement and `down(0)` that end `Pop` complete the removal of the root |
| DaryHeap.PopCorrected | heap.go:152-169 | `Pop` without the fault: on any non-empty heap it removes the root as `Pop` does on two or more elements |
| DaryHeap.PopCorrectedAgrees | heap.go:152-169 | the corrected pop returns and leaves exactly what `Pop` does, except on a one-element heap, where `Pop` faults |
| DaryHeap.Drain | heap.go:152-169 | popping a heap-ordered state with the corrected pop `DaryHeap.PopCorrected` until it is empty returns every live element once, in order |
| PriorityQueue.Extremal | heap.go:1-12 | a non-empty multiset has exactly one element that nothing in it is strictly `Less` than |
| PriorityQueue.PeekIsExtremal | heap.go:108-115 | on a non-empty heap `Peek` returns the extremal element of the live multiset |
| PriorityQueue.PopIsExtremal | heap.go:152-169 | on two or more elements `Pop` returns the extremal element and leaves a heap holding the rest |
| PriorityQueue.PopCorrectedIsExtremal | heap.go:152-169 | on any non-empty heap the corrected pop returns the extremal element and leaves a heap holding the rest |
| PriorityQueue.RunShape | heap_test.go:208-218 | the test driver's loop over a table: it records at most one result per operation, never faults with the corrected pop, and a completed run ends in a valid state |
| PriorityQueue.RunAgreesWithQueue | heap_test.go:196-233 | any table run against a heap returns what the reference queue returns and ends the same way, and a completed run leaves a valid, heap-ordered heap holding the queue's multiset |
| PriorityQueue.FreshRunAgrees | heap_test.go:201-215 | the same, for a run started from `NewHeap` |
| Scenarios.FollowedTraceIsObserved | heap_test.go:208-215 | an annotated table whose every step is a step of the reference queue announces exactly what the queue observes |
| Scenarios.SingleLayout | heap_test.go:220-230 | a heap holding one element has it in slot 0 |
| Scenarios.PairLayout | heap_test.go:220-230 | a heap holding two elements has the one that comes first under `Less` in slot 0 |
| Scenarios.MinHeapBinary | heap_test.go:24-39 | the "MinHeap with d=2" table returns 3, 3, 1, 4 and then faults on the pop that should return 5 |
| Scenarios.MinHeapBinaryCorrected | heap_test.go:24-39 | with the corrected pop the same table returns 3, 3, 1, 4, 5 and leaves the heap empty, as the test expects |
| Scenarios.SingleElement | heap_test.go:40-49 | for any d, order and value (so also heap_test.go:120-128), the peek returns the value, the pop faults, and the corrected pop returns it and empties the heap |
| Scenarios.AllSame | heap_test.go:50-61 | three equal elements (so also heap_test.go:129-140): the peek and both pops return 1 and a single 1 is left |
| Scenarios.MinAscending | heap_test.go:62-73 | pushing 1, 2, 3: the peek and pop return 1 and leave the heap [2, 3] |
| Scenarios.MinDescending | heap_test.go:74-85 | pushing 3, 2, 1: the peek and pop return 1 and leave the heap [2, 3] |
| Scenarios.MinHeapQuaternary | heap_test.go:86-103 | the d=4 min-heap table returns 1, 1, 3, 4, 4 and then faults on the pop that should return 5 |
| Scenarios.MinHeapQuaternaryCorrected | heap_test.go:86-103 | with the corrected pop the same table returns 1, 1, 3, 4, 4, 5 and leaves the heap empty |
| Scenarios.MaxHeapBinary | heap_test.go:104-119 | the d=2 max-heap table returns 5, 5, 4, 3 and then faults on the pop that should return 1 |
| Scenarios.MaxHeapBinaryCorrected | heap_test.go:104-119 | with the corrected pop the same table returns 5, 5, 4, 3, 1 and leaves the heap empty |
| Scenarios.MaxAscending | heap_test.go:141-151 | pushing 1, 2, 3 into a max-heap: the peek and pop return 3 and leave the heap [2, 1] |
| Scenarios.MaxDescending | heap_test.go:152-162 | pushing 3, 2, 1 into a max-heap: the peek and pop return 3 and leave the heap [2, 1] |
| Scenarios.MaxHeapQuaternary | heap_test.go:163-179 | the d=4 max-heap table returns 5, 5, 4, 4, 3 and then faults on the pop that should return 1 |
| Scenarios.MaxHeapQuaternaryCorrected | heap_test.go:163-179 | with the corrected pop the same table returns 5, 5, 4, 4, 3, 1 and leaves the heap empty |
| Scenarios.TakeFollows | heap_test.go:208-230 | the first n steps of a table the reference queue follows are followed too, and they announce a completed run that ends at the multiset annotated after step n |
| Scenarios.PrefixHolds | heap_test.go:208-230 | after the first n operations of such a table, run on a new heap, the run has completed and the heap is valid and heap-ordered, holding exactly the annotated multiset |
| Scenarios.MinHeapBinaryHolds | heap_test.go:24-39 | every prefix of the "MinHeap with d=2" table up to, but not including, its last pop (which faults as written) leaves a valid heap-ordered state holding the multiset the table annotates |
| Scenarios.MinHeapBinaryAfterPop1 | heap_test.go:33 | after the first pop the heap is laid out [4, 5] |
| Scenarios.MinHeapBinaryAfterPop2 | heap_test.go:35 | after the second pop the heap is laid out [4, 5] |
| Scenarios.MinHeapBinaryAfterPop3 | heap_test.go:36 | after the third pop the heap is laid out [5] |
| Scenarios.AllSameHolds | heap_test.go:50-61 | every prefix of the all-equal table, including the whole table, leaves a valid heap-ordered state holding the annotated multiset |
| Scenarios.AllSameAfterPop1 | heap_test.go:58 | after the first pop the heap is laid out [1, 1] (so also heap_test.go:137) |
| Scenarios.MinHeapQuaternaryHolds | heap_test.go:86-103 | every prefix of the d=4 min-heap table up to, but not including, its last pop (which faults as written) leaves a valid heap-ordered state holding the annotated multiset |
| Scenarios.MinHeapQuaternaryAfterPop2 | heap_test.go:97 | after the second pop the heap is laid out [4, 5] |
| Scenarios.MinHeapQuaternaryAfterPop3 | heap_test.go:99 | after the third pop the heap is laid out [4, 5] |
| Scenarios.MinHeapQuaternaryAfterPop4 | heap_test.go:100 | after the fourth pop the heap is laid out [5] |
| Scenarios.MaxHeapBinaryHolds | heap_test.go:104-119 | every prefix of the d=2 max-heap table up to, but not including, its last pop (which faults as written) leaves a valid heap-ordered state holding the annotated multiset |
| Scenarios.MaxHeapBinaryAfterPop1 | heap_test.go:113 | after the first pop the heap is laid out [4, 3] |
| Scenarios.MaxHeapBinaryAfterPop2 | heap_test.go:115 | after the second pop the heap is laid out [3, 1] |
| Scenarios.MaxHeapBinaryAfterPop3 | heap_test.go:116 | after the third pop the heap is laid out [1] |
| Scenarios.MaxHeapQuaternaryHolds | heap_test.go:163-179 | every prefix of the d=4 max-heap table up to, but not including, its last pop (which faults as written) leaves a valid heap-ordered state holding the annotated multiset |
| Scenarios.MaxHeapQuaternaryAfterPop2 | heap_test.go:173 | after the second pop the heap is laid out [3, 1] |
| Scenarios.MaxHeapQuaternaryAfterPop3 | heap_test.go:175 | after the third pop the heap is laid out [3, 1] |
| Scenarios.MaxHeapQuaternaryAfterPop4 | heap_test.go:176 | after the fourth pop the heap is laid out [1] |
| Scenarios.EmptyHeap | heap_test.go:180-193 | a pop or a peek on a new heap returns 0 and leaves the heap empty |
| Lookups.PushesThenPops | heap_test.go:237-242 | the five pushes of the lookup tests build one exact layout and index, and the two pops that follow each return 1 |
| Lookups.ContainsTest | heap_test.go:236-254 | after the pushes 5 and 3 are present and 2 is not; after one pop 1 is present, after two it is not |
| Lookups.GetTest | heap_test.go:256-286 | on the same states `Get` returns (5, true), (3, true) and (0, false), then (1, true), then (0, false) |
| Lookups.GetDrift | heap.go:123-133 | pushing 1 twice, popping and pushing 5 leaves [1, 5] live, yet `Get(1)` returns (5, true) |
| Lookups.GetCorrected | heap.go:123-133 | the lookup `Get` evidently intends: it finds a live element equal to v exactly when v is live, returns it, and reports the same flag as `Get` |

## Left out

- `WithCapacity` and the option list of `NewHeap` (heap.go:51-59, heap.go:72-74): they only pre-size the slice and the map. A new heap starts with an empty slice and an empty index; `Push`'s append-or-overwrite branch is modelled on `seq`.
- Arbitrary `lessFunc` closures and Go generics: the element type is `int` and the comparison is `<` or `>`, the two the tests pass.
- `Remove` and `Update`: the package comment lists them as TODO (heap.go:27-28); there is no code for them.
- `d <= 0`: every operation requires `d >= 1`. With `d == 0`, `parent` divides by zero (heap.go:81). Go also accepts a negative `d`, for which `parent` and `child` (heap.go:80-87) yield negative slots. With `d == -1`, the third push in a row lands in slot 2 and reads `data[parent(2)]`, that is `data[-1]`, and panics. The model does not describe these runs.
- Slice capacity, allocation and aliasing: the slice is a `seq`, and appending is concatenation.
- The test driver's own machinery (`t.Run`, `t.Parallel`, testify asserts): the tables are run by `PriorityQueue.Run`. Each test's returned values and final state are stated as one lemma, and each checked one- or two-element layout after a pop as a lemma of its own (`Scenarios.MinHeapBinaryAfterPop1` and its siblings).
- Tree.Child: computes `d*i + k` on unbounded integers, whereas Go's `int` is 64 bits wide and wraps around (heap.go:86). Only a huge branching factor reaches the wrap. With `d` equal to the largest `int64`, pushing 1, 2 and 3 into a min-heap and then popping makes `down` compute `child(1, 1)` as the smallest `int64`. That is below `heapSize`, so heap.go:185 indexes the slice with it and panics, while the model's `Pop` returns 1. Likewise `Tree.Parent` and the slot arithmetic of `Sift.Up` and `Sift.Down` assume no overflow.
- DaryHeap.Drain: pops with `DaryHeap.PopCorrected`. The as-written `Pop` faults on the last element (heap.go:162-165, `Scenarios.SingleElement`), so as written no heap can be popped until it is empty.
- DaryHeap.Get: does not promise that the value returned equals the value asked for, because the recorded positions drift; `Lookups.GetDrift` shows that it can differ.
- Scenarios.MinHeapQuaternary: the layout [3, 5, 4] the test expects after the first pop (heap_test.go:96) is not stated. Heap order alone does not fix the layout of three live elements.
- Scenarios.MaxHeapQuaternary: likewise, the layout [4, 3, 1] after the first pop (heap_test.go:172) is not stated. Every later layout of both tables is stated by the `AfterPop` lemmas.

## Findings

| source | as written | input that shows it | evidently intended | confidence | as-written member | corrected member |
|---|---|---|---|---|---|---|
| heap.go:158-167 | `Pop` deletes the popped value's key when its list empties, then calls `swap(0, 0)`, whose `updateIndex` indexes the missing key's empty list | `NewHeap(2, <)`, `Push(10)`, `Pop()` | return 10 and leave an empty heap (heap_test.go:47) | high; not executed | Scenarios.SingleElement | DaryHeap.PopCorrected |
| heap.go:97-106 | `updateIndex` always overwrites the first entry of the value's list, so a duplicate's recorded position can move to a slot that later holds another value | `NewHeap(2, <)`, `Push(1)`, `Push(1)`, `Pop()`, `Push(5)`, then `Get(1)` | `Get(1)` returns (1, true), an element equal to the one asked for (heap.go:123-125) | high; not executed | Lookups.GetDrift | Lookups.GetCorrected |

The single-element fault is why every table that pops its heap empty
(heap_test.go:37, 47, 101, 117, 126, 177) ends in a fault when run as
written. Each of those tables is also run with `PopCorrected`, and then it
returns exactly what the test expects.
