/** The comparison a heap is built with. The Go heap accepts any `lessFunc`
    closure; this model fixes the element type to `int` and the closure to one
    of the two strict orders its callers pass: `a < b` (a min-heap) or
    `a > b` (a max-heap). */
module Ordering {

  datatype Order = MinFirst | MaxFirst

  /** `lessFunc(a, b)`: true when `a` must sit nearer the root than `b`. */
  predicate Less(o: Order, a: int, b: int)
  {
    match o
    case MinFirst => a < b
    case MaxFirst => a > b
  }

  /** Both orders are strict weak orders, and two values neither of which is
      `Less` than the other are equal: the facts the sift proofs rely on. */
  lemma LessIsStrictTotal(o: Order, a: int, b: int, c: int)
    ensures !Less(o, a, a)
    ensures Less(o, a, b) ==> !Less(o, b, a)
    ensures Less(o, a, b) && Less(o, b, c) ==> Less(o, a, c)
    ensures !Less(o, a, b) && !Less(o, b, c) ==> !Less(o, a, c)
    ensures !Less(o, a, b) && !Less(o, b, a) ==> a == b
  {
  }
}
