/** The implicit d-ary tree laid over the heap's slice: slot 0 is the root,
    the k-th child (k = 1..d) of slot i is d*i + k, and the parent of slot i
    is (i - 1) / d with Go's truncating division. */
module Tree {

  /** Go's integer division for a positive divisor: it truncates toward zero,
      whereas Dafny's `/` rounds toward negative infinity. */
  function TruncDiv(a: int, b: int): int
    requires b >= 1
  {
    if a >= 0 then a / b else -((-a) / b)
  }

  /** For a non-negative dividend Go's quotient q is the unique one with
      b*q <= a < b*q + b. */
  lemma TruncDivBounds(a: int, b: int)
    requires a >= 0 && b >= 1
    ensures 0 <= TruncDiv(a, b) <= a
    ensures b * TruncDiv(a, b) <= a < b * TruncDiv(a, b) + b
  {
    var q := a / b;
    assert a == b * q + a % b;
    if q < 0 {
      MulBelow(b, q, 0);
    }
    MulMonotonic(q, 1, b);
  }

  /** `parent(i)` of the Go heap; `d == 0` would divide by zero, so d >= 1. */
  function Parent(i: int, d: int): (p: int)
    requires d >= 1
    ensures i >= 1 ==> 0 <= p < i
    ensures i == 0 ==> p == (if d == 1 then -1 else 0)
  {
    if i >= 1 then TruncDivBounds(i - 1, d); TruncDiv(i - 1, d)
    else TruncDiv(i - 1, d)
  }

  /** `child(i, k)` of the Go heap; a child lies beyond its parent. */
  function Child(i: int, k: int, d: int): (c: int)
    ensures d >= 1 && i >= 0 ==> c >= i + k
  {
    if d >= 1 && i >= 0 then MulMonotonic(i, 1, d); d * i + k else d * i + k
  }

  /** Multiplication by a non-negative factor is monotonic. */
  lemma MulMonotonic(d: int, a: int, b: int)
    requires d >= 0 && a <= b
    ensures d * a <= d * b
  {
    assert d * b - d * a == d * (b - a);
  }

  /** A strictly smaller factor loses at least one whole d. */
  lemma MulBelow(d: int, a: int, b: int)
    requires d >= 0 && a + 1 <= b
    ensures d * a + d <= d * b
  {
    MulMonotonic(d, a + 1, b);
    assert d * (a + 1) == d * a + d;
  }

  /** The children of slot i are exactly the slots d*i + 1 .. d*i + d: a slot
      j >= 1 has parent i if and only if it is one of them. */
  lemma ParentIffChild(j: int, i: int, d: int)
    requires d >= 1 && j >= 1 && i >= 0
    ensures Parent(j, d) == i <==> Child(i, 1, d) <= j <= Child(i, d, d)
  {
    var q := Parent(j, d);
    assert d * q <= j - 1 < d * q + d;
    if Child(i, 1, d) <= j <= Child(i, d, d) {
      if q < i {
        MulBelow(d, q, i);
      } else if q > i {
        MulBelow(d, i, q);
      }
    }
  }

  /** `parent(child(i, k)) == i` for every k in 1..d. */
  lemma ParentOfChild(i: int, k: int, d: int)
    requires d >= 1 && i >= 0 && 1 <= k <= d
    ensures Child(i, k, d) >= 1
    ensures Parent(Child(i, k, d), d) == i
  {
    MulMonotonic(d, 0, i);
    ParentIffChild(Child(i, k, d), i, d);
  }

  /** `OnRootPath(j, i, d)`: slot j is i itself or one of its ancestors, i.e.
      it lies on the path the up-sift of slot i may walk. */
  predicate OnRootPath(j: int, i: int, d: int)
    requires d >= 1
    decreases if i >= 0 then i else 0
  {
    j == i || (i >= 1 && OnRootPath(j, Parent(i, d), d))
  }

  /** Every slot's path to the root ends at the root and passes only through
      slots no larger than itself. */
  lemma {:induction false} RootPathBounds(j: int, i: int, d: int)
    requires d >= 1 && i >= 0
    ensures OnRootPath(0, i, d)
    ensures OnRootPath(j, i, d) ==> 0 <= j <= i
  {
    if i >= 1 {
      RootPathBounds(j, Parent(i, d), d);
    }
  }
}
