/**
 * Geometry primitives of the layout engine: sizes, points and rectangles over
 * exact reals (standing for CGFloat), the rounding-up and clamping that button
 * measurement applies, and the inert alignment and flexibility values that a
 * layout carries.
 */
module Geometry {
  import opened Wrappers

  /** A CGSize. Components are not forced to be non-negative: a caller may pass any maxSize. */
  datatype Size = Size(width: real, height: real)

  datatype Point = Point(x: real, y: real)

  /** A CGRect: an origin and a size. */
  datatype Rect = Rect(origin: Point, size: Size)

  const Zero: Size := Size(0.0, 0.0)

  predicate NonNegative(s: Size) {
    s.width >= 0.0 && s.height >= 0.0
  }

  /** `s` is no larger than `bound` in either dimension. */
  predicate Fits(s: Size, bound: Size) {
    s.width <= bound.width && s.height <= bound.height
  }

  /** A real number with no fractional part. */
  predicate Whole(x: real) {
    x.Floor as real == x
  }

  /** `ceil` on CGFloat, taken as exact: the least whole number not below `x`. */
  function Ceil(x: real): (r: real)
    ensures Whole(r)
    ensures x <= r < x + 1.0
  {
    (-((-x).Floor)) as real
  }

  /** Adding a whole number to a whole number gives a whole number. */
  lemma WholeSum(x: real, y: real)
    requires Whole(x) && Whole(y)
    ensures Whole(x + y)
  {
    var i, j := x.Floor, y.Floor;
    assert x + y == (i + j) as real;
  }

  function Max(a: real, b: real): (r: real)
    ensures a <= r && b <= r
    ensures r == a || r == b
  {
    if a < b then b else a
  }

  function Min(a: real, b: real): (r: real)
    ensures r <= a && r <= b
    ensures r == a || r == b
  {
    if a < b then a else b
  }

  /** Rounding up never reverses the order of two numbers. */
  lemma CeilMonotone(x: real, y: real)
    requires x <= y
    ensures Ceil(x) <= Ceil(y)
  {
    var i, j := (-x).Floor, (-y).Floor;
    assert (j as real) <= -y <= -x < (i as real) + 1.0;
    assert j < i + 1;
  }

  /** A whole number is its own ceiling. */
  lemma CeilOfWhole(x: real)
    requires Whole(x)
    ensures Ceil(x) == x
  {
    var n := x.Floor;
    assert -x == (-n) as real;
    assert (-x).Floor == -n;
  }

  /**
   * CGSize.decreasedToSize: each dimension is cut down to the bound when it
   * exceeds it and left alone otherwise.
   */
  function DecreasedToSize(s: Size, maxSize: Size): (r: Size)
    ensures Fits(r, maxSize)
    ensures r.width == s.width || r.width == maxSize.width
    ensures r.height == s.height || r.height == maxSize.height
    ensures Fits(s, maxSize) ==> r == s
    ensures Fits(r, s)
  {
    Size(Min(s.width, maxSize.width), Min(s.height, maxSize.height))
  }

  /** A smaller size under a smaller bound clamps to a smaller size. */
  lemma DecreasedToSizeMonotone(s1: Size, s2: Size, m1: Size, m2: Size)
    requires Fits(s1, s2) && Fits(m1, m2)
    ensures Fits(DecreasedToSize(s1, m1), DecreasedToSize(s2, m2))
  {
  }

  /** Vertical anchor of an alignment. */
  datatype Vertical = Top | VerticalCenter | Bottom | VerticalFill

  /** Horizontal anchor of an alignment. */
  datatype Horizontal = Leading | HorizontalCenter | Trailing | HorizontalFill

  /**
   * The vertical and horizontal anchors a layout positions its box with. How a policy
   * maps a size and a rectangle to a frame is not part of this model: see Positioner.
   */
  datatype Alignment = Alignment(vertical: Vertical, horizontal: Horizontal)

  const TopLeading: Alignment := Alignment(Top, Leading)

  /**
   * Growth and shrink priorities per axis, read only by container layouts;
   * `Flexible` is the library's named default.
   */
  datatype Flexibility = Flexible | Priorities(horizontal: Option<int>, vertical: Option<int>)

  /** Alignment.position(size:in:): places a measured size inside an allotted rectangle. */
  type Positioner = (Alignment, Size, Rect) -> Rect
}
