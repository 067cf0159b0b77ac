/** Pixel geometry helpers of the screen layer (src/Screen/Point.hpp).

    Coordinates are unbounded integers: the C++ `int` overflow of the
    translation operator is not modelled. */
module Geometry {

  /** A point on the screen, in pixels. */
  datatype PixelPoint = PixelPoint(x: int, y: int)

  /** A width/height pair, in pixels. */
  datatype PixelSize = PixelSize(cx: int, cy: int)

  /** A rectangle given by its four edges, in pixels. */
  datatype PixelRect = PixelRect(left: int, top: int, right: int, bottom: int)

  /** The empty size, (0, 0). */
  const ZeroSize: PixelSize := PixelSize(0, 0)

  /** `PixelSize::operator==`: component-wise comparison. It agrees with
      structural equality of the two sizes. */
  predicate SizeEquals(a: PixelSize, b: PixelSize)
    ensures SizeEquals(a, b) <==> a == b
  {
    a.cx == b.cx && a.cy == b.cy
  }

  /** `PixelSize::operator!=`: the negation of `operator==`. */
  predicate SizeDiffers(a: PixelSize, b: PixelSize)
    ensures SizeDiffers(a, b) <==> a != b
    ensures SizeDiffers(a, b) <==> a.cx != b.cx || a.cy != b.cy
  {
    !SizeEquals(a, b)
  }

  /** `operator+(PixelPoint, PixelSize)`: translation of a point by a size. */
  function Translate(p: PixelPoint, size: PixelSize): (r: PixelPoint)
    ensures r.x - p.x == size.cx && r.y - p.y == size.cy
  {
    PixelPoint(p.x + size.cx, p.y + size.cy)
  }

  /** The size that undoes `size` under `Translate`. */
  function Negate(size: PixelSize): PixelSize
  {
    PixelSize(-size.cx, -size.cy)
  }

  /** `OverlapsRect`: the four edge comparisons of the source. The
      horizontal test is strict on one side and non-strict on the other.
      Any pixel the two rectangles share makes it hold; for well-formed
      rectangles that overlap, the pixel at the larger left and larger top
      edge is shared. */
  predicate OverlapsRect(a: PixelRect, b: PixelRect)
    ensures forall x, y :: SharedPixel(a, b, x, y) ==> OverlapsRect(a, b)
    ensures WellFormed(a) && WellFormed(b) && OverlapsRect(a, b) ==>
      SharedPixel(a, b, Max(a.left, b.left), Max(a.top, b.top))
  {
    a.left < b.right && b.left <= a.right &&
    a.top <= b.bottom && b.top <= a.bottom
  }

  /** The larger of two coordinates. */
  function Max(x: int, y: int): int
  {
    if x < y then y else x
  }

  /** The horizontal half of `OverlapsRect`. */
  predicate OverlapsHorizontally(a: PixelRect, b: PixelRect)
  {
    a.left < b.right && b.left <= a.right
  }

  /** The vertical half of `OverlapsRect`. */
  predicate OverlapsVertically(a: PixelRect, b: PixelRect)
  {
    a.top <= b.bottom && b.top <= a.bottom
  }

  /** A rectangle whose edges are ordered the way `OverlapsRect` expects:
      at least one column wide, and top not below bottom. */
  predicate WellFormed(r: PixelRect)
  {
    r.left < r.right && r.top <= r.bottom
  }

  /** Column `x` and row `y` lie in both rectangles, reading the horizontal
      extent of `a` as closed and that of `b` as half-open, and both
      vertical extents as closed. */
  predicate SharedPixel(a: PixelRect, b: PixelRect, x: int, y: int)
  {
    a.left <= x <= a.right && b.left <= x < b.right &&
    a.top <= y <= a.bottom && b.top <= y <= b.bottom
  }

  // ---------------------------------------------------------------------
  // PixelSize equality

  /** `operator==` is an equivalence relation. */
  lemma SizeEqualsIsEquivalence(a: PixelSize, b: PixelSize, c: PixelSize)
    ensures SizeEquals(a, a)
    ensures SizeEquals(a, b) <==> SizeEquals(b, a)
    ensures SizeEquals(a, b) && SizeEquals(b, c) ==> SizeEquals(a, c)
  {
  }

  // ---------------------------------------------------------------------
  // Translation

  /** Adding the empty size leaves the point where it was. */
  lemma TranslateByZero(p: PixelPoint)
    ensures Translate(p, ZeroSize) == p
  {
  }

  /** Translating by a size and then by its negation is the identity. */
  lemma TranslateRoundTrip(p: PixelPoint, size: PixelSize)
    ensures Translate(Translate(p, size), Negate(size)) == p
  {
  }

  /** Translation is injective in the point: two points moved by the same
      size coincide only if they were equal. */
  lemma TranslateInjective(p: PixelPoint, q: PixelPoint, size: PixelSize)
    ensures Translate(p, size) == Translate(q, size) <==> p == q
  {
  }

  // ---------------------------------------------------------------------
  // OverlapsRect

  /** `OverlapsRect` is the conjunction of its horizontal and vertical
      halves. */
  lemma OverlapsRectSplits(a: PixelRect, b: PixelRect)
    ensures OverlapsRect(a, b) <==> OverlapsHorizontally(a, b) && OverlapsVertically(a, b)
  {
  }

  /** The vertical half is symmetric in its two arguments. */
  lemma VerticalOverlapSymmetric(a: PixelRect, b: PixelRect)
    ensures OverlapsVertically(a, b) <==> OverlapsVertically(b, a)
  {
  }

  /** The whole predicate is not symmetric: a rectangle that ends on the
      column where another one starts overlaps it one way round only. */
  lemma OverlapsRectNotSymmetric()
    ensures OverlapsRect(PixelRect(0, 0, 5, 0), PixelRect(5, 0, 10, 0))
    ensures !OverlapsRect(PixelRect(5, 0, 10, 0), PixelRect(0, 0, 5, 0))
  {
  }

  /** A well-formed rectangle overlaps itself. */
  lemma OverlapsSelf(a: PixelRect)
    requires WellFormed(a)
    ensures OverlapsRect(a, a)
  {
  }

  /** A rectangle lying entirely right of `b`'s right edge does not overlap it. */
  lemma RightOfDoesNotOverlap(a: PixelRect, b: PixelRect)
    requires a.left >= b.right
    ensures !OverlapsRect(a, b)
  {
  }

  /** For well-formed rectangles, `OverlapsRect` holds exactly when the two
      share a pixel (reading `a`'s horizontal extent as closed and `b`'s as
      half-open), which is what the asymmetric comparison tests. */
  lemma OverlapsIffSharedPixel(a: PixelRect, b: PixelRect)
    requires WellFormed(a) && WellFormed(b)
    ensures OverlapsRect(a, b) <==> exists x, y :: SharedPixel(a, b, x, y)
  {
    if OverlapsRect(a, b) {
      var x := Max(a.left, b.left);
      var y := Max(a.top, b.top);
      assert SharedPixel(a, b, x, y);
    }
    if exists x, y :: SharedPixel(a, b, x, y) {
      var x, y :| SharedPixel(a, b, x, y);
      assert a.left <= x < b.right;
    }
  }
}
