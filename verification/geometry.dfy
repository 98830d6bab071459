/**
 Axis-aligned hit boxes and the padded hit test of CollisionUtils.

 A box is (minX, minY, width, height), as a JavaFX `Bounds` reports it. The
 overlap test of JavaFX `Bounds.intersects` is taken to be the closed-interval
 test that answers false when either box is empty (negative width or height).
 */
module Geometry {

  datatype Box = Box(minX: real, minY: real, width: real, height: real) {
    function MaxX(): real { minX + width }
    function MaxY(): real { minY + height }
    function CenterX(): real { minX + width / 2.0 }
    function CenterY(): real { minY + height / 2.0 }

    /** A box with a negative extent has no points at all. */
    predicate IsEmpty() { width < 0.0 || height < 0.0 }

    /** The point (x, y) lies in the closed box. */
    predicate Holds(x: real, y: real) {
      minX <= x <= MaxX() && minY <= y <= MaxY()
    }
  }

  /** `outer` contains every point of `inner`. */
  predicate Contains(outer: Box, inner: Box) {
    outer.minX <= inner.minX && inner.MaxX() <= outer.MaxX() &&
    outer.minY <= inner.minY && inner.MaxY() <= outer.MaxY()
  }

  /** The two boxes are apart on at least one axis. */
  predicate Separated(a: Box, b: Box) {
    a.MaxX() < b.minX || b.MaxX() < a.minX || a.MaxY() < b.minY || b.MaxY() < a.minY
  }

  /** Closed-interval overlap of two non-empty boxes (JavaFX `Bounds.intersects`). */
  predicate Overlaps(a: Box, b: Box) {
    !a.IsEmpty() && !b.IsEmpty() &&
    b.minX <= a.MaxX() && a.minX <= b.MaxX() &&
    b.minY <= a.MaxY() && a.minY <= b.MaxY()
  }

  /** The hit box of the second operand: moved in by `padding` on every side. */
  function Shrink(b: Box, padding: real): (r: Box)
    ensures r.minX + r.MaxX() == b.minX + b.MaxX() && r.minY + r.MaxY() == b.minY + b.MaxY()
    ensures padding >= 0.0 && !r.IsEmpty() ==> Contains(b, r)
    ensures r.width == b.width - 2.0 * padding && r.height == b.height - 2.0 * padding
    ensures padding >= 0.0 ==> r.width <= b.width && r.height <= b.height
  {
    Box(b.minX + padding, b.minY + padding, b.width - 2.0 * padding, b.height - 2.0 * padding)
  }

  /** `intersects(a, b, padding)`: only `b` is shrunk, `a` is used as it is. */
  predicate IntersectsPadded(a: Box, b: Box, padding: real) {
    Overlaps(a, Shrink(b, padding))
  }

  /** `intersects(a, b)`: the padded test with padding 0. */
  predicate Intersects(a: Box, b: Box) {
    IntersectsPadded(a, b, 0.0)
  }

  /** Two boxes overlap exactly when they share a point. */
  lemma OverlapsIffCommonPoint(a: Box, b: Box)
    ensures Overlaps(a, b) <==> exists x, y :: a.Holds(x, y) && b.Holds(x, y)
  {
    if Overlaps(a, b) {
      var x := if a.minX <= b.minX then b.minX else a.minX;
      var y := if a.minY <= b.minY then b.minY else a.minY;
      assert a.Holds(x, y) && b.Holds(x, y);
    }
  }

  /** The two-argument test is the padded test at padding 0, which is the plain overlap. */
  lemma IntersectsIsUnpadded(a: Box, b: Box)
    ensures Intersects(a, b) <==> Overlaps(a, b)
    ensures Intersects(a, b) == IntersectsPadded(a, b, 0.0)
  {
    assert Shrink(b, 0.0) == b;
  }

  /** Without padding the test does not depend on the order of its operands. */
  lemma IntersectsSymmetric(a: Box, b: Box)
    ensures Intersects(a, b) <==> Intersects(b, a)
  {
    assert Shrink(a, 0.0) == a;
    assert Shrink(b, 0.0) == b;
  }

  /**
   With a positive padding the order matters. A box narrower than twice the
   padding, lying inside the other's hit box, hits the other; the other
   never hits it, because padding shrinks it to nothing.
   */
  lemma NarrowBoxHitsOneWay(small: Box, large: Box, padding: real)
    requires padding > 0.0
    requires !small.IsEmpty() && small.width < 2.0 * padding
    requires Contains(Shrink(large, padding), small)
    ensures IntersectsPadded(small, large, padding)
    ensures !IntersectsPadded(large, small, padding)
  {
    assert Shrink(small, padding).IsEmpty();
  }

  /** The order only matters through emptiness: while neither shrunk box is empty,
      shrinking the first operand instead of the second gives the same answer. */
  lemma PaddedSymmetricUnlessEmptied(a: Box, b: Box, padding: real)
    requires !Shrink(a, padding).IsEmpty() && !Shrink(b, padding).IsEmpty()
    requires !a.IsEmpty() && !b.IsEmpty()
    ensures IntersectsPadded(a, b, padding) <==> IntersectsPadded(b, a, padding)
  {
  }

  /** Raising the padding can turn a hit into a miss, never a miss into a hit. */
  lemma PaddingMonotone(a: Box, b: Box, p: real, q: real)
    requires 0.0 <= p <= q
    requires IntersectsPadded(a, b, q)
    ensures IntersectsPadded(a, b, p)
  {
  }

  /** Boxes apart on some axis never intersect, whatever non-negative padding is used. */
  lemma SeparatedNeverIntersect(a: Box, b: Box, padding: real)
    requires padding >= 0.0
    requires Separated(a, b)
    ensures !IntersectsPadded(a, b, padding)
  {
  }

  /** A non-empty box containing the other is hit at every padding up to half the inner box's size. */
  lemma ContainingAlwaysIntersects(a: Box, b: Box, padding: real)
    requires !a.IsEmpty()
    requires Contains(a, b)
    requires 0.0 <= padding && 2.0 * padding <= b.width && 2.0 * padding <= b.height
    ensures IntersectsPadded(a, b, padding)
  {
  }
}
