/** Axis-aligned rectangles and the game's single collision primitive. */
module Geometry {

  /** A rectangle given by its top-left corner and its size, in field units
      (the field is 800 units wide; y grows downwards). */
  datatype Rect = Rect(x: real, y: real, width: real, height: real)

  /** `isColliding`: each rectangle's near edge lies strictly before the
      other's far edge, on both axes. */
  predicate IsColliding(a: Rect, b: Rect)
  {
    a.x < b.x + b.width && a.x + a.width > b.x &&
    a.y < b.y + b.height && a.y + a.height > b.y
  }

  /** The point (px, py) lies strictly inside r. */
  predicate Inside(r: Rect, px: real, py: real)
  {
    r.x < px < r.x + r.width && r.y < py < r.y + r.height
  }

  /** Collision does not depend on the order of its arguments. */
  lemma CollisionIsSymmetric(a: Rect, b: Rect)
    ensures IsColliding(a, b) == IsColliding(b, a)
  {
  }

  /** Rectangles that only share an edge do not collide. */
  lemma TouchingEdgesDoNotCollide(a: Rect, b: Rect)
    requires a.x + a.width == b.x || b.x + b.width == a.x ||
             a.y + a.height == b.y || b.y + b.height == a.y
    ensures !IsColliding(a, b)
  {
  }

  /** For rectangles of positive size the strict-inequality test is exactly
      "the two open rectangles share a point". */
  lemma CollidingIffCommonPoint(a: Rect, b: Rect)
    requires a.width > 0.0 && a.height > 0.0 && b.width > 0.0 && b.height > 0.0
    ensures IsColliding(a, b) <==> exists px, py :: Inside(a, px, py) && Inside(b, px, py)
  {
    if IsColliding(a, b) {
      var left := if a.x < b.x then b.x else a.x;
      var right := if a.x + a.width < b.x + b.width then a.x + a.width else b.x + b.width;
      var top := if a.y < b.y then b.y else a.y;
      var bottom := if a.y + a.height < b.y + b.height then a.y + a.height else b.y + b.height;
      assert Inside(a, (left + right) / 2.0, (top + bottom) / 2.0);
      assert Inside(b, (left + right) / 2.0, (top + bottom) / 2.0);
    }
  }
}
