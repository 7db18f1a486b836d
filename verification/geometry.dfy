/** Axis-aligned rectangles, standing in for java.awt.Rectangle. */
module Geometry {

  /** A rectangle with top-left corner (x, y), width w and height h. */
  datatype Rect = Rect(x: int, y: int, w: int, h: int)

  /** The pixel (px, py) lies inside the rectangle. */
  predicate Covers(r: Rect, px: int, py: int)
  {
    r.x <= px < r.x + r.w && r.y <= py < r.y + r.h
  }

  function Max(a: int, b: int): (m: int)
  {
    if a < b then b else a
  }

  /**
   * Strict overlap of two non-empty rectangles, in the form of
   * java.awt.Rectangle.intersects: an empty rectangle (zero or negative
   * width or height) intersects nothing, and rectangles that only touch
   * along an edge do not intersect.
   */
  predicate Intersects(a: Rect, b: Rect)
  {
    a.w > 0 && a.h > 0 && b.w > 0 && b.h > 0 &&
    a.x < b.x + b.w && b.x < a.x + a.w && a.y < b.y + b.h && b.y < a.y + a.h
  }

  /**
   * Two rectangles intersect exactly when they share a pixel: on the integer
   * grid, interiors that share a point share a whole pixel.
   */
  lemma SharedPixel(a: Rect, b: Rect)
    ensures Intersects(a, b) <==> exists px, py :: Covers(a, px, py) && Covers(b, px, py)
  {
    if Intersects(a, b) {
      assert Covers(a, Max(a.x, b.x), Max(a.y, b.y)) && Covers(b, Max(a.x, b.x), Max(a.y, b.y));
    }
  }
}
