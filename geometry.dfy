/** Plane geometry of the drag selection: points, axis-aligned rectangles,
    the intersection test, and the drag rectangle spanned by the anchor
    (where the pointer went down) and the pointer's current position.
    Pixel coordinates are integers here. */
module Geometry {

  datatype Point = Point(x: int, y: int)

  /** A rectangle given by its top-left corner and its extents, as a
      bounding box or a positioned element reports it. */
  datatype Rect = Rect(x: int, y: int, width: int, height: int)

  function Min(a: int, b: int): int { if a <= b then a else b }
  function Max(a: int, b: int): int { if a <= b then b else a }
  function Abs(a: int): nat { if a < 0 then -a else a }

  /** The separating-axis test: the rectangles intersect unless one lies
      strictly left of, right of, above or below the other. */
  predicate Intersects(r1: Rect, r2: Rect) {
    !(r1.x + r1.width < r2.x ||
      r2.x + r2.width < r1.x ||
      r1.y + r1.height < r2.y ||
      r2.y + r2.height < r1.y)
  }

  /** The test reads each rectangle as the closed intervals
      [x, x + width] and [y, y + height], and holds exactly when both pairs
      of intervals overlap. */
  lemma IntersectsIffIntervalsOverlap(r1: Rect, r2: Rect)
    requires r1.width >= 0 && r1.height >= 0 && r2.width >= 0 && r2.height >= 0
    ensures Intersects(r1, r2) <==>
      Max(r1.x, r2.x) <= Min(r1.x + r1.width, r2.x + r2.width) &&
      Max(r1.y, r2.y) <= Min(r1.y + r1.height, r2.y + r2.height)
  {
  }

  /** `p` lies in `r`, boundary included. */
  predicate Contains(r: Rect, p: Point) {
    r.x <= p.x <= r.x + r.width && r.y <= p.y <= r.y + r.height
  }

  /** For rectangles of non-negative size, the test holds exactly when the
      two closed rectangles share a point. */
  lemma IntersectsIffCommonPoint(r1: Rect, r2: Rect)
    requires r1.width >= 0 && r1.height >= 0 && r2.width >= 0 && r2.height >= 0
    ensures Intersects(r1, r2) <==> exists p :: Contains(r1, p) && Contains(r2, p)
  {
    if Intersects(r1, r2) {
      var p := Point(Max(r1.x, r2.x), Max(r1.y, r2.y));
      assert Contains(r1, p) && Contains(r2, p);
    }
  }

  /** The test does not depend on the order of its arguments. */
  lemma IntersectsSymmetric(r1: Rect, r2: Rect)
    ensures Intersects(r1, r2) == Intersects(r2, r1)
  {
  }

  /** Rectangles that only share an edge or a corner intersect. */
  lemma TouchingRectsIntersect()
    ensures Intersects(Rect(0, 0, 10, 10), Rect(10, 0, 10, 10))
    ensures Intersects(Rect(0, 0, 10, 10), Rect(10, 10, 10, 10))
    ensures !Intersects(Rect(0, 0, 10, 10), Rect(11, 0, 10, 10))
  {
  }

  /** A zero-size rectangle intersects a rectangle of non-negative size
      exactly when its point lies in it, boundary included. */
  lemma PointRectIntersects(p: Point, r: Rect)
    requires r.width >= 0 && r.height >= 0
    ensures Intersects(Rect(p.x, p.y, 0, 0), r) <==> Contains(r, p)
  {
  }

  /** Moving both rectangles by the same offset keeps the test's answer. */
  lemma IntersectsTranslated(r1: Rect, r2: Rect, dx: int, dy: int)
    ensures Intersects(Translate(r1, dx, dy), Translate(r2, dx, dy)) == Intersects(r1, r2)
  {
  }

  /** `r` moved by `dx` to the right and `dy` down. */
  function Translate(r: Rect, dx: int, dy: int): Rect {
    Rect(r.x + dx, r.y + dy, r.width, r.height)
  }

  /** The rectangle the drag overlay takes when the pointer went down at
      `anchor` and is now at `current`: the left edge moves by the offset
      when that offset is negative, and the extents are its magnitude. */
  function DragRect(anchor: Point, current: Point): (r: Rect)
    ensures r.x == Min(anchor.x, current.x) && r.y == Min(anchor.y, current.y)
    ensures r.x + r.width == Max(anchor.x, current.x)
    ensures r.y + r.height == Max(anchor.y, current.y)
    ensures r.width >= 0 && r.height >= 0
  {
    var diffX := current.x - anchor.x;
    var diffY := current.y - anchor.y;
    Rect(if diffX < 0 then anchor.x + diffX else anchor.x,
         if diffY < 0 then anchor.y + diffY else anchor.y,
         Abs(diffX), Abs(diffY))
  }

  /** The anchor and the current point are opposite corners of the drag
      rectangle, whatever the direction of the drag. */
  lemma DragRectCorners(anchor: Point, current: Point)
    ensures var r := DragRect(anchor, current);
      {anchor.x, current.x} == {r.x, r.x + r.width} &&
      {anchor.y, current.y} == {r.y, r.y + r.height}
  {
  }

  /** Swapping anchor and current point gives the same rectangle. */
  lemma DragRectSymmetric(anchor: Point, current: Point)
    ensures DragRect(anchor, current) == DragRect(current, anchor)
  {
  }

  /** Before the pointer moves, the drag rectangle has no size and sits at
      the anchor. */
  lemma DragRectAtAnchor(anchor: Point)
    ensures DragRect(anchor, anchor) == Rect(anchor.x, anchor.y, 0, 0)
  {
  }
}
