/**
 * Geometry of a click: the mapping from rendered pixels to document coordinates
 * and the fixed-size rectangle a highlight covers.
 */
module Geometry {
  import opened Wrappers

  datatype Point = Point(x: real, y: real)

  /** A rectangle given by its top-left (x0, y0) and bottom-right (x1, y1) corners. */
  datatype Rect = Rect(x0: real, y0: real, x1: real, y1: real) {
    function Width(): real { x1 - x0 }
    function Height(): real { y1 - y0 }
    function Centre(): Point { Point((x0 + x1) / 2.0, (y0 + y1) / 2.0) }
    predicate Contains(p: Point) { x0 <= p.x <= x1 && y0 <= p.y <= y1 }
  }

  /** Half the width and half the height of a highlight rectangle, in document units. */
  const HalfWidth: real := 20.0
  const HalfHeight: real := 5.0

  /**
   * A click at pixel `p` in a page rendered at `scale` lands at `p / scale` in the document;
   * a zero scale makes the division fail.
   */
  function ToDocument(p: Point, scale: real): (r: Option<Point>)
    ensures r.Some? <==> scale != 0.0
    ensures r.Some? ==> r.value.x * scale == p.x && r.value.y * scale == p.y
  {
    if scale == 0.0 then None else Some(Point(p.x / scale, p.y / scale))
  }

  /** The rectangle a highlight at document point `p` covers. */
  function HighlightRect(p: Point): (r: Rect)
    ensures r.Centre() == p
    ensures r.Width() == 2.0 * HalfWidth && r.Height() == 2.0 * HalfHeight
  {
    Rect(p.x - HalfWidth, p.y - HalfHeight, p.x + HalfWidth, p.y + HalfHeight)
  }

  /** The document point is the only point that scales back to the click. */
  lemma ToDocumentUnique(p: Point, scale: real, q: Point)
    requires scale != 0.0 && q.x * scale == p.x && q.y * scale == p.y
    ensures ToDocument(p, scale) == Some(q)
  {
    assert q.x == (q.x * scale) / scale;
    assert q.y == (q.y * scale) / scale;
  }

  /** A highlight placed by a click covers the click's document point, and its centre scales back to the click. */
  lemma HighlightCoversClick(p: Point, scale: real)
    requires scale != 0.0
    ensures var q := ToDocument(p, scale).value;
      HighlightRect(q).Contains(q) &&
      HighlightRect(q).Centre().x * scale == p.x && HighlightRect(q).Centre().y * scale == p.y
  {
  }

  /** A click at pixel (100, 40) at scale 2 gives the rectangle (30, 15)-(70, 25). */
  lemma ScaledClickExample()
    ensures ToDocument(Point(100.0, 40.0), 2.0) == Some(Point(50.0, 20.0))
    ensures HighlightRect(Point(50.0, 20.0)) == Rect(30.0, 15.0, 70.0, 25.0)
  {
  }
}
