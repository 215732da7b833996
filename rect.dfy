// Axis-aligned rectangles and per-edge deltas (src/kwinscript/util/rect.ts).
// Coordinates grow to the east (x) and to the south (y); a rectangle spans
// [x, x + width) by [y, y + height).

module Geometry {

  datatype Rect = Rect(x: int, y: int, width: int, height: int)
  {
    function MaxX(): int { x + width }
    function MaxY(): int { y + height }

    /** The centre point, rounded down. */
    function Center(): (int, int)
    {
      (x + width / 2, y + height / 2)
    }

    /** Component-wise equality: exactly equality of the two values. */
    function Equals(other: Rect): (r: bool)
      ensures r <==> this == other
    {
      x == other.x && y == other.y && width == other.width && height == other.height
    }

    /**
     * Shrinks the rectangle: each edge moves inwards by its own amount
     * (negative amounts move it outwards).
     */
    function Gap(left: int, right: int, top: int, bottom: int): (r: Rect)
      ensures r.x == x + left && r.MaxX() == MaxX() - right
      ensures r.y == y + top && r.MaxY() == MaxY() - bottom
    {
      Rect(x + left, y + top, width - (left + right), height - (top + bottom))
    }

    /**
     * `other` starts at or after this rectangle's west and north edges and
     * ends strictly before its east and south edges.
     */
    predicate Includes(other: Rect)
    {
      x <= other.x && y <= other.y && other.MaxX() < MaxX() && other.MaxY() < MaxY()
    }

    /** The point lies in the rectangle, edges included. */
    predicate IncludesPoint(px: int, py: int)
    {
      x <= px <= MaxX() && y <= py <= MaxY()
    }

    /** Component-wise difference. */
    function Subtract(other: Rect): (r: Rect)
      ensures other.x + r.x == x && other.y + r.y == y
      ensures other.width + r.width == width && other.height + r.height == height
    {
      Rect(x - other.x, y - other.y, width - other.width, height - other.height)
    }
  }

  /** Two gaps applied one after the other are one gap by the summed amounts. */
  lemma GapComposes(r: Rect, l1: int, r1: int, t1: int, b1: int, l2: int, r2: int, t2: int, b2: int)
    ensures r.Gap(l1, r1, t1, b1).Gap(l2, r2, t2, b2) == r.Gap(l1 + l2, r1 + r2, t1 + t2, b1 + b2)
  {
  }

  /** Because the east and south edges are strict, no rectangle includes itself. */
  lemma IncludesIrreflexive(r: Rect)
    ensures !r.Includes(r)
  {
  }

  /** Inclusion is transitive. */
  lemma IncludesTransitive(a: Rect, b: Rect, c: Rect)
    requires a.Includes(b) && b.Includes(c)
    ensures a.Includes(c)
  {
  }

  /** The corners of an included rectangle with non-negative sides are points of the outer one. */
  lemma IncludesCorners(a: Rect, c: Rect)
    requires a.Includes(c) && c.width >= 0 && c.height >= 0
    ensures a.IncludesPoint(c.x, c.y) && a.IncludesPoint(c.MaxX(), c.MaxY())
  {
  }

  /** The centre of a rectangle with non-negative sides lies inside it. */
  lemma CenterInside(r: Rect)
    requires r.width >= 0 && r.height >= 0
    ensures r.IncludesPoint(r.Center().0, r.Center().1)
  {
    assert 0 <= r.width / 2 <= r.width;
    assert 0 <= r.height / 2 <= r.height;
  }

  /**
   * Per-edge changes of a rectangle: positive values move the edge outwards,
   * negative ones inwards.
   */
  datatype RectDelta = RectDelta(east: int, west: int, south: int, north: int)

  /** The delta that transforms `basis` into `target`. */
  function FromRects(basis: Rect, target: Rect): (d: RectDelta)
    ensures d.west == basis.x - target.x && d.east == target.MaxX() - basis.MaxX()
    ensures d.north == basis.y - target.y && d.south == target.MaxY() - basis.MaxY()
  {
    var diff := target.Subtract(basis);
    RectDelta(diff.width + diff.x, -diff.x, diff.height + diff.y, -diff.y)
  }

  /** Moving each edge of `basis` outwards by the delta gives back `target`; a rectangle against itself has no delta. */
  lemma FromRectsRoundTrip(basis: Rect, target: Rect)
    ensures var d := FromRects(basis, target);
      basis.Gap(-d.west, -d.east, -d.north, -d.south) == target
    ensures FromRects(basis, basis) == RectDelta(0, 0, 0, 0)
  {
  }

  /** A rectangle object that can be shrunk in place. */
  class RectBox {
    var x: int
    var y: int
    var width: int
    var height: int

    function Value(): Rect
      reads this
    {
      Rect(x, y, width, height)
    }

    constructor (r: Rect)
      ensures Value() == r
    {
      x, y, width, height := r.x, r.y, r.width, r.height;
    }

    /** In-place gap: the object now holds what Gap would have returned. */
    method GapMut(left: int, right: int, top: int, bottom: int)
      modifies this
      ensures Value() == old(Value()).Gap(left, right, top, bottom)
    {
      x := x + left;
      y := y + top;
      width := width - (left + right);
      height := height - (top + bottom);
    }
  }
}
