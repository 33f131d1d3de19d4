/** Axis-aligned rectangles on the tile grid (engine/quadtree/rect.rs). */
module Rects {

  /** Coordinates are u64 in the source; the model uses unbounded naturals. */
  datatype Rect = Rect(minX: nat, maxX: nat, minY: nat, maxY: nat) {

    /** `contains`: inclusive on both the lower and the upper bounds. */
    predicate Contains(x: nat, y: nat) {
      x >= minX && x <= maxX && y >= minY && y <= maxY
    }

    /** `intersects`: the open interiors overlap on both axes. */
    predicate Intersects(other: Rect) {
      maxX > other.minX && minX < other.maxX && maxY > other.minY && minY < other.maxY
    }

    /** `and`: the smallest rectangle covering both. */
    function And(other: Rect): (r: Rect)
      ensures r.minX <= minX && r.minX <= other.minX && (r.minX == minX || r.minX == other.minX)
      ensures r.maxX >= maxX && r.maxX >= other.maxX && (r.maxX == maxX || r.maxX == other.maxX)
      ensures r.minY <= minY && r.minY <= other.minY && (r.minY == minY || r.minY == other.minY)
      ensures r.maxY >= maxY && r.maxY >= other.maxY && (r.maxY == maxY || r.maxY == other.maxY)
    {
      Rect(Min(minX, other.minX), Max(maxX, other.maxX), Min(minY, other.minY), Max(maxY, other.maxY))
    }
  }

  function Min(a: nat, b: nat): nat { if a <= b then a else b }
  function Max(a: nat, b: nat): nat { if a >= b then a else b }

  /** `Rect::xywh`: the rectangle from (x, y) spanning w by h, which contains exactly those points. */
  function Xywh(x: nat, y: nat, w: nat, h: nat): (r: Rect)
    ensures forall px: nat, py: nat :: r.Contains(px, py) <==> x <= px <= x + w && y <= py <= y + h
  {
    Rect(x, x + w, y, y + h)
  }

  /** `Rect::corners`: upper-left and bottom-right corners, stored unchanged. */
  function Corners(ulx: nat, uly: nat, brx: nat, bry: nat): (r: Rect)
    ensures r.Contains(ulx, uly) <==> ulx <= brx && uly <= bry
    ensures r.Contains(brx, bry) <==> ulx <= brx && uly <= bry
    ensures ulx <= brx && uly <= bry ==> r == Xywh(ulx, uly, brx - ulx, bry - uly)
  {
    Rect(ulx, brx, uly, bry)
  }

  lemma IntersectsSymmetric(a: Rect, b: Rect)
    ensures a.Intersects(b) <==> b.Intersects(a)
  {
  }

  /** Rectangles that only share an edge do not intersect, although both contain the edge. */
  lemma IntersectsStrict(a: Rect, b: Rect)
    requires a.maxX == b.minX
    ensures !a.Intersects(b) && !b.Intersects(a)
  {
  }

  lemma AndCoversBoth(a: Rect, b: Rect, x: nat, y: nat)
    ensures a.Contains(x, y) || b.Contains(x, y) ==> a.And(b).Contains(x, y)
  {
  }

  lemma AndCommutative(a: Rect, b: Rect)
    ensures a.And(b) == b.And(a)
  {
  }

  lemma AndIdempotent(a: Rect)
    ensures a.And(a) == a
  {
  }

  lemma AndAssociative(a: Rect, b: Rect, c: Rect)
    ensures a.And(b).And(c) == a.And(b.And(c))
  {
  }
}
