/** Rectangles of the window system, and the rectangles a moved window passes to the map. */
module Rects {

  datatype Rect = Rect(x: int, y: int, xsize: int, ysize: int)
  {
    predicate Has(px: int, py: int) {
      x <= px < x + xsize && y <= py < y + ysize
    }

    /** Only the all-zero rectangle counts as empty here. */
    predicate IsEmptyRect() { this == Rect(0, 0, 0, 0) }

    function Intersect(t: Rect): Rect {
      if xsize < 0 || ysize < 0 || t.xsize < 0 || t.ysize < 0 then Rect(0, 0, 0, 0)
      else
        var l, u := Max(x, t.x), Max(y, t.y);
        Rect(l, u, Max(Min(xsize + x - l, t.xsize + t.x - l), 0), Max(Min(ysize + y - u, t.ysize + t.y - u), 0))
    }

    function Union(s: Rect): Rect {
      var l, r := Min(x, s.x), Max(x + xsize, s.x + s.xsize);
      var u, d := Min(y, s.y), Max(y + ysize, s.y + s.ysize);
      Rect(l, u, r - l, d - u)
    }
  }

  function Max(a: int, b: int): int { if a >= b then a else b }

  function Min(a: int, b: int): int { if a <= b then a else b }

  /** The intersection has exactly the common points, for sizes of any sign. */
  lemma IntersectPoints(r: Rect, t: Rect, px: int, py: int)
    ensures r.Intersect(t).Has(px, py) <==> r.Has(px, py) && t.Has(px, py)
  {
  }

  /** Rectangles `SetPosition` recomputes for a move from `prev` to `next`. */
  function MoveRects(prev: Rect, next: Rect): seq<Rect> {
    if prev.Intersect(next).IsEmptyRect() then [prev, next]
    else if prev == next then [prev]
    else if prev.x == next.x || prev.y == next.y then [prev.Union(next)]
    else
      var s1, s2 := if prev.x < next.x then prev else next, if prev.x < next.x then next else prev;
      var dx := s2.x - s1.x;
      var dy := if s2.y >= s1.y then s2.y - s1.y else s1.y - s2.y;
      var w, h := s1.xsize, s1.ysize;
      if s1.y < s2.y then
        [Rect(s1.x, s1.y, w, dy), Rect(s1.x, s2.y, w + dx, h - dy), Rect(s2.x, s1.y + h, w, dy)]
      else
        [Rect(s2.x, s2.y, w, dy), Rect(s1.x, s1.y, w + dx, h - dy), Rect(s1.x, s2.y + h, w, dy)]
  }

  /** Move coverage: every point of the old or the new place lies in one of the rectangles,
      also when the places are disjoint and `h - dy` or `w - dx` is negative. */
  lemma MoveCovers(prev: Rect, next: Rect, px: int, py: int)
    requires prev.xsize == next.xsize && prev.ysize == next.ysize
    requires prev.Has(px, py) || next.Has(px, py)
    ensures exists i | 0 <= i < |MoveRects(prev, next)| :: MoveRects(prev, next)[i].Has(px, py)
  {
    var rs := MoveRects(prev, next);
    if |rs| == 1 {
      assert rs[0].Has(px, py);
    } else if |rs| == 2 {
      assert rs[0].Has(px, py) || rs[1].Has(px, py);
    } else {
      assert rs[0].Has(px, py) || rs[1].Has(px, py) || rs[2].Has(px, py);
    }
  }

  /** Nothing outside the smallest rectangle around both places is recomputed. */
  lemma MoveStaysInside(prev: Rect, next: Rect, i: nat, px: int, py: int)
    requires prev.xsize == next.xsize && prev.ysize == next.ysize && i < |MoveRects(prev, next)|
    requires MoveRects(prev, next)[i].Has(px, py)
    ensures prev.Union(next).Has(px, py)
  {
  }
}
