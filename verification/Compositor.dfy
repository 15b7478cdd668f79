/** The window compositor. A parent sheet keeps, for every pixel, the child that owns it; the
    owner is the topmost child that covers the pixel opaquely. The map is maintained
    rectangle by rectangle and the frame buffer follows it. */
module Compositor {
  import opened Basics
  import opened Rects

  // ----- Children as values, bottom first -----

  datatype View = View(rect: Rect, alpha: bool, ppl: nat, pixels: seq<nat>)
  {
    /** The buffer holds every pixel of the rectangle. */
    predicate Sized() {
      0 <= rect.xsize <= ppl && 0 <= rect.ysize && rect.ysize * ppl <= |pixels|
    }

    function Ofs(x: int, y: int): int { (y - rect.y) * ppl + (x - rect.x) }

    function Pixel(x: int, y: int): nat
      requires Sized() && rect.Has(x, y)
    {
      OfsInBuffer(this, x, y);
      pixels[Ofs(x, y)]
    }

    /** The sheet shows here: an alpha sheet hides where the top byte of the pixel is zero. */
    predicate Covers(x: int, y: int) {
      Sized() && rect.Has(x, y) && (alpha ==> Pixel(x, y) / 0x100_0000 != 0)
    }
  }

  lemma RowBound(a: int, h: int, b: int, w: int)
    requires 0 <= a < h && 0 <= b < w
    ensures 0 <= a * w + b < h * w
  {
    assert (a + 1) * w <= h * w;
  }

  lemma OfsInBuffer(v: View, x: int, y: int)
    requires v.Sized() && v.rect.Has(x, y)
    ensures 0 <= v.Ofs(x, y) < |v.pixels|
  {
    RowBound(y - v.rect.y, v.rect.ysize, x - v.rect.x, v.ppl);
  }

  /** Pixels stand row by row: column `c` of row `r` is word `r * ppl + c` of the buffer, and an
      alpha sheet covers it exactly when the top byte of that word is not zero. */
  lemma PixelWord(v: View, r: nat, c: nat)
    requires v.Sized() && r < v.rect.ysize && c < v.rect.xsize
    ensures 0 <= r * v.ppl + c < |v.pixels|
    ensures v.rect.Has(v.rect.x + c, v.rect.y + r) && v.Pixel(v.rect.x + c, v.rect.y + r) == v.pixels[r * v.ppl + c]
    ensures v.Covers(v.rect.x + c, v.rect.y + r) <==> (v.alpha ==> v.pixels[r * v.ppl + c] / 0x100_0000 != 0)
  {
    RowBound(r, v.rect.ysize, c, v.ppl);
  }

  ghost predicate AllSized(vs: seq<View>) {
    forall i | 0 <= i < |vs| :: vs[i].Sized()
  }

  /** Index of the topmost of the first `k` children that covers the point, or -1. */
  function TopOf(vs: seq<View>, k: nat, x: int, y: int): (t: int)
    requires k <= |vs| && AllSized(vs)
    ensures -1 <= t < k
    ensures t >= 0 ==> vs[t].Covers(x, y)
    ensures forall j | t < j < k :: !vs[j].Covers(x, y)
  {
    if k == 0 then -1 else if vs[k - 1].Covers(x, y) then k - 1 else TopOf(vs, k - 1, x, y)
  }

  function Top(vs: seq<View>, x: int, y: int): int
    requires AllSized(vs)
  {
    TopOf(vs, |vs|, x, y)
  }

  /** The covering child with nothing covering above it is the top. */
  lemma TopIs(vs: seq<View>, x: int, y: int, t: int)
    requires AllSized(vs) && -1 <= t < |vs|
    requires t >= 0 ==> vs[t].Covers(x, y)
    requires forall j | t < j < |vs| :: !vs[j].Covers(x, y)
    ensures Top(vs, x, y) == t
  {
  }

  /** Where the child covers neither before nor after, the owner is the same. */
  lemma ChangeElsewhere(vs: seq<View>, i: nat, v: View, x: int, y: int)
    requires i < |vs| && AllSized(vs) && v.Sized()
    requires !vs[i].Covers(x, y) && !v.Covers(x, y)
    ensures AllSized(vs[i := v]) && Top(vs[i := v], x, y) == Top(vs, x, y)
  {
    TopIs(vs[i := v], x, y, Top(vs, x, y));
  }

  /** A pixel only changes hands to another child when the changed one uncovers a lower one. */
  lemma ChangeReveals(vs: seq<View>, i: nat, v: View, x: int, y: int)
    requires i < |vs| && AllSized(vs) && v.Sized()
    requires Top(vs[i := v], x, y) != i && Top(vs[i := v], x, y) != Top(vs, x, y)
    ensures AllSized(vs[i := v]) && Top(vs, x, y) == i && Top(vs[i := v], x, y) < i
  {
    var vs' := vs[i := v];
    var t, t' := Top(vs, x, y), Top(vs', x, y);
    assert forall j | 0 <= j < |vs| && j != i :: vs'[j] == vs[j];
    if t > i {
      TopIs(vs', x, y, t);
    } else if t < i {
      assert !vs[i].Covers(x, y);
      TopIs(vs, x, y, t');
    }
  }

  /** Inserting a child changes owners only where it covers. */
  lemma InsertElsewhere(vs: seq<View>, k: nat, v: View, x: int, y: int)
    requires k <= |vs| && AllSized(vs) && v.Sized()
    ensures var vs' := vs[..k] + [v] + vs[k..];
            && AllSized(vs')
            && var t, t' := Top(vs, x, y), Top(vs', x, y);
            && (t' == k ==> v.Covers(x, y))
            && (t' != k ==> t' == if t < k then t else t + 1)
  {
    var vs' := vs[..k] + [v] + vs[k..];
    var t := Top(vs, x, y);
    assert forall j | 0 <= j < |vs'| :: vs'[j] == if j < k then vs[j] else if j == k then v else vs[j - 1];
    if t >= k {
      TopIs(vs', x, y, t + 1);
    } else if v.Covers(x, y) {
      TopIs(vs', x, y, k);
    } else {
      TopIs(vs', x, y, t);
    }
  }

  // ----- Pixels of the parent -----

  function Idx(w: nat, x: int, y: int): int { y * w + x }

  lemma IdxUnique(w: nat, x: int, y: int, x': int, y': int)
    requires 0 <= x < w && 0 <= x' < w && Idx(w, x, y) == Idx(w, x', y')
    ensures x == x' && y == y'
  {
    assert y < y' ==> (y + 1) * w <= y' * w;
    assert y' < y ==> (y' + 1) * w <= y * w;
  }

  /** Row-by-row order: the point comes before `(x', y')`. */
  predicate Before(x: int, y: int, x': int, y': int) { y < y' || (y == y' && x < x') }

  class Sheet {
    var rect: Rect
    var alpha: bool
    var topmost: bool
    const ppl: nat
    const buf: array<nat>

    constructor (buf: array<nat>, xsize: int, ysize: int, ppl: nat, x: int, y: int)
      ensures rect == Rect(x, y, xsize, ysize) && !alpha && !topmost && this.ppl == ppl && this.buf == buf
    {
      this.buf, this.ppl := buf, ppl;
      rect, alpha, topmost := Rect(x, y, xsize, ysize), false, false;
    }
  }

  /** What a loop over a rectangle writes at each pixel, `None` where it skips. */
  type Brush<!T> = (int, int) -> Option<T>

  /** Clearing the map. */
  ghost function Blank(): Brush<Sheet?> { (x, y) => Some(null) }

  /** Entering a child into the map where it covers. */
  ghost function Enter(v: View, s: Sheet): Brush<Sheet?> {
    (x, y) => if v.Covers(x, y) then Some(s) else None
  }

  /** Copying a child's pixels into the frame buffer where it is the owner. */
  ghost function Show(map_: seq<Sheet?>, w: nat, v: View, s: Sheet): Brush<nat> {
    (x, y) => if 0 <= Idx(w, x, y) < |map_| && map_[Idx(w, x, y)] == s && v.Sized() && v.rect.Has(x, y)
              then Some(v.Pixel(x, y)) else None
  }

  /** Pixels of `r` before `(x', y')` are brushed; all others are as in `m`. */
  ghost predicate PaintedAt<T>(m: seq<T>, m': seq<T>, w: nat, f: Brush<T>, r: Rect, x': int, y': int, x: int, y: int) {
    && 0 <= Idx(w, x, y) < |m| && |m'| == |m|
    && m'[Idx(w, x, y)] == if r.Has(x, y) && Before(x, y, x', y') && f(x, y).Some? then f(x, y).value else m[Idx(w, x, y)]
  }

  ghost predicate Painted<T>(m: seq<T>, m': seq<T>, client: Rect, f: Brush<T>, r: Rect, x': int, y': int)
    requires client.xsize >= 0
  {
    forall x, y | client.Has(x, y) :: PaintedAt(m, m', client.xsize, f, r, x', y', x, y)
  }

  /** The map is large enough for the client area. */
  predicate Fits(client: Rect, n: nat) {
    client.x == 0 && client.y == 0 && client.xsize >= 0 && client.ysize >= 0 && client.ysize * client.xsize <= n
  }

  lemma IdxFits(client: Rect, n: nat, x: int, y: int)
    requires Fits(client, n) && client.Has(x, y)
    ensures 0 <= Idx(client.xsize, x, y) < n
  {
    RowBound(y, client.ysize, x, client.xsize);
  }

  lemma PaintStarts<T>(m: seq<T>, client: Rect, f: Brush<T>, r: Rect)
    requires Fits(client, |m|)
    ensures Painted(m, m, client, f, r, r.x, r.y)
  {
    forall x, y | client.Has(x, y) ensures PaintedAt(m, m, client.xsize, f, r, r.x, r.y, x, y) {
      IdxFits(client, |m|, x, y);
    }
  }

  /** One pixel on. */
  lemma PaintStep<T>(m: seq<T>, m1: seq<T>, m2: seq<T>, client: Rect, f: Brush<T>, r: Rect, x: int, y: int)
    requires Fits(client, |m|) && |m1| == |m| && Painted(m, m1, client, f, r, x, y)
    requires client.Has(x, y) && r.Has(x, y) && 0 <= Idx(client.xsize, x, y) < |m|
    requires m2 == if f(x, y).Some? then m1[Idx(client.xsize, x, y) := f(x, y).value] else m1
    ensures Painted(m, m2, client, f, r, x + 1, y)
  {
    var w, next := client.xsize, x + 1;
    forall a, b | client.Has(a, b) ensures PaintedAt(m, m2, w, f, r, next, y, a, b) {
      assert PaintedAt(m, m1, w, f, r, x, y, a, b);
      if Idx(w, a, b) == Idx(w, x, y) {
        IdxUnique(w, a, b, x, y);
      }
    }
  }

  /** End of a line: what comes before its end comes before the next line, within `r`. */
  lemma PaintLine<T>(m: seq<T>, m': seq<T>, client: Rect, f: Brush<T>, r: Rect, x: int, y: int)
    requires client.xsize >= 0 && Painted(m, m', client, f, r, x, y) && x >= r.x + r.xsize
    ensures Painted(m, m', client, f, r, r.x, y + 1)
  {
    var next := y + 1;
    forall a, b | client.Has(a, b) ensures PaintedAt(m, m', client.xsize, f, r, r.x, next, a, b) {
      assert PaintedAt(m, m', client.xsize, f, r, x, y, a, b);
    }
  }

  /** The whole rectangle is brushed, and nothing else. */
  ghost predicate Brushed<T>(m: seq<T>, m': seq<T>, client: Rect, f: Brush<T>, r: Rect)
    requires client.xsize >= 0
  {
    forall x, y | client.Has(x, y) :: BrushedAt(m, m', client.xsize, f, r, x, y)
  }

  ghost predicate BrushedAt<T>(m: seq<T>, m': seq<T>, w: nat, f: Brush<T>, r: Rect, x: int, y: int) {
    && 0 <= Idx(w, x, y) < |m| && |m'| == |m|
    && m'[Idx(w, x, y)] == if r.Has(x, y) && f(x, y).Some? then f(x, y).value else m[Idx(w, x, y)]
  }

  lemma PaintEnds<T>(m: seq<T>, m': seq<T>, client: Rect, f: Brush<T>, r: Rect, x: int, y: int)
    requires client.xsize >= 0 && Painted(m, m', client, f, r, x, y) && y >= r.y + r.ysize
    ensures Brushed(m, m', client, f, r)
  {
    forall a, b | client.Has(a, b) ensures BrushedAt(m, m', client.xsize, f, r, a, b) {
      assert PaintedAt(m, m', client.xsize, f, r, x, y, a, b);
    }
  }

  // ----- The owner map -----

  ghost function RefAt(children: seq<Sheet>, t: int): Sheet?
    requires t < |children|
  {
    if t < 0 then null else children[t]
  }

  /** Inside `t` the map shows the topmost of the first `k` children, outside it is as in `m`. */
  ghost predicate OwnedAt(m: seq<Sheet?>, m': seq<Sheet?>, w: nat, t: Rect, vs: seq<View>, children: seq<Sheet>, k: nat, x: int, y: int)
    requires k <= |vs| == |children| && AllSized(vs)
  {
    && 0 <= Idx(w, x, y) < |m| && |m'| == |m|
    && m'[Idx(w, x, y)] == if t.Has(x, y) then RefAt(children, TopOf(vs, k, x, y)) else m[Idx(w, x, y)]
  }

  ghost predicate Owned(m: seq<Sheet?>, m': seq<Sheet?>, client: Rect, t: Rect, vs: seq<View>, children: seq<Sheet>, k: nat)
    requires k <= |vs| == |children| && AllSized(vs) && client.xsize >= 0
  {
    forall x, y | client.Has(x, y) :: OwnedAt(m, m', client.xsize, t, vs, children, k, x, y)
  }

  lemma OwnedStarts(m: seq<Sheet?>, m': seq<Sheet?>, client: Rect, t: Rect, vs: seq<View>, children: seq<Sheet>)
    requires |vs| == |children| && AllSized(vs) && client.xsize >= 0 && Brushed(m, m', client, Blank(), t)
    ensures Owned(m, m', client, t, vs, children, 0)
  {
    forall x, y | client.Has(x, y) ensures OwnedAt(m, m', client.xsize, t, vs, children, 0, x, y) {
      assert BrushedAt(m, m', client.xsize, Blank(), t, x, y);
    }
  }

  lemma OwnedNext(m: seq<Sheet?>, m1: seq<Sheet?>, m2: seq<Sheet?>, client: Rect, t: Rect, vs: seq<View>, children: seq<Sheet>, k: nat)
    requires k < |vs| == |children| && AllSized(vs) && client.xsize >= 0
    requires Owned(m, m1, client, t, vs, children, k)
    requires Brushed(m1, m2, client, Enter(vs[k], children[k]), t.Intersect(vs[k].rect))
    ensures Owned(m, m2, client, t, vs, children, k + 1)
  {
    var next := k + 1;
    forall x, y | client.Has(x, y) ensures OwnedAt(m, m2, client.xsize, t, vs, children, next, x, y) {
      assert OwnedAt(m, m1, client.xsize, t, vs, children, k, x, y);
      assert BrushedAt(m1, m2, client.xsize, Enter(vs[k], children[k]), t.Intersect(vs[k].rect), x, y);
      IntersectPoints(t, vs[k].rect, x, y);
    }
  }

  /** The map is right at a pixel: it names the topmost child that covers it, or nobody. */
  ghost predicate RightAt(m: seq<Sheet?>, w: nat, vs: seq<View>, children: seq<Sheet>, x: int, y: int)
    requires |vs| == |children| && AllSized(vs)
  {
    0 <= Idx(w, x, y) < |m| && m[Idx(w, x, y)] == RefAt(children, Top(vs, x, y))
  }

  ghost predicate MapRight(m: seq<Sheet?>, client: Rect, vs: seq<View>, children: seq<Sheet>)
    requires |vs| == |children| && AllSized(vs) && client.xsize >= 0
  {
    forall x, y | client.Has(x, y) :: RightAt(m, client.xsize, vs, children, x, y)
  }

  /** The frame buffer shows the owner's pixel wherever a pixel has an owner. */
  ghost predicate ShownAt(b: seq<nat>, w: nat, vs: seq<View>, x: int, y: int)
    requires AllSized(vs)
  {
    && 0 <= Idx(w, x, y) < |b|
    && var t := Top(vs, x, y);
    t >= 0 ==> b[Idx(w, x, y)] == vs[t].Pixel(x, y)
  }

  ghost predicate Coherent(b: seq<nat>, client: Rect, vs: seq<View>)
    requires AllSized(vs) && client.xsize >= 0
  {
    forall x, y | client.Has(x, y) :: ShownAt(b, client.xsize, vs, x, y)
  }

  // ----- Moving a child -----

  /** The point lies in one of the first `k` rectangles. */
  ghost predicate InSome(rs: seq<Rect>, k: nat, x: int, y: int)
    requires k <= |rs|
  {
    exists i | 0 <= i < k :: rs[i].Has(x, y)
  }

  /** The map is right inside the first `k` rectangles, and as in `m` elsewhere. */
  ghost predicate RecomputedAt(m: seq<Sheet?>, m': seq<Sheet?>, w: nat, rs: seq<Rect>, k: nat,
                               vs: seq<View>, children: seq<Sheet>, x: int, y: int)
    requires k <= |rs| && |vs| == |children| && AllSized(vs)
  {
    && 0 <= Idx(w, x, y) < |m| && |m'| == |m|
    && (if InSome(rs, k, x, y) then RightAt(m', w, vs, children, x, y) else m'[Idx(w, x, y)] == m[Idx(w, x, y)])
  }

  ghost predicate Recomputed(m: seq<Sheet?>, m': seq<Sheet?>, client: Rect, rs: seq<Rect>, k: nat, vs: seq<View>, children: seq<Sheet>)
    requires k <= |rs| && |vs| == |children| && AllSized(vs) && client.xsize >= 0
  {
    forall x, y | client.Has(x, y) :: RecomputedAt(m, m', client.xsize, rs, k, vs, children, x, y)
  }

  lemma RecomputeStarts(m: seq<Sheet?>, client: Rect, rs: seq<Rect>, vs: seq<View>, children: seq<Sheet>)
    requires |vs| == |children| && AllSized(vs) && Fits(client, |m|)
    ensures Recomputed(m, m, client, rs, 0, vs, children)
  {
    forall x, y | client.Has(x, y) ensures RecomputedAt(m, m, client.xsize, rs, 0, vs, children, x, y) {
      IdxFits(client, |m|, x, y);
    }
  }

  lemma RecomputeNext(m: seq<Sheet?>, m1: seq<Sheet?>, m2: seq<Sheet?>, client: Rect, rs: seq<Rect>, k: nat,
                      vs: seq<View>, children: seq<Sheet>)
    requires k < |rs| && |vs| == |children| && AllSized(vs) && client.xsize >= 0
    requires Recomputed(m, m1, client, rs, k, vs, children)
    requires Owned(m1, m2, client, rs[k].Intersect(client), vs, children, |vs|)
    ensures Recomputed(m, m2, client, rs, k + 1, vs, children)
  {
    var next := k + 1;
    forall x, y | client.Has(x, y) ensures RecomputedAt(m, m2, client.xsize, rs, next, vs, children, x, y) {
      assert RecomputedAt(m, m1, client.xsize, rs, k, vs, children, x, y);
      assert OwnedAt(m1, m2, client.xsize, rs[k].Intersect(client), vs, children, |vs|, x, y);
      IntersectPoints(rs[k], client, x, y);
      assert InSome(rs, next, x, y) <==> InSome(rs, k, x, y) || rs[k].Has(x, y);
    }
  }

  /** `vs0` with child `i` moved or made translucent, its pixels and size the same. */
  ghost predicate Changed(vs0: seq<View>, vs: seq<View>, i: nat) {
    && i < |vs0| == |vs| && AllSized(vs0) && AllSized(vs) && vs == vs0[i := vs[i]]
    && vs[i].rect.xsize == vs0[i].rect.xsize && vs[i].rect.ysize == vs0[i].rect.ysize
  }

  /** Recomputing the rectangles of the move puts the whole map right. */
  lemma MoveRight(m0: seq<Sheet?>, m: seq<Sheet?>, client: Rect, vs0: seq<View>, vs: seq<View>, children: seq<Sheet>, i: nat)
    requires Changed(vs0, vs, i) && |vs| == |children| && client.xsize >= 0
    requires MapRight(m0, client, vs0, children)
    requires var rs := MoveRects(vs0[i].rect, vs[i].rect); Recomputed(m0, m, client, rs, |rs|, vs, children)
    ensures MapRight(m, client, vs, children)
  {
    var rs := MoveRects(vs0[i].rect, vs[i].rect);
    forall x, y | client.Has(x, y) ensures RightAt(m, client.xsize, vs, children, x, y) {
      assert RecomputedAt(m0, m, client.xsize, rs, |rs|, vs, children, x, y);
      if !InSome(rs, |rs|, x, y) {
        if vs0[i].rect.Has(x, y) || vs[i].rect.Has(x, y) {
          MoveCovers(vs0[i].rect, vs[i].rect, x, y);
        }
        assert RightAt(m0, client.xsize, vs0, children, x, y);
        ChangeElsewhere(vs0, i, vs[i], x, y);
      }
    }
  }

  /** Pixels still to be flushed after a change of child `i`: those it now owns, and those it
      uncovered in its old place, owned by lower children from `k` on. */
  ghost predicate PendingAt(vs: seq<View>, i: nat, prev: Rect, k: nat, x: int, y: int)
    requires AllSized(vs)
  {
    var t := Top(vs, x, y);
    t == i || (k <= t < i && prev.Has(x, y))
  }

  ghost predicate AlmostShown(b: seq<nat>, client: Rect, vs: seq<View>, i: nat, prev: Rect, k: nat)
    requires AllSized(vs) && client.xsize >= 0
  {
    forall x, y | client.Has(x, y) ::
      0 <= Idx(client.xsize, x, y) < |b| && (PendingAt(vs, i, prev, k, x, y) || ShownAt(b, client.xsize, vs, x, y))
  }

  /** Before any flush, only what the move exposed is stale. */
  lemma StaleAfterMove(b: seq<nat>, client: Rect, vs0: seq<View>, vs: seq<View>, i: nat)
    requires Changed(vs0, vs, i) && client.xsize >= 0 && Coherent(b, client, vs0)
    ensures AlmostShown(b, client, vs, i, vs0[i].rect, 0)
  {
    forall x, y | client.Has(x, y)
      ensures 0 <= Idx(client.xsize, x, y) < |b|
      ensures PendingAt(vs, i, vs0[i].rect, 0, x, y) || ShownAt(b, client.xsize, vs, x, y)
    {
      assert ShownAt(b, client.xsize, vs0, x, y);
      if Top(vs, x, y) != i && Top(vs, x, y) != Top(vs0, x, y) {
        ChangeReveals(vs0, i, vs[i], x, y);
      }
    }
  }

  /** At a pixel the map assigns to child `k`, and only there, flushing `k` shows its pixel. */
  lemma ShowAt(m: seq<Sheet?>, client: Rect, vs: seq<View>, children: seq<Sheet>, k: nat, x: int, y: int)
    requires |vs| == |children| && AllSized(vs) && k < |vs| && client.xsize >= 0 && MapRight(m, client, vs, children)
    requires (forall i, j | 0 <= i < j < |children| :: children[i] != children[j]) && client.Has(x, y)
    ensures var f := Show(m, client.xsize, vs[k], children[k]);
            if Top(vs, x, y) == k then f(x, y) == Some(vs[k].Pixel(x, y)) else f(x, y) == None
  {
    assert RightAt(m, client.xsize, vs, children, x, y);
  }

  lemma FlushLower(m: seq<Sheet?>, b: seq<nat>, b': seq<nat>, client: Rect, vs: seq<View>, children: seq<Sheet>,
                   i: nat, prev: Rect, k: nat)
    requires |vs| == |children| && AllSized(vs) && k < i < |vs| && client.xsize >= 0 && MapRight(m, client, vs, children)
    requires forall i, j | 0 <= i < j < |children| :: children[i] != children[j]
    requires AlmostShown(b, client, vs, i, prev, k)
    requires Brushed(b, b', client, Show(m, client.xsize, vs[k], children[k]), client.Intersect(prev))
    ensures AlmostShown(b', client, vs, i, prev, k + 1)
  {
    forall x, y | client.Has(x, y)
      ensures 0 <= Idx(client.xsize, x, y) < |b'|
      ensures PendingAt(vs, i, prev, k + 1, x, y) || ShownAt(b', client.xsize, vs, x, y)
    {
      assert BrushedAt(b, b', client.xsize, Show(m, client.xsize, vs[k], children[k]), client.Intersect(prev), x, y);
      assert PendingAt(vs, i, prev, k, x, y) || ShownAt(b, client.xsize, vs, x, y);
      ShowAt(m, client, vs, children, k, x, y);
      IntersectPoints(client, prev, x, y);
    }
  }

  lemma FlushSelf(m: seq<Sheet?>, b: seq<nat>, b': seq<nat>, client: Rect, vs: seq<View>, children: seq<Sheet>, i: nat, prev: Rect)
    requires |vs| == |children| && AllSized(vs) && i < |vs| && client.xsize >= 0 && MapRight(m, client, vs, children)
    requires forall i, j | 0 <= i < j < |children| :: children[i] != children[j]
    requires AlmostShown(b, client, vs, i, prev, i)
    requires Brushed(b, b', client, Show(m, client.xsize, vs[i], children[i]), client.Intersect(vs[i].rect))
    ensures Coherent(b', client, vs)
  {
    forall x, y | client.Has(x, y) ensures ShownAt(b', client.xsize, vs, x, y) {
      assert BrushedAt(b, b', client.xsize, Show(m, client.xsize, vs[i], children[i]), client.Intersect(vs[i].rect), x, y);
      assert PendingAt(vs, i, prev, i, x, y) || ShownAt(b, client.xsize, vs, x, y);
      ShowAt(m, client, vs, children, i, x, y);
      IntersectPoints(client, vs[i].rect, x, y);
    }
  }

  // ----- Adding a child, painting a child -----

  ghost function Inserted<T>(xs: seq<T>, k: nat, x: T): seq<T>
    requires k <= |xs|
  {
    xs[..k] + [x] + xs[k..]
  }

  /** Outside the new child the old owners stay, under their shifted positions. */
  lemma InsertRight(m0: seq<Sheet?>, m: seq<Sheet?>, client: Rect, vs: seq<View>, children: seq<Sheet>, k: nat, v: View, s: Sheet)
    requires |vs| == |children| && AllSized(vs) && k <= |vs| && v.Sized() && AllSized(Inserted(vs, k, v)) && client.xsize >= 0
    requires MapRight(m0, client, vs, children)
    requires Owned(m0, m, client, v.rect.Intersect(client), Inserted(vs, k, v), Inserted(children, k, s), |vs| + 1)
    ensures MapRight(m, client, Inserted(vs, k, v), Inserted(children, k, s))
  {
    var vs', cs' := Inserted(vs, k, v), Inserted(children, k, s);
    forall x, y | client.Has(x, y) ensures RightAt(m, client.xsize, vs', cs', x, y) {
      assert OwnedAt(m0, m, client.xsize, v.rect.Intersect(client), vs', cs', |vs| + 1, x, y);
      assert RightAt(m0, client.xsize, vs, children, x, y);
      IntersectPoints(v.rect, client, x, y);
      InsertElsewhere(vs, k, v, x, y);
    }
  }

  lemma InsertShown(m: seq<Sheet?>, b: seq<nat>, b': seq<nat>, client: Rect, vs: seq<View>, children: seq<Sheet>, k: nat, v: View, area: Rect)
    requires AllSized(vs) && k <= |vs| && v.Sized() && AllSized(Inserted(vs, k, v)) && client.xsize >= 0
    requires |children| == |vs| + 1 && MapRight(m, client, Inserted(vs, k, v), children)
    requires forall i, j | 0 <= i < j < |children| :: children[i] != children[j]
    requires Coherent(b, client, vs)
    requires Brushed(b, b', client, Show(m, client.xsize, v, children[k]), client.Intersect(area))
    requires forall x, y | client.Has(x, y) && v.rect.Has(x, y) :: area.Has(x, y)
    ensures Coherent(b', client, Inserted(vs, k, v))
  {
    var vs' := Inserted(vs, k, v);
    forall x, y | client.Has(x, y) ensures ShownAt(b', client.xsize, vs', x, y) {
      assert ShownAt(b, client.xsize, vs, x, y);
      assert BrushedAt(b, b', client.xsize, Show(m, client.xsize, v, children[k]), client.Intersect(area), x, y);
      ShowAt(m, client, vs', children, k, x, y);
      IntersectPoints(client, area, x, y);
      InsertElsewhere(vs, k, v, x, y);
    }
  }

  /** Child `i` was painted inside `area`, in parent coordinates. */
  ghost predicate PaintedOnly(vs0: seq<View>, vs: seq<View>, i: nat, area: Rect) {
    && i < |vs0| == |vs| && AllSized(vs0) && AllSized(vs) && vs == vs0[i := vs[i]]
    && vs[i].rect == vs0[i].rect
    && (forall x, y | vs[i].rect.Has(x, y) && !area.Has(x, y) :: vs[i].Pixel(x, y) == vs0[i].Pixel(x, y))
  }

  /** The paint does not change whether the child covers the pixel, or another child is above. */
  ghost predicate SameCoverAt(vs0: seq<View>, vs: seq<View>, i: nat, x: int, y: int)
    requires i < |vs0| == |vs| && AllSized(vs0)
  {
    (vs[i].Covers(x, y) <==> vs0[i].Covers(x, y)) || Top(vs0, x, y) > i
  }

  ghost predicate SameCover(client: Rect, vs0: seq<View>, vs: seq<View>, i: nat)
    requires i < |vs0| == |vs| && AllSized(vs0)
  {
    forall x, y | client.Has(x, y) :: SameCoverAt(vs0, vs, i, x, y)
  }

  lemma PaintTop(vs0: seq<View>, vs: seq<View>, i: nat, x: int, y: int)
    requires i < |vs0| == |vs| && AllSized(vs0) && AllSized(vs) && vs == vs0[i := vs[i]]
    ensures Top(vs, x, y) == Top(vs0, x, y) <==> SameCoverAt(vs0, vs, i, x, y)
  {
    assert forall j | 0 <= j < |vs| && j != i :: vs[j] == vs0[j];
    if SameCoverAt(vs0, vs, i, x, y) {
      TopIs(vs, x, y, Top(vs0, x, y));
    }
  }

  /** Painting does not touch the map. It stays right exactly when no pixel in view changes cover
      without another child above it. */
  lemma PaintRight(m: seq<Sheet?>, client: Rect, vs0: seq<View>, vs: seq<View>, children: seq<Sheet>, i: nat, area: Rect)
    requires PaintedOnly(vs0, vs, i, area) && |children| == |vs| && client.xsize >= 0 && MapRight(m, client, vs0, children)
    requires forall i, j | 0 <= i < j < |children| :: children[i] != children[j]
    ensures MapRight(m, client, vs, children) <==> SameCover(client, vs0, vs, i)
  {
    forall x, y | client.Has(x, y) ensures RightAt(m, client.xsize, vs, children, x, y) <==> SameCoverAt(vs0, vs, i, x, y) {
      assert RightAt(m, client.xsize, vs0, children, x, y);
      PaintTop(vs0, vs, i, x, y);
    }
  }

  lemma PaintShown(m: seq<Sheet?>, b: seq<nat>, b': seq<nat>, client: Rect, vs0: seq<View>, vs: seq<View>, children: seq<Sheet>,
                   i: nat, area: Rect, flushed: Rect)
    requires PaintedOnly(vs0, vs, i, area) && |children| == |vs| && client.xsize >= 0 && MapRight(m, client, vs, children)
    requires (forall i, j | 0 <= i < j < |children| :: children[i] != children[j]) && SameCover(client, vs0, vs, i)
    requires Coherent(b, client, vs0)
    requires Brushed(b, b', client, Show(m, client.xsize, vs[i], children[i]), client.Intersect(flushed))
    requires forall x, y | client.Has(x, y) && vs[i].rect.Has(x, y) && area.Has(x, y) :: flushed.Has(x, y)
    ensures Coherent(b', client, vs)
  {
    forall x, y | client.Has(x, y) ensures ShownAt(b', client.xsize, vs, x, y) {
      assert ShownAt(b, client.xsize, vs0, x, y) && SameCoverAt(vs0, vs, i, x, y);
      assert BrushedAt(b, b', client.xsize, Show(m, client.xsize, vs[i], children[i]), client.Intersect(flushed), x, y);
      ShowAt(m, client, vs, children, i, x, y);
      IntersectPoints(client, flushed, x, y);
      PaintTop(vs0, vs, i, x, y);
    }
  }

  /** A child is only named where its rectangle is. */
  ghost predicate InsideAt(m: seq<Sheet?>, w: nat, vs: seq<View>, children: seq<Sheet>, x: int, y: int)
    requires |vs| == |children|
  {
    && 0 <= Idx(w, x, y) < |m|
    && forall k | 0 <= k < |vs| && m[Idx(w, x, y)] == children[k] :: vs[k].rect.Has(x, y)
  }

  ghost predicate MapInside(m: seq<Sheet?>, client: Rect, vs: seq<View>, children: seq<Sheet>)
    requires |vs| == |children| && client.xsize >= 0
  {
    forall x, y | client.Has(x, y) :: InsideAt(m, client.xsize, vs, children, x, y)
  }

  /** A map that is right for some views is inside for others with the same rectangles. */
  lemma RightIsInside(m: seq<Sheet?>, client: Rect, vs0: seq<View>, vs: seq<View>, children: seq<Sheet>)
    requires |vs0| == |vs| == |children| && AllSized(vs0) && client.xsize >= 0 && MapRight(m, client, vs0, children)
    requires forall i, j | 0 <= i < j < |children| :: children[i] != children[j]
    requires forall k | 0 <= k < |vs| :: vs[k].rect == vs0[k].rect
    ensures MapInside(m, client, vs, children)
  {
    forall x, y | client.Has(x, y) ensures InsideAt(m, client.xsize, vs, children, x, y) {
      assert RightAt(m, client.xsize, vs0, children, x, y);
    }
  }

  /** Turning alpha off does not touch the map. It stays right exactly when every transparent
      pixel of the child in view has another child above it. */
  lemma DisablingAlpha(m: seq<Sheet?>, client: Rect, vs: seq<View>, children: seq<Sheet>, i: nat)
    requires |vs| == |children| && AllSized(vs) && i < |vs| && client.xsize >= 0 && MapRight(m, client, vs, children)
    requires forall i, j | 0 <= i < j < |children| :: children[i] != children[j]
    requires AllSized(vs[i := vs[i].(alpha := false)])
    ensures MapRight(m, client, vs[i := vs[i].(alpha := false)], children) <==>
            forall x, y | client.Has(x, y) && vs[i].rect.Has(x, y) :: vs[i].Covers(x, y) || Top(vs, x, y) > i
  {
    var vs' := vs[i := vs[i].(alpha := false)];
    assert forall j | 0 <= j < |vs| && j != i :: vs'[j] == vs[j];
    forall x, y | client.Has(x, y)
      ensures RightAt(m, client.xsize, vs', children, x, y) <==>
              (vs[i].rect.Has(x, y) ==> vs[i].Covers(x, y) || Top(vs, x, y) > i)
    {
      assert RightAt(m, client.xsize, vs, children, x, y);
      var t := Top(vs, x, y);
      if vs[i].rect.Has(x, y) && t < i {
        TopIs(vs', x, y, i);
      } else {
        TopIs(vs', x, y, t);
      }
    }
  }

  /** A sheet of one pixel at the origin. */
  predicate OnePixel(v: View) { v.rect == Rect(0, 0, 1, 1) && v.ppl == 1 && |v.pixels| == 1 }

  lemma OnePixelMap(x: Sheet?, v: View, c: Sheet)
    requires OnePixel(v)
    ensures AllSized([v])
    ensures v.Covers(0, 0) <==> !v.alpha || v.pixels[0] / 0x100_0000 != 0
    ensures MapRight([x], v.rect, [v], [c]) <==> x == if v.Covers(0, 0) then c else null
  {
    assert v.rect.Has(0, 0) && v.Ofs(0, 0) == 0;
    TopIs([v], 0, 0, if v.Covers(0, 0) then 0 else -1);
    assert RightAt([x], 1, [v], [c], 0, 0) <==> x == if v.Covers(0, 0) then c else null;
    forall i, j | v.rect.Has(i, j) ensures i == 0 && j == 0 {
    }
  }

  /** Such a pixel is possible: one transparent pixel, owned by nobody, that alpha hides. */
  lemma DisablingAlphaExample(c: Sheet)
    ensures var client, v := Rect(0, 0, 1, 1), View(Rect(0, 0, 1, 1), true, 1, [0]);
            && AllSized([v]) && AllSized([v.(alpha := false)])
            && MapRight([null], client, [v], [c]) && !MapRight([null], client, [v.(alpha := false)], [c])
  {
    var v := View(Rect(0, 0, 1, 1), true, 1, [0]);
    OnePixelMap(null, v, c);
    OnePixelMap(null, v.(alpha := false), c);
  }

  /** Such a paint is possible: an opaque pixel of an alpha sheet painted transparent. */
  lemma PaintExample(c: Sheet)
    ensures var client, v := Rect(0, 0, 1, 1), View(Rect(0, 0, 1, 1), true, 1, [0x100_0000]);
            var w := v.(pixels := [0]);
            && PaintedOnly([v], [w], 0, client)
            && MapRight([c], client, [v], [c]) && !MapRight([c], client, [w], [c])
  {
    var v := View(Rect(0, 0, 1, 1), true, 1, [0x100_0000]);
    var w := v.(pixels := [0]);
    OnePixelMap(c, v, c);
    OnePixelMap(c, w, c);
    assert [w] == [v][0 := w];
  }

  // ----- The code -----

  /** The area `Flush` passes on, in parent coordinates. */
  function FlushArea(client: Rect, r: Rect, rx: int, ry: int, rw: int, rh: int): Rect {
    client.Intersect(r.Intersect(Rect(rx + r.x, ry + r.y, rw, rh)))
  }

  /** What `Flush` covers: the given columns and rows of the child, as far as they are in the child
      and in the parent. */
  lemma FlushAreaHas(client: Rect, r: Rect, rx: int, ry: int, rw: int, rh: int, x: int, y: int)
    ensures FlushArea(client, r, rx, ry, rw, rh).Has(x, y) <==>
            client.Has(x, y) && r.Has(x, y) && rx <= x - r.x < rx + rw && ry <= y - r.y < ry + rh
  {
    var area := Rect(rx + r.x, ry + r.y, rw, rh);
    IntersectPoints(r, area, x, y);
    IntersectPoints(client, r.Intersect(area), x, y);
  }

  lemma WholeArea(client: Rect, r: Rect)
    ensures forall x, y | client.Has(x, y) && r.Has(x, y) :: FlushArea(client, r, 0, 0, r.xsize, r.ysize).Has(x, y)
  {
    var area := FlushArea(client, r, 0, 0, r.xsize, r.ysize);
    forall x, y | client.Has(x, y) && r.Has(x, y) ensures area.Has(x, y) {
      FlushAreaHas(client, r, 0, 0, r.xsize, r.ysize, x, y);
    }
  }

  /** A sheet seen as a parent: its frame buffer, its owner map, and its children bottom first. */
  class Parent {
    const xsize: nat
    const ysize: nat
    const ppl: nat
    const buf: array<nat>
    const map_: array<Sheet?>
    var children: seq<Sheet>
    ghost var views: seq<View>

    function ClientRect(): Rect { Rect(0, 0, xsize, ysize) }

    ghost predicate ChildOk(i: nat)
      reads this, children, set s | s in children :: s.buf
      requires i < |children| && i < |views|
    {
      var s := children[i];
      && views[i] == View(s.rect, s.alpha, s.ppl, s.buf[..]) && views[i].Sized()
      && s.buf != buf
    }

    /** The buffers are large enough, and lines of the map and of the buffer are equally long:
        the map is cleared with one length and set with the other. */
    ghost predicate Valid()
      reads this, children, set s | s in children :: s.buf
    {
      && ppl == xsize && Fits(ClientRect(), map_.Length) && Fits(ClientRect(), buf.Length)
      && |views| == |children| && AllSized(views)
      && (forall i | 0 <= i < |children| :: ChildOk(i))
      && (forall i, j | 0 <= i < j < |children| :: children[i] != children[j])
    }

    /** `Init` of a sheet that will be a parent. */
    constructor (buf: array<nat>, map_: array<Sheet?>, xsize: nat, ysize: nat)
      requires Fits(Rect(0, 0, xsize, ysize), map_.Length) && Fits(Rect(0, 0, xsize, ysize), buf.Length)
      ensures Valid() && children == [] && views == [] && this.buf == buf && this.map_ == map_
      ensures this.xsize == xsize && this.ysize == ysize
    {
      this.buf, this.map_, this.xsize, this.ysize, this.ppl := buf, map_, xsize, ysize, xsize;
      children, views := [], [];
    }

    /** Word of the frame buffer, and of the map, for column `c` of row `r` of child `i`. */
    ghost function WordOf(i: nat, r: nat, c: nat): int
      reads this, children
      requires i < |children|
    {
      (children[i].rect.y + r) * xsize + (children[i].rect.x + c)
    }

    /** That column and row of the child is in view. */
    ghost predicate InView(i: nat, r: nat, c: nat)
      reads this, children
    {
      && i < |children| && r < children[i].rect.ysize && c < children[i].rect.xsize
      && 0 <= children[i].rect.x + c < xsize && 0 <= children[i].rect.y + r < ysize
    }

    /** Child `j` hides what is at `(x, y)` below it: it reaches there and, if it has alpha, the top
        byte of its word there is not zero. */
    ghost predicate Hides(j: nat, x: int, y: int)
      reads this, children, set s | s in children :: s.buf
      requires Valid() && j < |children|
    {
      var s := children[j];
      var r, c := y - s.rect.y, x - s.rect.x;
      && 0 <= r < s.rect.ysize && 0 <= c < s.rect.xsize && 0 <= r * s.ppl + c < s.buf.Length
      && (s.alpha ==> s.buf[r * s.ppl + c] / 0x100_0000 != 0)
    }

    ghost predicate NoneAboveHides(i: nat, x: int, y: int)
      reads this, children, set s | s in children :: s.buf
      requires Valid()
    {
      forall j | i < j < |children| :: !Hides(j, x, y)
    }

    lemma HidesIsCovers(j: nat, x: int, y: int)
      requires Valid() && j < |children|
      ensures Hides(j, x, y) <==> views[j].Covers(x, y)
    {
      assert ChildOk(j);
      var s := children[j];
      if s.rect.Has(x, y) {
        var r: nat, c: nat := y - s.rect.y, x - s.rect.x;
        PixelWord(views[j], r, c);
        assert s.buf[..][r * s.ppl + c] == s.buf[r * s.ppl + c];
      }
    }

    /** What the promises say about the arrays. A right map names child `i` at a pixel in view
        exactly when the child hides what is below it there and no child above does; and where it
        does, a coherent frame buffer holds the child's own word for that row and column. */
    lemma PixelShown(i: nat, r: nat, c: nat)
      requires Valid() && MapRight(map_[..], ClientRect(), views, children) && InView(i, r, c)
      ensures 0 <= WordOf(i, r, c) < map_.Length && WordOf(i, r, c) < buf.Length
      ensures 0 <= r * children[i].ppl + c < children[i].buf.Length
      ensures var s := children[i];
              map_[WordOf(i, r, c)] == s <==>
                && (s.alpha ==> s.buf[r * s.ppl + c] / 0x100_0000 != 0)
                && NoneAboveHides(i, s.rect.x + c, s.rect.y + r)
      ensures Coherent(buf[..], ClientRect(), views) && map_[WordOf(i, r, c)] == children[i] ==>
                buf[WordOf(i, r, c)] == children[i].buf[r * children[i].ppl + c]
    {
      var s := children[i];
      var x, y := s.rect.x + c, s.rect.y + r;
      assert ChildOk(i);
      PixelWord(views[i], r, c);
      assert s.buf[..][r * s.ppl + c] == s.buf[r * s.ppl + c];
      assert ClientRect().Has(x, y);
      IdxFits(ClientRect(), map_.Length, x, y);
      IdxFits(ClientRect(), buf.Length, x, y);
      assert RightAt(map_[..], xsize, views, children, x, y);
      forall j | i < j < |children| ensures Hides(j, x, y) <==> views[j].Covers(x, y) {
        HidesIsCovers(j, x, y);
      }
      assert map_[WordOf(i, r, c)] == s <==> Top(views, x, y) == i;
      if Coherent(buf[..], ClientRect(), views) {
        assert ShownAt(buf[..], xsize, views, x, y);
      }
    }

    /** First loop of `UpdateMap`. */
    method ClearRect(t: Rect)
      requires ppl == xsize && Fits(ClientRect(), map_.Length)
      requires forall x, y | t.Has(x, y) :: ClientRect().Has(x, y)
      modifies map_
      ensures Brushed(old(map_[..]), map_[..], ClientRect(), Blank(), t)
    {
      ghost var m, client := map_[..], ClientRect();
      PaintStarts(m, client, Blank(), t);
      var y := t.y;
      while y < t.y + t.ysize
        invariant t.y <= y && Painted(m, map_[..], client, Blank(), t, t.x, y)
      {
        var x := t.x;
        while x < t.x + t.xsize
          invariant t.x <= x && Painted(m, map_[..], client, Blank(), t, x, y)
        {
          assert t.Has(x, y);
          IdxFits(client, map_.Length, x, y);
          ghost var m1 := map_[..];
          map_[y * xsize + x] := null;
          assert map_[..] == m1[Idx(xsize, x, y) := null];
          PaintStep(m, m1, map_[..], client, Blank(), t, x, y);
          x := x + 1;
        }
        PaintLine(m, map_[..], client, Blank(), t, x, y);
        y := y + 1;
      }
      PaintEnds(m, map_[..], client, Blank(), t, t.x, y);
    }

    /** Body of the second loop of `UpdateMap`: the part of child `i` in view. */
    method EnterChild(i: nat, inView: Rect)
      requires Valid() && i < |children|
      requires forall x, y | inView.Has(x, y) :: ClientRect().Has(x, y) && children[i].rect.Has(x, y)
      modifies map_
      ensures Brushed(old(map_[..]), map_[..], ClientRect(), Enter(views[i], children[i]), inView)
    {
      var s := children[i];
      assert ChildOk(i);
      ghost var m, client, f := map_[..], ClientRect(), Enter(views[i], s);
      PaintStarts(m, client, f, inView);
      var y := inView.y;
      while y < inView.y + inView.ysize
        invariant inView.y <= y && Painted(m, map_[..], client, f, inView, inView.x, y)
      {
        var x := inView.x;
        while x < inView.x + inView.xsize
          invariant inView.x <= x && Painted(m, map_[..], client, f, inView, x, y)
        {
          assert inView.Has(x, y);
          IdxFits(client, map_.Length, x, y);
          OfsInBuffer(views[i], x, y);
          ghost var m1 := map_[..];
          if !s.alpha || s.buf[(y - s.rect.y) * s.ppl + (x - s.rect.x)] / 0x100_0000 != 0 {
            map_[y * ppl + x] := s;
            assert map_[..] == m1[Idx(xsize, x, y) := s];
          }
          PaintStep(m, m1, map_[..], client, f, inView, x, y);
          x := x + 1;
        }
        PaintLine(m, map_[..], client, f, inView, x, y);
        y := y + 1;
      }
      PaintEnds(m, map_[..], client, f, inView, inView.x, y);
    }

    /** `UpdateMap`: inside the target every pixel gets its owner, outside nothing changes. */
    method UpdateMap(target: Rect)
      requires Valid()
      modifies map_
      ensures Owned(old(map_[..]), map_[..], ClientRect(), target.Intersect(ClientRect()), views, children, |children|)
    {
      var t := target.Intersect(ClientRect());
      ghost var m, client := map_[..], ClientRect();
      forall x, y | t.Has(x, y) ensures client.Has(x, y) {
        IntersectPoints(target, client, x, y);
      }
      ClearRect(t);
      OwnedStarts(m, map_[..], client, t, views, children);
      var k := 0;
      while k < |children|
        invariant 0 <= k <= |children| && Owned(m, map_[..], client, t, views, children, k)
      {
        assert ChildOk(k);
        var inView := t.Intersect(children[k].rect);
        forall x, y | inView.Has(x, y) ensures client.Has(x, y) && children[k].rect.Has(x, y) {
          IntersectPoints(t, children[k].rect, x, y);
        }
        ghost var m1 := map_[..];
        EnterChild(k, inView);
        OwnedNext(m, m1, map_[..], client, t, views, children, k);
        k := k + 1;
      }
    }

    /** `SetMap` at position `(x, y)` of the parent itself. It clears only the part of the map
        under that rectangle, so the map starts out right when the position is the origin. */
    method SetMap(x: int, y: int)
      requires Valid()
      modifies map_
      ensures Valid()
      ensures Owned(old(map_[..]), map_[..], ClientRect(), Rect(x, y, xsize, ysize).Intersect(ClientRect()), views, children, |children|)
      ensures x == 0 && y == 0 ==> MapRight(map_[..], ClientRect(), views, children)
    {
      ghost var m, client := map_[..], ClientRect();
      UpdateMap(Rect(x, y, xsize, ysize));
      if x == 0 && y == 0 {
        forall a, b | client.Has(a, b) ensures RightAt(map_[..], xsize, views, children, a, b) {
          IntersectPoints(client, client, a, b);
          assert OwnedAt(m, map_[..], xsize, client.Intersect(client), views, children, |children|, a, b);
        }
      }
    }

    /** `FlushInParent` for child `i`: its pixels in the area it owns there. */
    method FlushInParent(i: nat, area: Rect)
      requires Valid() && i < |children| && MapInside(map_[..], ClientRect(), views, children)
      modifies buf
      ensures Valid()
      ensures Brushed(old(buf[..]), buf[..], ClientRect(), Show(map_[..], xsize, views[i], children[i]),
                      ClientRect().Intersect(area))
    {
      var s := children[i];
      assert ChildOk(i);
      var t := ClientRect().Intersect(area);
      ghost var b, client, f := buf[..], ClientRect(), Show(map_[..], xsize, views[i], s);
      PaintStarts(b, client, f, t);
      if t.xsize <= 0 || t.ysize <= 0 {
        return;
      }
      var y := t.y;
      while y < t.y + t.ysize
        invariant t.y <= y && Painted(b, buf[..], client, f, t, t.x, y)
        invariant s.buf[..] == old(s.buf[..])
      {
        var x := t.x;
        while x < t.x + t.xsize
          invariant t.x <= x && Painted(b, buf[..], client, f, t, x, y)
          invariant s.buf[..] == old(s.buf[..])
        {
          assert t.Has(x, y);
          IntersectPoints(client, area, x, y);
          IdxFits(client, map_.Length, x, y);
          IdxFits(client, buf.Length, x, y);
          assert InsideAt(map_[..], xsize, views, children, x, y);
          ghost var b1 := buf[..];
          if map_[y * ppl + x] == s {
            OfsInBuffer(views[i], x, y);
            buf[y * ppl + x] := s.buf[(y - s.rect.y) * s.ppl + (x - s.rect.x)];
            assert buf[..] == b1[Idx(xsize, x, y) := views[i].Pixel(x, y)];
          }
          PaintStep(b, b1, buf[..], client, f, t, x, y);
          x := x + 1;
        }
        PaintLine(b, buf[..], client, f, t, x, y);
        y := y + 1;
      }
      PaintEnds(b, buf[..], client, f, t, t.x, y);
      forall j | 0 <= j < |children| ensures ChildOk(j) {
        assert old(ChildOk(j));
      }
    }

    /** First half of a move: recompute the map on the rectangles `SetPosition` chooses. */
    method RecomputeMap(i: nat, prev: Rect, ghost vs0: seq<View>)
      requires Valid() && i < |children| && Changed(vs0, views, i) && vs0[i].rect == prev
      requires MapRight(map_[..], ClientRect(), vs0, children)
      modifies map_
      ensures Valid() && MapRight(map_[..], ClientRect(), views, children)
    {
      ghost var m0, client := map_[..], ClientRect();
      assert ChildOk(i);
      var rs := MoveRects(prev, children[i].rect);
      RecomputeStarts(m0, client, rs, views, children);
      var k := 0;
      while k < |rs|
        invariant 0 <= k <= |rs| && Recomputed(m0, map_[..], client, rs, k, views, children)
      {
        ghost var m1 := map_[..];
        UpdateMap(rs[k]);
        RecomputeNext(m0, m1, map_[..], client, rs, k, views, children);
        k := k + 1;
      }
      MoveRight(m0, map_[..], client, vs0, views, children, i);
    }

    /** Second half: flush the lower children over the old place, then the child itself over
        the new one. That is enough to make the frame buffer follow the map again. */
    method FlushAround(i: nat, prev: Rect, ghost vs0: seq<View>)
      requires Valid() && i < |children| && Changed(vs0, views, i) && vs0[i].rect == prev
      requires MapRight(map_[..], ClientRect(), views, children)
      modifies buf
      ensures Valid()
      ensures Coherent(old(buf[..]), ClientRect(), vs0) ==> Coherent(buf[..], ClientRect(), views)
    {
      ghost var client, ok := ClientRect(), Coherent(buf[..], ClientRect(), vs0);
      RightIsInside(map_[..], client, views, views, children);
      if ok {
        StaleAfterMove(buf[..], client, vs0, views, i);
      }
      var k := 0;
      while k < i
        invariant 0 <= k <= i && Valid()
        invariant ok ==> AlmostShown(buf[..], client, views, i, prev, k)
      {
        ghost var b1 := buf[..];
        FlushInParent(k, prev);
        if ok {
          FlushLower(map_[..], b1, buf[..], client, views, children, i, prev, k);
        }
        k := k + 1;
      }
      ghost var b1 := buf[..];
      assert ChildOk(i);
      FlushInParent(i, children[i].rect);
      if ok {
        FlushSelf(map_[..], b1, buf[..], client, views, children, i, prev);
      }
    }

    method Refresh(i: nat, prev: Rect, ghost vs0: seq<View>)
      requires Valid() && i < |children| && Changed(vs0, views, i) && vs0[i].rect == prev
      requires MapRight(map_[..], ClientRect(), vs0, children)
      modifies map_, buf
      ensures Valid() && MapRight(map_[..], ClientRect(), views, children)
      ensures Coherent(old(buf[..]), ClientRect(), vs0) ==> Coherent(buf[..], ClientRect(), views)
    {
      RecomputeMap(i, prev, vs0);
      FlushAround(i, prev, vs0);
    }

    /** `SetPosition` for child `i`. */
    method SetPosition(i: nat, x: int, y: int)
      requires Valid() && i < |children| && MapRight(map_[..], ClientRect(), views, children)
      modifies this`views, children[i], map_, buf
      ensures children[i].topmost == old(children[i].topmost)
      ensures Valid() && views == old(views)[i := old(views)[i].(rect := old(views)[i].rect.(x := x, y := y))]
      ensures MapRight(map_[..], ClientRect(), views, children)
      ensures Coherent(old(buf[..]), ClientRect(), old(views)) ==> Coherent(buf[..], ClientRect(), views)
    {
      var s := children[i];
      assert ChildOk(i);
      var prev := s.rect;
      ghost var vs0 := views;
      s.rect := prev.(x := x, y := y);
      views := views[i := views[i].(rect := s.rect)];
      forall j | 0 <= j < |children| ensures ChildOk(j) {
        assert old(ChildOk(j));
      }
      Refresh(i, prev, vs0);
    }

    /** `SetAlphaEnabled` for child `i`: enabling refreshes its place, disabling only records
        the flag. */
    method SetAlphaEnabled(i: nat, enabled: bool)
      requires Valid() && i < |children| && MapRight(map_[..], ClientRect(), views, children)
      modifies this`views, children[i], map_, buf
      ensures children[i].topmost == old(children[i].topmost)
      ensures Valid() && views == old(views)[i := old(views)[i].(alpha := enabled)]
      ensures enabled ==> MapRight(map_[..], ClientRect(), views, children)
      ensures enabled && Coherent(old(buf[..]), ClientRect(), old(views)) ==> Coherent(buf[..], ClientRect(), views)
      ensures !enabled ==> map_[..] == old(map_[..]) && buf[..] == old(buf[..])
    {
      var s := children[i];
      assert ChildOk(i);
      ghost var vs0 := views;
      s.alpha := enabled;
      views := views[i := views[i].(alpha := enabled)];
      forall j | 0 <= j < |children| ensures ChildOk(j) {
        assert old(ChildOk(j));
      }
      if enabled {
        Refresh(i, s.rect, vs0);
      }
    }

    /** `Flush`: the part of child `i` given in its own coordinates. */
    method Flush(i: nat, rx: int, ry: int, rw: int, rh: int)
      requires Valid() && i < |children| && MapInside(map_[..], ClientRect(), views, children)
      modifies buf
      ensures Valid()
      ensures var r := children[i].rect;
              Brushed(old(buf[..]), buf[..], ClientRect(), Show(map_[..], xsize, views[i], children[i]),
                      ClientRect().Intersect(FlushArea(ClientRect(), r, rx, ry, rw, rh)))
    {
      FlushInParent(i, FlushArea(ClientRect(), children[i].rect, rx, ry, rw, rh));
    }

    /** After a child was painted in a rectangle, flushing that rectangle makes the frame buffer
        follow again. The map is not recomputed: it stays right exactly when the paint leaves
        alone which pixels in view the child covers, or paints them under another child. */
    method FlushPainted(i: nat, rx: int, ry: int, rw: int, rh: int, ghost vs0: seq<View>)
      requires Valid() && i < |children|
      requires PaintedOnly(vs0, views, i, Rect(rx + children[i].rect.x, ry + children[i].rect.y, rw, rh))
      requires MapRight(map_[..], ClientRect(), vs0, children)
      modifies buf
      ensures Valid() && (MapRight(map_[..], ClientRect(), views, children) <==> SameCover(ClientRect(), vs0, views, i))
      ensures SameCover(ClientRect(), vs0, views, i) && Coherent(old(buf[..]), ClientRect(), vs0) ==>
                Coherent(buf[..], ClientRect(), views)
    {
      ghost var client, r := ClientRect(), children[i].rect;
      ghost var area := Rect(rx + r.x, ry + r.y, rw, rh);
      assert ChildOk(i);
      PaintRight(map_[..], client, vs0, views, children, i, area);
      RightIsInside(map_[..], client, vs0, views, children);
      Flush(i, rx, ry, rw, rh);
      if SameCover(client, vs0, views, i) && Coherent(old(buf[..]), client, vs0) {
        forall x, y | client.Has(x, y) && r.Has(x, y) && area.Has(x, y)
          ensures FlushArea(client, r, rx, ry, rw, rh).Has(x, y)
        {
          FlushAreaHas(client, r, rx, ry, rw, rh, x, y);
        }
        PaintShown(map_[..], old(buf[..]), buf[..], client, vs0, views, children, i, area, FlushArea(client, r, rx, ry, rw, rh));
      }
    }

    /** Position below the first topmost child. */
    method InsertPosition() returns (k: nat)
      ensures k <= |children|
      ensures forall j | 0 <= j < k :: !children[j].topmost
      ensures k < |children| ==> children[k].topmost
    {
      k := 0;
      while k < |children| && !children[k].topmost
        invariant k <= |children|
        invariant forall j | 0 <= j < k :: !children[j].topmost
      {
        k := k + 1;
      }
    }

    ghost predicate CanAdopt(s: Sheet)
      reads this, s, s.buf
    {
      s !in children && s.buf != buf && View(s.rect, s.alpha, s.ppl, s.buf[..]).Sized()
    }

    /** The first half of `SetParent`: the child goes below the topmost ones and is entered. */
    method AddChild(s: Sheet) returns (k: nat)
      requires Valid() && CanAdopt(s) && MapRight(map_[..], ClientRect(), views, children)
      modifies this`views, this`children, map_
      ensures k <= |old(children)| && children == Inserted(old(children), k, s)
      ensures forall j | 0 <= j < k :: !old(children)[j].topmost
      ensures k < |old(children)| ==> old(children)[k].topmost
      ensures Valid() && views == Inserted(old(views), k, View(s.rect, s.alpha, s.ppl, s.buf[..]))
      ensures MapRight(map_[..], ClientRect(), views, children)
    {
      k := InsertPosition();
      ghost var vs0, cs0, m0 := views, children, map_[..];
      InsertChild(k, s);
      UpdateMap(s.rect);
      InsertRight(m0, map_[..], ClientRect(), vs0, cs0, k, View(s.rect, s.alpha, s.ppl, s.buf[..]), s);
    }

    /** `SetParent`: the child is entered and flushed. */
    method Adopt(s: Sheet) returns (k: nat)
      requires Valid() && CanAdopt(s) && MapRight(map_[..], ClientRect(), views, children)
      modifies this`views, this`children, map_, buf
      ensures k <= |old(children)| && children == Inserted(old(children), k, s)
      ensures forall j | 0 <= j < k :: !old(children)[j].topmost
      ensures k < |old(children)| ==> old(children)[k].topmost
      ensures Valid() && views == Inserted(old(views), k, View(s.rect, s.alpha, s.ppl, s.buf[..]))
      ensures MapRight(map_[..], ClientRect(), views, children)
      ensures Coherent(old(buf[..]), ClientRect(), old(views)) ==> Coherent(buf[..], ClientRect(), views)
    {
      ghost var v, client := View(s.rect, s.alpha, s.ppl, s.buf[..]), ClientRect();
      ghost var vs0, b0 := views, buf[..];
      k := AddChild(s);
      assert ChildOk(k);
      RightIsInside(map_[..], client, views, views, children);
      Flush(k, 0, 0, s.rect.xsize, s.rect.ysize);
      if Coherent(b0, client, vs0) {
        WholeArea(client, s.rect);
        InsertShown(map_[..], b0, buf[..], client, vs0, children, k, v,
                    FlushArea(client, s.rect, 0, 0, s.rect.xsize, s.rect.ysize));
      }
    }

    method InsertChild(k: nat, s: Sheet)
      requires Valid() && CanAdopt(s) && k <= |children|
      modifies this`views, this`children
      ensures children == Inserted(old(children), k, s)
      ensures Valid() && views == Inserted(old(views), k, View(s.rect, s.alpha, s.ppl, s.buf[..]))
    {
      ghost var v := View(s.rect, s.alpha, s.ppl, s.buf[..]);
      ghost var vs0, cs0 := views, children;
      children := children[..k] + [s] + children[k..];
      views := Inserted(views, k, v);
      assert forall j | 0 <= j < |children| :: children[j] == if j < k then cs0[j] else if j == k then s else cs0[j - 1];
      assert forall j | 0 <= j < |views| :: views[j] == if j < k then vs0[j] else if j == k then v else vs0[j - 1];
      forall j | 0 <= j < |children| ensures ChildOk(j) {
        assert j < k ==> old(ChildOk(j));
        assert j > k ==> old(ChildOk(j - 1));
      }
    }
  }
}
