/** Building mappings: the nested loops of `CreatePageMapping`, one method per loop, with
    tables taken from the page allocator that shares the same memory. */
module Mapping {
  import opened Basics
  import opened PhysicalMemory
  import opened PageTable
  import opened PageAllocator

  /** The allocator is consistent and the page table under `root` is a tree made of pages
      that are not free. */
  ghost predicate Sys(m: Dram, tree: Tree, root: nat)
    reads m
  {
    && m.Valid()
    && WellFormed(m.frames, tree, root)
    && (forall n | n in tree :: !IsFree(m.chunks, tree[n]))
  }

  /** A store outside the free pages leaves the free list in place. */
  lemma ListSurvives(fr: Frames, fr': Frames, head: nat, cs: seq<Chunk>, limit: nat)
    requires ChunksOk(cs, limit) && Threaded(fr, head, cs)
    requires forall p | p in fr && IsFree(cs, p) :: p in fr' && fr'[p] == fr[p]
    ensures Threaded(fr', head, cs)
  {
    forall i | 0 <= i < |cs| ensures HeaderOk(fr', cs, i) {
      assert HeaderOk(fr, cs, i);
      assert cs[i].Has(cs[i].base) && IsFree(cs, cs[i].base);
    }
  }

  ghost predicate SameOn(fr: Frames, fr': Frames, tree: Tree) {
    forall n | n in tree && tree[n] in fr :: tree[n] in fr' && fr'[tree[n]] == fr[tree[n]]
  }

  lemma {:induction false} WalkSurvives(fr: Frames, fr': Frames, tree: Tree, root: nat, lvl: nat, q: nat)
    requires WellFormed(fr, tree, root) && SameOn(fr, fr', tree)
    requires 1 <= lvl <= 4 && q < 0x10_0000_0000 && NodeFor(lvl, q) in tree
    ensures Walk(fr', tree[NodeFor(lvl, q)], lvl, q) == Walk(fr, tree[NodeFor(lvl, q)], lvl, q)
    decreases lvl
  {
    var n, k := NodeFor(lvl, q), Index(lvl, q);
    SlotSplit(lvl, q);
    assert HangsOff(fr, tree, n) && LinkOk(fr, tree, n, k);
    if IsLink(lvl, fr[tree[n]].entries[k]) {
      assert Child(n, k) == NodeFor(lvl - 1, q) && Parent(Child(n, k)) == n;
      assert HangsOff(fr, tree, NodeFor(lvl - 1, q));
      WalkSurvives(fr, fr', tree, root, lvl - 1, q);
    }
  }

  /** A store outside the tables of the tree changes neither the tree nor a translation. */
  lemma TreeSurvives(fr: Frames, fr': Frames, tree: Tree, root: nat)
    requires WellFormed(fr, tree, root) && SameOn(fr, fr', tree)
    ensures WellFormed(fr', tree, root)
    ensures forall q | 0 <= q < 0x10_0000_0000 :: Translate(fr', root, q) == Translate(fr, root, q)
  {
    forall n | n in tree ensures HangsOff(fr', tree, n) {
      assert HangsOff(fr, tree, n);
      assert n.lvl < 4 ==> HangsOff(fr, tree, Parent(n));
    }
    forall n, i | n in tree && 0 <= i < 512 ensures LinkOk(fr', tree, n, i) {
      assert LinkOk(fr, tree, n, i);
    }
    forall q | 0 <= q < 0x10_0000_0000 ensures Translate(fr', root, q) == Translate(fr, root, q) {
      assert NodeFor(4, q) == Node(4, 0);
      WalkSurvives(fr, fr', tree, root, 4, q);
    }
  }

  // ----- What a stretch of the loops does -----

  /** Page `v + k` now goes to page `p + k` for all `k < cnt`; no such page was under a large
      page before; every other page translates as before. */
  ghost predicate Maps(fr: Frames, fr': Frames, root: nat, v: nat, p: nat, cnt: nat, attr: nat) {
    forall q | 0 <= q < 0x10_0000_0000 :: MapsAt(fr, fr', root, v, p, cnt, attr, q)
  }

  ghost predicate MapsAt(fr: Frames, fr': Frames, root: nat, v: nat, p: nat, cnt: nat, attr: nat, q: nat) {
    var before, after := Translate(fr, root, q), Translate(fr', root, q);
    if v <= q < v + cnt
    then after.Mapped? && after.page == p + (q - v) && after.attr == attr && (before.Mapped? ==> before.lvl == 1)
    else after == before
  }

  /** Every page translates as before. */
  ghost predicate Same(fr: Frames, fr': Frames, root: nat) {
    forall q | 0 <= q < 0x10_0000_0000 :: Translate(fr', root, q) == Translate(fr, root, q)
  }

  lemma SameMaps(fr: Frames, fr': Frames, root: nat, v: nat, p: nat, attr: nat)
    requires Same(fr, fr', root)
    ensures Maps(fr, fr', root, v, p, 0, attr)
  {
    forall q | 0 <= q < 0x10_0000_0000 ensures MapsAt(fr, fr', root, v, p, 0, attr, q) {
      assert Translate(fr', root, q) == Translate(fr, root, q);
    }
  }

  /** The tree only grew, by pages that were free; nothing else was allocated or written. */
  ghost predicate Grown(fr: Frames, cs: seq<Chunk>, tree: Tree, fr': Frames, cs': seq<Chunk>, tree': Tree) {
    && (forall n | n in tree :: n in tree' && tree'[n] == tree[n])
    && (forall n | n in tree' && n !in tree :: IsFree(cs, tree'[n]))
    && (forall p: nat | IsFree(cs', p) :: IsFree(cs, p))
    && (forall p: nat | p in fr && !IsFree(cs, p) && Unused(tree, p) :: p in fr' && fr'[p] == fr[p])
  }

  lemma MapsTwice(a: Frames, b: Frames, c: Frames, root: nat, v: nat, p: nat, cnt: nat, cnt': nat, attr: nat)
    requires Maps(a, b, root, v, p, cnt, attr) && Maps(b, c, root, v + cnt, p + cnt, cnt', attr)
    ensures Maps(a, c, root, v, p, cnt + cnt', attr)
  {
    var all := cnt + cnt';
    forall q | 0 <= q < 0x10_0000_0000 ensures MapsAt(a, c, root, v, p, all, attr, q) {
      assert MapsAt(a, b, root, v, p, cnt, attr, q) && MapsAt(b, c, root, v + cnt, p + cnt, cnt', attr, q);
    }
  }

  lemma GrownTwice(a: Frames, cs: seq<Chunk>, t: Tree, b: Frames, cs': seq<Chunk>, t': Tree, c: Frames, cs'': seq<Chunk>, t'': Tree)
    requires Grown(a, cs, t, b, cs', t') && Grown(b, cs', t', c, cs'', t'')
    ensures Grown(a, cs, t, c, cs'', t'')
  {
    forall p: nat | p in a && !IsFree(cs, p) && Unused(t, p) ensures p in c && c[p] == a[p] {
      assert Unused(t', p);
    }
  }

  // ----- The loops -----

  datatype Status = Done | NoMemory | LargePage(lvl: nat)

  /** `SetPageBaseAddr`: bits below the page size and the dirty bit stay as they were. */
  function PageEntry(lvl: nat, e: Entry, p: nat, attr: nat): Entry {
    e.(frame := e.frame % Span(lvl) + p, attr := attr, ps := lvl == 2 || lvl == 3 || e.ps)
  }

  function WithLeaf(fr: Frames, t: nat, lvl: nat, v: nat, p: nat, attr: nat): Frames
    requires IsTable(fr, t)
  {
    SetEntry(fr, t, Index(lvl, v), PageEntry(lvl, fr[t].entries[Index(lvl, v)], p, attr))
  }

  /** A leaf for the pages from `v` on may be stored in the table the tree has for them. */
  ghost predicate CanPlace(fr: Frames, tree: Tree, root: nat, lvl: nat, v: nat, p: nat, attr: nat) {
    && WellFormed(fr, tree, root) && (lvl == 1 || lvl == 2) && v < 0x10_0000_0000 && NodeFor(lvl, v) in tree
    && v % Span(lvl) == 0 && p % Span(lvl) == 0 && attr % 2 == 1
    && (lvl == 1 || !fr[tree[NodeFor(lvl, v)]].entries[Index(lvl, v)].Present())
  }

  lemma PlaceLeafAt(fr: Frames, tree: Tree, root: nat, lvl: nat, v: nat, p: nat, attr: nat, q: nat)
    requires CanPlace(fr, tree, root, lvl, v, p, attr) && q < 0x10_0000_0000
    ensures MapsAt(fr, WithLeaf(fr, tree[NodeFor(lvl, v)], lvl, v, p, attr), root, v, p, Span(lvl), attr, q)
  {
    var n, i := NodeFor(lvl, v), Index(lvl, v);
    var e := fr[tree[n]].entries[i];
    SlotSplit(lvl, v);
    SetDecides(fr, tree, root, n, i, PageEntry(lvl, e, p, attr), q);
    LeafArithmetic(lvl, e.frame, v, p, q);
  }

  lemma LeafArithmetic(lvl: nat, frame: nat, v: nat, p: nat, q: nat)
    requires (lvl == 1 || lvl == 2) && v % Span(lvl) == 0 && p % Span(lvl) == 0
    ensures q / Span(lvl) == v / Span(lvl) <==> v <= q < v + Span(lvl)
    ensures var f := frame % Span(lvl) + p; f - f % Span(lvl) == p
    ensures q / Span(lvl) == v / Span(lvl) ==> q % Span(lvl) == q - v
  {
    if lvl == 1 {
    } else {
    }
  }

  /** One store of a leaf entry, at either leaf size. */
  lemma PlaceLeaf(fr: Frames, cs: seq<Chunk>, tree: Tree, root: nat, lvl: nat, v: nat, p: nat, attr: nat)
    requires CanPlace(fr, tree, root, lvl, v, p, attr) && !IsFree(cs, tree[NodeFor(lvl, v)])
    ensures var fr' := WithLeaf(fr, tree[NodeFor(lvl, v)], lvl, v, p, attr);
            && WellFormed(fr', tree, root)
            && Maps(fr, fr', root, v, p, Span(lvl), attr)
            && Grown(fr, cs, tree, fr', cs, tree)
            && SameTables(fr, fr', tree, NodeFor(lvl, v))
  {
    var n, i := NodeFor(lvl, v), Index(lvl, v);
    var fr' := WithLeaf(fr, tree[n], lvl, v, p, attr);
    SetKeepsTree(fr, tree, root, n, i, PageEntry(lvl, fr[tree[n]].entries[i], p, attr));
    var span := Span(lvl);
    forall q | 0 <= q < 0x10_0000_0000 ensures MapsAt(fr, fr', root, v, p, span, attr, q) {
      PlaceLeafAt(fr, tree, root, lvl, v, p, attr, q);
    }
  }

  /** A page just allocated was free, is free no longer, and is no table of the tree; the
      allocator wrote only into its own headers. */
  lemma TookOne(fr: Frames, cs: seq<Chunk>, limit: nat, fr': Frames, cs': seq<Chunk>, f: nat, tree: Tree, root: nat)
    requires ChunksOk(cs, limit) && Took(fr, cs, 1, None, fr', cs', f)
    requires WellFormed(fr, tree, root) && forall n | n in tree :: !IsFree(cs, tree[n])
    ensures f < limit && IsFree(cs, f) && !IsFree(cs', f) && Unused(tree, f)
    ensures forall p: nat | IsFree(cs', p) :: IsFree(cs, p)
    ensures SameOn(fr, fr', tree)
    ensures forall p: nat | p in fr && !IsFree(cs, p) :: p in fr' && fr'[p] == fr[p]
  {
    var i := FirstFit(cs, 1, None);
    ShrinkTakes(cs, limit, i, 1);
    assert cs[i].Has(cs[i].base) && IsFree(cs, cs[i].base);
  }

  /** Only pages that were free have been written, and no page has become free. */
  ghost predicate OnlyFree(fr: Frames, cs: seq<Chunk>, fr': Frames, cs': seq<Chunk>) {
    && (forall p: nat | IsFree(cs', p) :: IsFree(cs, p))
    && (forall p: nat | p in fr && !IsFree(cs, p) :: p in fr' && fr'[p] == fr[p])
  }

  /** The entry `SetTableAddr` writes for a new table. */
  function TableEntry(f: nat, attr: nat): Entry { Entry(f, attr, false, false, 0) }

  /** Linking in a page that was free touches that page and one table. */
  lemma GrownByOne(fr: Frames, cs: seq<Chunk>, fr1: Frames, cs1: seq<Chunk>, f: nat, tree: Tree, n: Node, i: nat, e': Entry)
    requires n in tree && i < 512 && n.lvl > 1 && Child(n, i) !in tree && IsTable(fr1, tree[n]) && f != tree[n]
    requires IsFree(cs, f) && (forall p: nat | IsFree(cs1, p) :: IsFree(cs, p))
    requires forall p: nat | p in fr && !IsFree(cs, p) :: p in fr1 && fr1[p] == fr[p]
    ensures Grown(fr, cs, tree, Grow(fr1, tree[n], i, f, e'), cs1, tree[Child(n, i) := f])
  {
  }

  /** A page allocated, cleared and linked in: the tree has one more table, of a page that
      was free, and no translation has changed. */
  lemma GrowByAlloc(fr: Frames, cs: seq<Chunk>, limit: nat, fr1: Frames, cs1: seq<Chunk>, f: nat, tree: Tree, root: nat,
                    n: Node, i: nat, attr: nat)
    requires ChunksOk(cs, limit) && Took(fr, cs, 1, None, fr1, cs1, f)
    requires WellFormed(fr, tree, root) && forall n | n in tree :: !IsFree(cs, tree[n])
    requires n in tree && i < 512 && n.lvl > 1 && !fr[tree[n]].entries[i].Present() && attr % 2 == 1
    ensures CanGrow(fr1, tree, root, n, i, f, TableEntry(f, attr))
    ensures var fr', tree' := Grow(fr1, tree[n], i, f, TableEntry(f, attr)), tree[Child(n, i) := f];
            && WellFormed(fr', tree', root)
            && Same(fr, fr', root)
            && Grown(fr, cs, tree, fr', cs1, tree')
            && SameTables(fr, fr', tree, n)
            && (forall n | n in tree' :: !IsFree(cs1, tree'[n]))
            && (forall p: nat | p in fr1 && IsFree(cs1, p) :: p in fr' && fr'[p] == fr1[p])
  {
    var e' := TableEntry(f, attr);
    TookOne(fr, cs, limit, fr1, cs1, f, tree, root);
    TreeSurvives(fr, fr1, tree, root);
    GrowKeepsTree(fr1, tree, root, n, i, f, e');
    ChildIsNew(fr1, tree, root, n, i);
    var fr' := Grow(fr1, tree[n], i, f, e');
    GrownByOne(fr, cs, fr1, cs1, f, tree, n, i, e');
    forall q | 0 <= q < 0x10_0000_0000 ensures Translate(fr', root, q) == Translate(fr, root, q) {
      GrowTable(fr1, tree, root, n, i, f, e', q);
    }
  }

  /** `SetAttr` on an entry that links to a table: no translation changes. */
  lemma TouchLink(fr: Frames, cs: seq<Chunk>, tree: Tree, root: nat, n: Node, i: nat, attr: nat)
    requires WellFormed(fr, tree, root) && n in tree && i < 512 && attr % 2 == 1
    requires IsLink(n.lvl, fr[tree[n]].entries[i]) && !IsFree(cs, tree[n])
    ensures var fr' := SetEntry(fr, tree[n], i, fr[tree[n]].entries[i].(attr := attr));
            && WellFormed(fr', tree, root)
            && Same(fr, fr', root)
            && Grown(fr, cs, tree, fr', cs, tree)
            && SameTables(fr, fr', tree, n)
  {
    var e' := fr[tree[n]].entries[i].(attr := attr);
    SetKeepsTree(fr, tree, root, n, i, e');
    var fr' := SetEntry(fr, tree[n], i, e');
    forall q | 0 <= q < 0x10_0000_0000 ensures Translate(fr', root, q) == Translate(fr, root, q) {
      RefreshEntry(fr, tree, root, n, i, e', q);
    }
  }

  /** No page from `v` up to `w` is served by table `n`. */
  ghost predicate Misses(n: Node, v: nat, w: nat) {
    forall q | v <= q < w :: NodeFor(n.lvl, q) != n
  }

  /** Below the root, only tables that serve pages from `v` up to `w` were written. */
  ghost predicate OffPath(fr: Frames, tree: Tree, fr': Frames, v: nat, w: nat) {
    forall n | n in tree && n.lvl < 4 && tree[n] in fr && Misses(n, v, w) :: tree[n] in fr' && fr'[tree[n]] == fr[tree[n]]
  }

  /** Where the loops stand: memory, free list, tables, the next page with its target, and how
      many pages are left. */
  datatype Stop = Stop(fr: Frames, cs: seq<Chunk>, tree: Tree, v: nat, p: nat, left: nat)

  ghost function StopAt(m: Dram, tree: Tree, v: nat, p: nat, left: nat): Stop
    reads m
  {
    Stop(m.frames, m.chunks, tree, v, p, left)
  }

  /** From `a` to `b` the pages in between were mapped, and nothing else was done. */
  ghost predicate Advanced(root: nat, attr: nat, a: Stop, b: Stop) {
    && a.v <= b.v <= 0x10_0000_0000 && b.p == a.p + (b.v - a.v) && a.left == b.left + (b.v - a.v)
    && Maps(a.fr, b.fr, root, a.v, a.p, b.v - a.v, attr)
    && Grown(a.fr, a.cs, a.tree, b.fr, b.cs, b.tree)
    && OffPath(a.fr, a.tree, b.fr, a.v, b.v)
  }

  /** The loops stand at `b`, after `a`. */
  ghost predicate Progress(m: Dram, root: nat, attr: nat, a: Stop, b: Stop)
    reads m
  {
    Sys(m, b.tree, root) && b == StopAt(m, b.tree, b.v, b.p, b.left) && Advanced(root, attr, a, b)
  }

  lemma AdvancedStarts(root: nat, attr: nat, a: Stop)
    requires a.v <= 0x10_0000_0000
    ensures Advanced(root, attr, a, a)
  {
    forall q | 0 <= q < 0x10_0000_0000 ensures MapsAt(a.fr, a.fr, root, a.v, a.p, 0, attr, q) {
    }
  }

  lemma OffPathTwice(a: Stop, b: Stop, c: Stop)
    requires a.v <= b.v <= c.v && Grown(a.fr, a.cs, a.tree, b.fr, b.cs, b.tree)
    requires OffPath(a.fr, a.tree, b.fr, a.v, b.v) && OffPath(b.fr, b.tree, c.fr, b.v, c.v)
    ensures OffPath(a.fr, a.tree, c.fr, a.v, c.v)
  {
    forall n | n in a.tree && n.lvl < 4 && a.tree[n] in a.fr && Misses(n, a.v, c.v)
      ensures a.tree[n] in c.fr && c.fr[a.tree[n]] == a.fr[a.tree[n]]
    {
      assert Misses(n, a.v, b.v) && Misses(n, b.v, c.v);
    }
  }

  /** Two stretches in a row make one. */
  lemma AdvancedTwice(root: nat, attr: nat, a: Stop, b: Stop, c: Stop)
    requires Advanced(root, attr, a, b) && Advanced(root, attr, b, c)
    ensures Advanced(root, attr, a, c)
  {
    MapsTwice(a.fr, b.fr, c.fr, root, a.v, a.p, b.v - a.v, c.v - b.v, attr);
    GrownTwice(a.fr, a.cs, a.tree, b.fr, b.cs, b.tree, c.fr, c.cs, c.tree);
    OffPathTwice(a, b, c);
  }

  /** The entry for page `a.v` at level `lvl` leads to a table; no page is mapped yet. */
  ghost predicate Opened(lvl: nat, root: nat, a: Stop, b: Stop) {
    && b.v == a.v < 0x10_0000_0000 && b.p == a.p && b.left == a.left
    && Same(a.fr, b.fr, root)
    && Grown(a.fr, a.cs, a.tree, b.fr, b.cs, b.tree)
    && SameTables(a.fr, b.fr, a.tree, NodeFor(lvl, a.v))
  }

  /** An opened entry and the stretch mapped through it make one stretch. Only below the root
      does the table of the entry have to serve a page of the stretch. */
  lemma OpenedThenAdvanced(lvl: nat, root: nat, attr: nat, a: Stop, b: Stop, c: Stop)
    requires 2 <= lvl <= 4 && Opened(lvl, root, a, b) && Advanced(root, attr, b, c) && (lvl < 4 ==> b.v < c.v)
    ensures Advanced(root, attr, a, c)
  {
    SameMaps(a.fr, b.fr, root, a.v, a.p, attr);
    MapsTwice(a.fr, b.fr, c.fr, root, a.v, a.p, 0, c.v - b.v, attr);
    GrownTwice(a.fr, a.cs, a.tree, b.fr, b.cs, b.tree, c.fr, c.cs, c.tree);
    forall n | n in a.tree && n.lvl < 4 && a.tree[n] in a.fr && Misses(n, a.v, c.v)
      ensures a.tree[n] in c.fr && c.fr[a.tree[n]] == a.fr[a.tree[n]]
    {
      assert n != NodeFor(lvl, a.v);
    }
  }

  /** `SetPageBaseForAddr` on the table the tree has for `v`. */
  method StoreLeaf(m: Dram, t: nat, lvl: nat, v: nat, p: nat, left: nat, attr: nat, ghost tree: Tree, ghost root: nat)
    requires Sys(m, tree, root) && CanPlace(m.frames, tree, root, lvl, v, p, attr) && tree[NodeFor(lvl, v)] == t
    requires Span(lvl) <= left && v + Span(lvl) <= 0x10_0000_0000
    modifies m`frames
    ensures Progress(m, root, attr, old(StopAt(m, tree, v, p, left)),
                     StopAt(m, tree, v + Span(lvl), p + Span(lvl), left - Span(lvl)))
    ensures var e := m.frames[t].entries[Index(lvl, v)]; e.Present() && (lvl == 2 ==> e.ps)
  {
    PlaceLeaf(m.frames, m.chunks, tree, root, lvl, v, p, attr);
    m.frames := WithLeaf(m.frames, t, lvl, v, p, attr);
    ListSurvives(old(m.frames), m.frames, m.head, m.chunks, m.limit);
  }

  /** Allocate a page, clear it, and link it at the entry for `v`. */
  method LinkNewTable(m: Dram, t: nat, lvl: nat, v: nat, attr: nat, ghost tree: Tree, ghost root: nat)
    returns (ok: bool, ghost tree': Tree)
    requires Sys(m, tree, root) && 2 <= lvl <= 4 && v < 0x10_0000_0000 && attr % 2 == 1
    requires NodeFor(lvl, v) in tree && tree[NodeFor(lvl, v)] == t
    requires !m.frames[t].entries[Index(lvl, v)].Present()
    modifies m
    ensures ok ==> && Sys(m, tree', root) && Same(old(m.frames), m.frames, root)
                   && Grown(old(m.frames), old(m.chunks), tree, m.frames, m.chunks, tree')
                   && SameTables(old(m.frames), m.frames, tree, NodeFor(lvl, v))
                   && IsLink(lvl, m.frames[t].entries[Index(lvl, v)])
    ensures !ok ==> FirstFit(m.chunks, 1, None) == |m.chunks|
  {
    ghost var n := NodeFor(lvl, v);
    var i := Index(lvl, v);
    tree' := tree;
    var r := m.AllocPages(1, None);
    if r.None? {
      return false, tree';
    }
    var f := r.value;
    GrowByAlloc(old(m.frames), old(m.chunks), m.limit, m.frames, m.chunks, f, tree, root, n, i, attr);
    ghost var fr1 := m.frames;
    m.frames := Grow(m.frames, t, i, f, TableEntry(f, attr));
    ListSurvives(fr1, m.frames, m.head, m.chunks, m.limit);
    ok, tree' := true, tree[Child(n, i) := f];
  }

  /** `SetAttr` on a link entry, then follow it. */
  method FollowLink(m: Dram, t: nat, lvl: nat, v: nat, attr: nat, ghost tree: Tree, ghost root: nat)
    returns (child: nat)
    requires Sys(m, tree, root) && 2 <= lvl <= 4 && v < 0x10_0000_0000 && attr % 2 == 1
    requires NodeFor(lvl, v) in tree && tree[NodeFor(lvl, v)] == t
    requires IsLink(lvl, m.frames[t].entries[Index(lvl, v)])
    modifies m`frames
    ensures Sys(m, tree, root) && Same(old(m.frames), m.frames, root)
    ensures Grown(old(m.frames), m.chunks, tree, m.frames, m.chunks, tree)
    ensures SameTables(old(m.frames), m.frames, tree, NodeFor(lvl, v))
    ensures NodeFor(lvl - 1, v) in tree && tree[NodeFor(lvl - 1, v)] == child
  {
    ghost var n := NodeFor(lvl, v);
    var i := Index(lvl, v);
    SlotSplit(lvl, v);
    TouchLink(m.frames, m.chunks, tree, root, n, i, attr);
    var e := m.frames[t].entries[i];
    m.frames := SetEntry(m.frames, t, i, e.(attr := attr));
    ListSurvives(old(m.frames), m.frames, m.head, m.chunks, m.limit);
    child := e.frame;
    assert LinkOk(old(m.frames), tree, n, i) && Child(n, i) == NodeFor(lvl - 1, v);
    assert HangsOff(old(m.frames), tree, Child(n, i)) && Parent(Child(n, i)) == n;
  }

  lemma LargePageSeen(fr: Frames, tree: Tree, root: nat, lvl: nat, v: nat)
    requires WellFormed(fr, tree, root) && 2 <= lvl <= 4 && v < 0x10_0000_0000 && NodeFor(lvl, v) in tree
    requires var e := fr[tree[NodeFor(lvl, v)]].entries[Index(lvl, v)]; e.Present() && IsPage(lvl, e)
    ensures Translate(fr, root, v).Mapped? && Translate(fr, root, v).lvl == lvl
  {
    WalkReaches(fr, tree, root, lvl, v);
  }

  /** The step shared by the three outer loops: take the entry for `v`, give it a fresh
      table when it is not present, set its attributes, and follow it. */
  method NextTable(m: Dram, t: nat, lvl: nat, v: nat, attr: nat, ghost tree: Tree, ghost root: nat, ghost p: nat, ghost left: nat)
    returns (st: Status, child: nat, ghost tree': Tree)
    requires Sys(m, tree, root) && 2 <= lvl <= 4 && v < 0x10_0000_0000 && attr % 2 == 1
    requires NodeFor(lvl, v) in tree && tree[NodeFor(lvl, v)] == t
    modifies m
    ensures st.Done? ==> && Sys(m, tree', root) && Opened(lvl, root, old(StopAt(m, tree, v, p, left)), StopAt(m, tree', v, p, left))
                         && NodeFor(lvl - 1, v) in tree' && tree'[NodeFor(lvl - 1, v)] == child
    ensures st.LargePage? ==> st.lvl == lvl && var x := Translate(old(m.frames), root, v); x.Mapped? && x.lvl == lvl
    ensures st.NoMemory? ==> FirstFit(m.chunks, 1, None) == |m.chunks|
  {
    var i := Index(lvl, v);
    tree', child := tree, 0;
    if !m.frames[t].entries[i].Present() {
      var ok;
      ok, tree' := LinkNewTable(m, t, lvl, v, attr, tree, root);
      if !ok {
        return NoMemory, child, tree';
      }
    }
    var e := m.frames[t].entries[i];
    if IsPage(lvl, e) {
      LargePageSeen(m.frames, tree, root, lvl, v);
      m.frames := SetEntry(m.frames, t, i, e.(attr := attr));
      return LargePage(lvl), child, tree';
    }
    ghost var fr1 := m.frames;
    child := FollowLink(m, t, lvl, v, attr, tree', root);
    GrownTwice(old(m.frames), old(m.chunks), tree, fr1, m.chunks, tree', m.frames, m.chunks, tree');
    st := Done;
  }

  /** Table `pt` serves page `v`. */
  ghost predicate Serves(tree: Tree, pt: nat, v: nat) {
    v < 0x10_0000_0000 && NodeFor(1, v) in tree && tree[NodeFor(1, v)] == pt
  }

  ghost predicate ServesAll(tree: Tree, pt: nat, base: nat) {
    forall q | base <= q < base + 512 :: Serves(tree, pt, q)
  }

  /** Body of the innermost loop: one 4 KiB page. */
  method StorePage(m: Dram, pt: nat, v: nat, p: nat, left: nat, attr: nat, ghost tree: Tree, ghost root: nat, ghost a: Stop,
                   ghost base: nat)
    requires Progress(m, root, attr, a, StopAt(m, tree, v, p, left)) && attr % 2 == 1
    requires left > 0 && ServesAll(tree, pt, base) && base <= v < base + 512
    modifies m`frames
    ensures Progress(m, root, attr, a, StopAt(m, tree, v + 1, p + 1, left - 1))
  {
    ghost var b := StopAt(m, tree, v, p, left);
    assert Serves(tree, pt, v) && Span(1) == 1;
    StoreLeaf(m, pt, 1, v, p, left, attr, tree, root);
    AdvancedTwice(root, attr, a, b, StopAt(m, tree, v + 1, p + 1, left - 1));
  }

  /** The innermost loop, over the entries of one page table from `idx0` on. */
  method StorePages(m: Dram, pt: nat, idx0: nat, v0: nat, p0: nat, left0: nat, attr: nat, ghost tree: Tree, ghost root: nat,
                    ghost base: nat, ghost a: Stop)
    returns (v: nat, p: nat, left: nat)
    requires Progress(m, root, attr, a, StopAt(m, tree, v0, p0, left0)) && attr % 2 == 1 && idx0 < 512 && v0 == base + idx0
    requires ServesAll(tree, pt, base)
    modifies m`frames
    ensures Progress(m, root, attr, a, StopAt(m, tree, v, p, left))
    ensures v <= base + 512 && (left == 0 || v == base + 512)
    ensures left0 > 0 ==> v > v0
  {
    v, p, left := v0, p0, left0;
    var idx := idx0;
    while left > 0 && idx < 512
      invariant v0 <= v == base + idx && idx <= 512
      invariant v + left == v0 + left0
      invariant Progress(m, root, attr, a, StopAt(m, tree, v, p, left))
    {
      StorePage(m, pt, v, p, left, attr, tree, root, a, base);
      v, p, left, idx := v + 1, p + 1, left - 1, idx + 1;
    }
  }

  /** The innermost loop, over one page table. */
  method FillPageTable(m: Dram, pt: nat, v0: nat, p0: nat, left0: nat, attr: nat, ghost tree: Tree, ghost root: nat)
    returns (v: nat, p: nat, left: nat)
    requires Sys(m, tree, root) && v0 < 0x10_0000_0000 && attr % 2 == 1
    requires NodeFor(1, v0) in tree && tree[NodeFor(1, v0)] == pt
    modifies m`frames
    ensures Progress(m, root, attr, old(StopAt(m, tree, v0, p0, left0)), StopAt(m, tree, v, p, left))
    ensures v <= TableBase(1, v0) + 512 && (left == 0 || v == TableBase(1, v0) + 512)
    ensures left0 > 0 ==> v > v0
  {
    PageTableStart(v0);
    ghost var base := TableBase(1, v0);
    forall q | base <= q < base + 512 ensures Serves(tree, pt, q) {
      PageTableServes(v0, q - base);
    }
    ghost var a := StopAt(m, tree, v0, p0, left0);
    AdvancedStarts(root, attr, a);
    v, p, left := StorePages(m, pt, Index(1, v0), v0, p0, left0, attr, tree, root, base, a);
  }

  /** The first page served by the table at `lvl` that serves `v`. */
  function TableBase(lvl: nat, v: nat): nat { v - v % Span(lvl + 1) }

  lemma PageTableStart(v: nat)
    ensures TableBase(1, v) + Index(1, v) == v
  {
  }

  lemma PageTableServes(v0: nat, i: nat)
    requires v0 < 0x10_0000_0000 && i < 512
    ensures var v := TableBase(1, v0) + i;
            NodeFor(1, v) == NodeFor(1, v0) && Index(1, v) == i && v < 0x10_0000_0000
  {
  }

  /** Where a loop over the table at `lvl` stands after reaching entry `idx`. */
  function LoopAt(lvl: nat, v0: nat, idx: nat): nat {
    if idx == Index(lvl, v0) then v0 else TableBase(lvl, v0) + idx * Span(lvl)
  }

  /** Page `r` of entry `idx` in table number `a`, where an entry covers `s` pages. */
  lemma EntryArithmetic(s: nat, a: nat, idx: nat, r: nat)
    requires s > 0 && idx < 512 && r < s
    ensures var v := a * (512 * s) + idx * s + r;
            && v / s == a * 512 + idx && v % s == r
            && v / (512 * s) == a && v % (512 * s) == idx * s + r
            && idx * s + s <= 512 * s
  {
    var v := a * (512 * s) + idx * s + r;
    assert v == (a * 512 + idx) * s + r;
    DivUnique(v, s, a * 512 + idx, r);
    assert idx * s + s <= 512 * s;
    DivUnique(v, 512 * s, a, idx * s + r);
  }

  lemma EntryParts(lvl: nat, v: nat)
    requires 1 <= lvl <= 4
    ensures v == v / Span(lvl + 1) * (512 * Span(lvl)) + Index(lvl, v) * Span(lvl) + v % Span(lvl)
  {
    SlotSplit(lvl, v);
    var s, a, i := Span(lvl), v / Span(lvl + 1), Index(lvl, v);
    assert v == v / s * s + v % s;
    assert v / s * s == (a * 512 + i) * s == a * (512 * s) + i * s;
  }

  lemma SpanNext(lvl: nat)
    requires 1 <= lvl <= 4
    ensures Span(lvl + 1) == 512 * Span(lvl)
    ensures 0x10_0000_0000 % Span(lvl + 1) == 0
  {
  }

  lemma TableFits(t: nat, a: nat)
    requires t > 0 && 0x10_0000_0000 % t == 0 && a * t < 0x10_0000_0000
    ensures a * t + t <= 0x10_0000_0000
  {
    var k := 0x10_0000_0000 / t;
    assert a >= k ==> a * t >= k * t;
    assert (a + 1) * t <= k * t;
  }

  /** Entry `idx` belongs to the same table, and one iteration moves to the next entry. */
  lemma LoopAtEntry(lvl: nat, v0: nat, idx: nat)
    requires 1 <= lvl <= 4 && Index(lvl, v0) <= idx < 512 && v0 < 0x10_0000_0000
    ensures var v := LoopAt(lvl, v0, idx);
            && v0 <= v < TableBase(lvl, v0) + Span(lvl + 1) <= 0x10_0000_0000
            && NodeFor(lvl, v) == NodeFor(lvl, v0) && Index(lvl, v) == idx
            && v - v % Span(lvl) + Span(lvl) == LoopAt(lvl, v0, idx + 1)
            && LoopAt(lvl, v0, idx + 1) <= TableBase(lvl, v0) + Span(lvl + 1)
  {
    var s := Span(lvl);
    SpanNext(lvl);
    var a, i0, r := v0 / Span(lvl + 1), Index(lvl, v0), v0 % s;
    EntryParts(lvl, v0);
    EntryArithmetic(s, a, i0, r);
    EntryArithmetic(s, a, idx, 0);
    assert Index(lvl, v0) == i0;
    TableFits(512 * s, a);
    assert (idx + 1) * s == idx * s + s;
    if idx > i0 {
      assert idx * s >= (i0 + 1) * s;
    }
  }

  /** A loop over the table at `lvl` that started from `v0` stands at entry `idx` and page `v`. */
  predicate Standing(lvl: nat, v0: nat, idx: nat, v: nat, left: nat) {
    && Index(lvl, v0) <= idx <= 512 && v0 <= v <= LoopAt(lvl, v0, idx) <= TableBase(lvl, v0) + Span(lvl + 1)
    && (left == 0 || v == LoopAt(lvl, v0, idx))
  }

  lemma StandingStarts(lvl: nat, v0: nat, left: nat)
    requires 1 <= lvl <= 4 && v0 < 0x10_0000_0000
    ensures Standing(lvl, v0, Index(lvl, v0), v0, left)
  {
    LoopAtEntry(lvl, v0, Index(lvl, v0));
  }

  lemma StandingServes(lvl: nat, v0: nat, idx: nat, v: nat, left: nat)
    requires 1 <= lvl <= 4 && v0 < 0x10_0000_0000 && Standing(lvl, v0, idx, v, left) && idx < 512 && left > 0
    ensures v < 0x10_0000_0000 && NodeFor(lvl, v) == NodeFor(lvl, v0)
  {
    LoopAtEntry(lvl, v0, idx);
  }

  lemma StandingMoves(lvl: nat, v0: nat, idx: nat, v: nat, left: nat, v': nat, left': nat)
    requires 1 <= lvl <= 4 && v0 < 0x10_0000_0000 && Standing(lvl, v0, idx, v, left) && idx < 512 && left > 0 && v <= v'
    requires var end := TableBase(lvl - 1, v) + Span(lvl); v' <= end && (left' == 0 || v' == end)
    ensures Standing(lvl, v0, idx + 1, v', left')
  {
    LoopAtEntry(lvl, v0, idx);
  }

  lemma StandingEnds(lvl: nat, v0: nat, idx: nat, v: nat, left: nat)
    requires 1 <= lvl <= 4 && v0 < 0x10_0000_0000 && Standing(lvl, v0, idx, v, left) && (left == 0 || idx == 512)
    ensures var end := TableBase(lvl, v0) + Span(lvl + 1); v <= end && (left == 0 || v == end)
  {
    SpanNext(lvl);
  }

  /** How a loop ends: all its pages mapped, or a panic with its cause. A large page is only
      reported for a page of the request that was under one at the start. */
  ghost predicate Outcome(st: Status, m: Dram, root: nat, attr: nat, a: Stop, b: Stop)
    reads m
  {
    match st
    case Done => Progress(m, root, attr, a, b)
    case NoMemory => FirstFit(m.chunks, 1, None) == |m.chunks|
    case LargePage(lvl) =>
      && a.v <= b.v < a.v + a.left && b.v < 0x10_0000_0000
      && Translate(a.fr, root, b.v).Mapped? && Translate(a.fr, root, b.v).lvl == lvl && (lvl == 2 || lvl == 3)
  }

  /** Continuing a finished stretch with whatever comes next. */
  lemma OutcomeJoins(st: Status, m: Dram, root: nat, attr: nat, a: Stop, b: Stop, c: Stop)
    requires Advanced(root, attr, a, b) && Outcome(st, m, root, attr, b, c)
    ensures Outcome(st, m, root, attr, a, c)
  {
    if st.Done? {
      AdvancedTwice(root, attr, a, b, c);
    } else if st.LargePage? {
      assert MapsAt(a.fr, b.fr, root, a.v, a.p, b.v - a.v, attr, c.v);
    }
  }

  /** The same behind an opened entry. */
  lemma OpenedJoins(st: Status, m: Dram, lvl: nat, root: nat, attr: nat, a: Stop, b: Stop, c: Stop)
    requires 2 <= lvl <= 4 && Opened(lvl, root, a, b) && Outcome(st, m, root, attr, b, c)
    requires lvl < 4 && st.Done? ==> b.v < c.v
    ensures Outcome(st, m, root, attr, a, c)
  {
    if st.Done? {
      OpenedThenAdvanced(lvl, root, attr, a, b, c);
    }
  }

  lemma LargeFits(v: nat)
    requires v < 0x10_0000_0000 && v % 512 == 0
    ensures v + 512 <= 0x10_0000_0000 && TableBase(1, v) == v
  {
  }

  /** The 2 MiB case of the page-directory loop. */
  method FillLarge(m: Dram, pdt: nat, v0: nat, p0: nat, left0: nat, attr: nat, ghost tree: Tree, ghost root: nat)
    requires Sys(m, tree, root) && v0 < 0x10_0000_0000 && attr % 2 == 1
    requires NodeFor(2, v0) in tree && tree[NodeFor(2, v0)] == pdt && !m.frames[pdt].entries[Index(2, v0)].Present()
    requires left0 >= 512 && v0 % 512 == 0 && p0 % 512 == 0
    modifies m`frames
    ensures Progress(m, root, attr, old(StopAt(m, tree, v0, p0, left0)), StopAt(m, tree, v0 + 512, p0 + 512, left0 - 512))
    ensures PageSizeIs(m.frames, root, v0, v0 + 512, 2)
  {
    LargeFits(v0);
    assert Span(2) == 512;
    StoreLeaf(m, pdt, 2, v0, p0, left0, attr, tree, root);
    LargeSize(m.frames, tree, root, v0, v0 + 512);
  }

  /** The pages from `v` up to `w` are mapped by leaves of this level. */
  ghost predicate PageSizeIs(fr: Frames, root: nat, v: nat, w: nat, lvl: nat) {
    forall q | v <= q < w :: Translate(fr, root, q).Mapped? && Translate(fr, root, q).lvl == lvl
  }

  /** Pages without a page table can only be mapped by a large page. */
  lemma LargeSize(fr: Frames, tree: Tree, root: nat, v: nat, w: nat)
    requires WellFormed(fr, tree, root) && v % 512 == 0 && w <= v + 512 && w <= 0x10_0000_0000
    requires NodeFor(2, v) in tree && IsTable(fr, tree[NodeFor(2, v)])
    requires var e := fr[tree[NodeFor(2, v)]].entries[Index(2, v)]; e.Present() && e.ps
    ensures PageSizeIs(fr, root, v, w, 2)
  {
    forall q | v <= q < w ensures Translate(fr, root, q).Mapped? && Translate(fr, root, q).lvl == 2 {
      SameLargeSlot(v, q);
      WalkReaches(fr, tree, root, 2, q);
    }
  }

  lemma SameLargeSlot(v: nat, q: nat)
    requires v % 512 == 0 && v <= q < v + 512
    ensures NodeFor(2, q) == NodeFor(2, v) && Index(2, q) == Index(2, v)
  {
    DivUnique(q, 512, v / 512, q - v);
    SlotSplit(2, q);
    SlotSplit(2, v);
  }

  /** Pages with a page table are mapped by 4 KiB leaves, if at all. */
  lemma SmallSize(fr: Frames, tree: Tree, root: nat, v: nat, q: nat)
    requires WellFormed(fr, tree, root) && NodeFor(1, v) in tree && v <= q < TableBase(1, v) + 512 && q < 0x10_0000_0000
    ensures Translate(fr, root, q).Mapped? ==> Translate(fr, root, q).lvl == 1
  {
    PageTableStart(v);
    PageTableServes(v, q - TableBase(1, v));
    WalkReaches(fr, tree, root, 1, q);
  }

  lemma AllSmall(a: Stop, b: Stop, root: nat, attr: nat)
    requires Advanced(root, attr, a, b) && WellFormed(b.fr, b.tree, root) && a.v < 0x10_0000_0000
    requires NodeFor(1, a.v) in b.tree && b.v <= TableBase(1, a.v) + 512
    ensures PageSizeIs(b.fr, root, a.v, b.v, 1)
  {
    forall q | a.v <= q < b.v ensures Translate(b.fr, root, q).Mapped? && Translate(b.fr, root, q).lvl == 1 {
      assert MapsAt(a.fr, b.fr, root, a.v, a.p, b.v - a.v, attr, q);
      SmallSize(b.fr, b.tree, root, a.v, q);
    }
  }

  /** The other case: through a page table. */
  method FillSmall(m: Dram, pdt: nat, v0: nat, p0: nat, left0: nat, attr: nat, ghost tree: Tree, ghost root: nat)
    returns (st: Status, v: nat, p: nat, left: nat, ghost tree': Tree)
    requires Sys(m, tree, root) && v0 < 0x10_0000_0000 && left0 > 0 && attr % 2 == 1
    requires NodeFor(2, v0) in tree && tree[NodeFor(2, v0)] == pdt
    modifies m
    ensures Outcome(st, m, root, attr, old(StopAt(m, tree, v0, p0, left0)), StopAt(m, tree', v, p, left))
    ensures st.Done? ==> v0 < v <= TableBase(1, v0) + 512 && (left == 0 || v == TableBase(1, v0) + 512)
    ensures st.Done? ==> PageSizeIs(m.frames, root, v0, v, 1)
  {
    var pt;
    v, p, left := v0, p0, left0;
    ghost var a := StopAt(m, tree, v, p, left);
    st, pt, tree' := NextTable(m, pdt, 2, v, attr, tree, root, p, left);
    if st.Done? {
      ghost var b := StopAt(m, tree', v, p, left);
      v, p, left := FillPageTable(m, pt, v0, p0, left0, attr, tree', root);
      ghost var c := StopAt(m, tree', v, p, left);
      OpenedJoins(st, m, 2, root, attr, a, b, c);
      AllSmall(a, c, root, attr);
    }
  }

  /** Body of the page-directory loop: a 2 MiB page when the slot is empty and everything is
      aligned, else a page table. */
  method FillDirectoryEntry(m: Dram, pdt: nat, v0: nat, p0: nat, left0: nat, attr: nat, ghost tree: Tree, ghost root: nat)
    returns (st: Status, v: nat, p: nat, left: nat, ghost tree': Tree)
    requires Sys(m, tree, root) && v0 < 0x10_0000_0000 && left0 > 0 && attr % 2 == 1
    requires NodeFor(2, v0) in tree && tree[NodeFor(2, v0)] == pdt
    modifies m
    ensures Outcome(st, m, root, attr, old(StopAt(m, tree, v0, p0, left0)), StopAt(m, tree', v, p, left))
    ensures st.Done? ==> v0 < v <= TableBase(1, v0) + 512 && (left == 0 || v == TableBase(1, v0) + 512)
    ensures st.Done? && left0 >= 512 && v0 % 512 == 0 && p0 % 512 == 0 && !old(m.frames)[pdt].entries[Index(2, v0)].Present() ==>
              v == v0 + 512 && PageSizeIs(m.frames, root, v0, v, 2)
    ensures st.Done? && (left0 < 512 || v0 % 512 > 0 || p0 % 512 > 0 || old(m.frames)[pdt].entries[Index(2, v0)].Present()) ==>
              PageSizeIs(m.frames, root, v0, v, 1)
  {
    if !m.frames[pdt].entries[Index(2, v0)].Present() && left0 >= 512 && v0 % 512 == 0 && p0 % 512 == 0 {
      FillLarge(m, pdt, v0, p0, left0, attr, tree, root);
      LargeFits(v0);
      return Done, v0 + 512, p0 + 512, left0 - 512, tree;
    }
    st, v, p, left, tree' := FillSmall(m, pdt, v0, p0, left0, attr, tree, root);
  }

  /** The loop over one page directory. */
  method FillDirectory(m: Dram, pdt: nat, v0: nat, p0: nat, left0: nat, attr: nat, ghost tree: Tree, ghost root: nat)
    returns (st: Status, v: nat, p: nat, left: nat, ghost tree': Tree)
    requires Sys(m, tree, root) && v0 < 0x10_0000_0000 && attr % 2 == 1
    requires NodeFor(2, v0) in tree && tree[NodeFor(2, v0)] == pdt
    modifies m
    ensures Outcome(st, m, root, attr, old(StopAt(m, tree, v0, p0, left0)), StopAt(m, tree', v, p, left))
    ensures st.Done? ==> var end := TableBase(2, v0) + Span(3); v <= end && (left == 0 || v == end)
    ensures st.Done? && left0 > 0 ==> v > v0
  {
    st, v, p, left, tree' := Done, v0, p0, left0, tree;
    ghost var a := StopAt(m, tree, v, p, left);
    AdvancedStarts(root, attr, a);
    var idx := Index(2, v);
    LoopAtEntry(2, v0, idx);
    while left > 0 && idx < 512
      invariant Index(2, v0) <= idx <= 512 && st.Done? && (v > v0 || (left == left0 && idx == Index(2, v0)))
      invariant v <= LoopAt(2, v0, idx) <= TableBase(2, v0) + Span(3) && (left == 0 || v == LoopAt(2, v0, idx))
      invariant Progress(m, root, attr, a, StopAt(m, tree', v, p, left))
      decreases 512 - idx
    {
      LoopAtEntry(2, v0, idx);
      ghost var b := StopAt(m, tree', v, p, left);
      st, v, p, left, tree' := FillDirectoryEntry(m, pdt, v, p, left, attr, tree', root);
      OutcomeJoins(st, m, root, attr, a, b, StopAt(m, tree', v, p, left));
      if !st.Done? {
        return;
      }
      idx := idx + 1;
    }
  }

  /** Body of the directory-pointer loop. */
  method FillPointerEntry(m: Dram, pdpt: nat, v0: nat, p0: nat, left0: nat, attr: nat, ghost tree: Tree, ghost root: nat)
    returns (st: Status, v: nat, p: nat, left: nat, ghost tree': Tree)
    requires Sys(m, tree, root) && v0 < 0x10_0000_0000 && left0 > 0 && attr % 2 == 1
    requires NodeFor(3, v0) in tree && tree[NodeFor(3, v0)] == pdpt
    modifies m
    ensures Outcome(st, m, root, attr, old(StopAt(m, tree, v0, p0, left0)), StopAt(m, tree', v, p, left))
    ensures st.Done? ==> var end := TableBase(2, v0) + Span(3); v <= end && (left == 0 || v == end)
  {
    var pdt;
    v, p, left := v0, p0, left0;
    ghost var a := StopAt(m, tree, v, p, left);
    st, pdt, tree' := NextTable(m, pdpt, 3, v, attr, tree, root, p, left);
    if st.Done? {
      ghost var b := StopAt(m, tree', v, p, left);
      st, v, p, left, tree' := FillDirectory(m, pdt, v0, p0, left0, attr, tree', root);
      OpenedJoins(st, m, 3, root, attr, a, b, StopAt(m, tree', v, p, left));
    }
  }

  /** The loop over one directory-pointer table. */
  method FillPointers(m: Dram, pdpt: nat, v0: nat, p0: nat, left0: nat, attr: nat, ghost tree: Tree, ghost root: nat)
    returns (st: Status, v: nat, p: nat, left: nat, ghost tree': Tree)
    requires Sys(m, tree, root) && v0 < 0x10_0000_0000 && attr % 2 == 1
    requires NodeFor(3, v0) in tree && tree[NodeFor(3, v0)] == pdpt
    modifies m
    ensures Outcome(st, m, root, attr, old(StopAt(m, tree, v0, p0, left0)), StopAt(m, tree', v, p, left))
    ensures st.Done? ==> var end := TableBase(3, v0) + Span(4); v <= end && (left == 0 || v == end)
  {
    st, v, p, left, tree' := Done, v0, p0, left0, tree;
    ghost var a := StopAt(m, tree, v, p, left);
    AdvancedStarts(root, attr, a);
    var idx := Index(3, v);
    LoopAtEntry(3, v0, idx);
    while left > 0 && idx < 512
      invariant Index(3, v0) <= idx <= 512 && st.Done?
      invariant v <= LoopAt(3, v0, idx) <= TableBase(3, v0) + Span(4) && (left == 0 || v == LoopAt(3, v0, idx))
      invariant Progress(m, root, attr, a, StopAt(m, tree', v, p, left))
      decreases 512 - idx
    {
      LoopAtEntry(3, v0, idx);
      ghost var b := StopAt(m, tree', v, p, left);
      st, v, p, left, tree' := FillPointerEntry(m, pdpt, v, p, left, attr, tree', root);
      OutcomeJoins(st, m, root, attr, a, b, StopAt(m, tree', v, p, left));
      if !st.Done? {
        return;
      }
      idx := idx + 1;
    }
  }

  /** Body of the PML4 loop. It has no test on `left`: when nothing is left it still follows
      the entry for the end address, which may hang an empty table there. */
  method FillRootEntry(m: Dram, root: nat, v0: nat, p0: nat, left0: nat, attr: nat, ghost tree: Tree)
    returns (st: Status, v: nat, p: nat, left: nat, ghost tree': Tree)
    requires Sys(m, tree, root) && v0 < 0x10_0000_0000 && attr % 2 == 1
    modifies m
    ensures Outcome(st, m, root, attr, old(StopAt(m, tree, v0, p0, left0)), StopAt(m, tree', v, p, left))
    ensures st.Done? ==> var end := TableBase(3, v0) + Span(4); v <= end && (left == 0 || v == end)
    ensures st.Done? && left0 == 0 ==> v == v0
  {
    var pdpt;
    v, p, left := v0, p0, left0;
    assert NodeFor(4, v) == Node(4, 0);
    ghost var a := StopAt(m, tree, v, p, left);
    st, pdpt, tree' := NextTable(m, root, 4, v, attr, tree, root, p, left);
    if st.Done? {
      ghost var b := StopAt(m, tree', v, p, left);
      st, v, p, left, tree' := FillPointers(m, pdpt, v0, p0, left0, attr, tree', root);
      OpenedJoins(st, m, 4, root, attr, a, b, StopAt(m, tree', v, p, left));
    }
  }

  lemma RootEntry(v0: nat, idx: nat)
    requires v0 < 0x10_0000_0000 && Index(4, v0) <= idx < 512
    ensures LoopAt(4, v0, idx) < 0x10_0000_0000
  {
    LoopAtEntry(4, v0, idx);
  }

  lemma RootStep(v0: nat, idx: nat, v: nat, left: nat, v': nat, left': nat)
    requires v0 < 0x10_0000_0000 && Index(4, v0) <= idx < 512
    requires v <= LoopAt(4, v0, idx) && (left == 0 || v == LoopAt(4, v0, idx))
    requires v' + left' == v + left && (left == 0 ==> v' == v)
    requires var end := TableBase(3, v) + Span(4); v' <= end && (left' == 0 || v' == end)
    ensures v' <= LoopAt(4, v0, idx + 1) && (left' == 0 || v' == LoopAt(4, v0, idx + 1))
  {
    LoopAtEntry(4, v0, idx);
  }

  lemma RootLoop(v0: nat)
    requires v0 < 0x10_0000_0000
    ensures LoopAt(4, v0, Index(4, v0)) == v0 && LoopAt(4, v0, 512) == 0x10_0000_0000
  {
  }

  /** `CreatePageMapping` on page numbers: `left0` pages from `v0` to `p0`. The loop ends with
      the last PML4 entry, so a request that runs past the 48-bit space is cut off there. */
  method MapPages(m: Dram, root: nat, v0: nat, p0: nat, left0: nat, attr: nat, ghost tree: Tree)
    returns (st: Status, v: nat, p: nat, left: nat, ghost tree': Tree)
    requires Sys(m, tree, root) && v0 < 0x10_0000_0000 && attr % 2 == 1
    modifies m
    ensures Outcome(st, m, root, attr, old(StopAt(m, tree, v0, p0, left0)), StopAt(m, tree', v, p, left))
    ensures st.Done? ==> left == 0 || v == 0x10_0000_0000
  {
    st, v, p, left, tree' := Done, v0, p0, left0, tree;
    ghost var a := StopAt(m, tree, v, p, left);
    AdvancedStarts(root, attr, a);
    var idx := Index(4, v);
    RootLoop(v0);
    while idx < 512
      invariant Index(4, v0) <= idx <= 512 && st.Done?
      invariant v <= LoopAt(4, v0, idx) && (left == 0 || v == LoopAt(4, v0, idx))
      invariant Progress(m, root, attr, a, StopAt(m, tree', v, p, left))
      decreases 512 - idx
    {
      RootEntry(v0, idx);
      ghost var b := StopAt(m, tree', v, p, left);
      st, v, p, left, tree' := FillRootEntry(m, root, v, p, left, attr, tree');
      OutcomeJoins(st, m, root, attr, a, b, StopAt(m, tree', v, p, left));
      if !st.Done? {
        return;
      }
      RootStep(v0, idx, b.v, b.left, v, left);
      idx := idx + 1;
    }
  }

  // ----- In byte addresses -----

  predicate InRange(vaddr: nat, bytes: nat, a: nat) {
    vaddr % 0x1_0000_0000_0000 <= a % 0x1_0000_0000_0000 < vaddr % 0x1_0000_0000_0000 + bytes
  }

  predicate ByteAt(fr: Frames, root: nat, vaddr: nat, paddr: nat, k: nat) {
    V2p(fr, root, vaddr + k) == paddr + k
  }

  /** Byte `vaddr + k` now translates to `paddr + k`; every address outside the range, taken
      modulo the 48-bit space, translates as before. */
  ghost predicate MapsBytes(fr: Frames, fr': Frames, root: nat, vaddr: nat, paddr: nat, bytes: nat) {
    && (forall k | 0 <= k < bytes :: ByteAt(fr', root, vaddr, paddr, k))
    && (forall a: nat | !InRange(vaddr, bytes, a) :: V2p(fr', root, a) == V2p(fr, root, a))
  }

  lemma PageOfByte(vaddr: nat, k: nat)
    requires vaddr % 4096 == 0
    requires vaddr / 4096 % 0x10_0000_0000 + k / 4096 < 0x10_0000_0000
    ensures (vaddr + k) / 4096 % 0x10_0000_0000 == vaddr / 4096 % 0x10_0000_0000 + k / 4096
    ensures (vaddr + k) % 4096 == k % 4096
  {
    assert (vaddr + k) / 4096 == vaddr / 4096 + k / 4096;
  }

  lemma PageOfRange(vaddr: nat, cnt: nat, a: nat)
    requires vaddr % 4096 == 0
    ensures var v, q := vaddr / 4096 % 0x10_0000_0000, a / 4096 % 0x10_0000_0000;
            InRange(vaddr, cnt * 4096, a) <==> v <= q < v + cnt
  {
    assert a % 0x1_0000_0000_0000 == a / 4096 % 0x10_0000_0000 * 4096 + a % 4096;
    assert vaddr % 0x1_0000_0000_0000 == vaddr / 4096 % 0x10_0000_0000 * 4096;
  }

  lemma PagesToBytes(fr: Frames, fr': Frames, root: nat, vaddr: nat, paddr: nat, cnt: nat, attr: nat)
    requires vaddr % 4096 == 0 && paddr % 4096 == 0
    requires vaddr / 4096 % 0x10_0000_0000 + cnt <= 0x10_0000_0000
    requires Maps(fr, fr', root, vaddr / 4096 % 0x10_0000_0000, paddr / 4096, cnt, attr)
    ensures MapsBytes(fr, fr', root, vaddr, paddr, cnt * 4096)
  {
    var v, p := vaddr / 4096 % 0x10_0000_0000, paddr / 4096;
    forall k | 0 <= k < cnt * 4096 ensures ByteAt(fr', root, vaddr, paddr, k) {
      PageOfByte(vaddr, k);
      assert MapsAt(fr, fr', root, v, p, cnt, attr, v + k / 4096);
    }
    forall a: nat | !InRange(vaddr, cnt * 4096, a) ensures V2p(fr', root, a) == V2p(fr, root, a) {
      PageOfRange(vaddr, cnt, a);
      assert MapsAt(fr, fr', root, v, p, cnt, attr, a / 4096 % 0x10_0000_0000);
    }
  }

  /** How many pages a request maps: all of them unless the 48-bit space ends first. */
  function PagesMapped(vaddr: nat, byteSize: nat): nat {
    var room := 0x10_0000_0000 - vaddr / 4096 % 0x10_0000_0000;
    if PagesOf(byteSize) <= room then PagesOf(byteSize) else room
  }

  lemma AllMapped(root: nat, attr: nat, a: Stop, b: Stop, vaddr: nat, paddr: nat, byteSize: nat)
    requires vaddr % 4096 == 0 && paddr % 4096 == 0 && Advanced(root, attr, a, b) && (b.left == 0 || b.v == 0x10_0000_0000)
    requires a.v == vaddr / 4096 % 0x10_0000_0000 && a.p == paddr / 4096 && a.left == PagesOf(byteSize)
    ensures b.v == a.v + PagesMapped(vaddr, byteSize)
    ensures MapsBytes(a.fr, b.fr, root, vaddr, paddr, PagesMapped(vaddr, byteSize) * 4096)
    ensures Maps(a.fr, b.fr, root, vaddr / 4096 % 0x10_0000_0000, paddr / 4096, PagesMapped(vaddr, byteSize), attr)
  {
    PagesToBytes(a.fr, b.fr, root, vaddr, paddr, b.v - a.v, attr);
  }

  /** Byte `k` of a request is where it should be, with these leaf attributes. */
  ghost predicate RequestByte(fr: Frames, root: nat, vaddr: nat, paddr: nat, attr: nat, k: nat) {
    var x := Translate(fr, root, (vaddr + k) / 4096 % 0x10_0000_0000);
    V2p(fr, root, vaddr + k) == paddr + k && x.Mapped? && x.attr == attr
  }

  /** What a request for `bytes` bytes promises, in addresses alone: every byte of it below the end
      of the 48-bit space is mapped, and no address before it, or in a page that starts behind its
      last byte, translates differently. */
  ghost predicate RequestMet(fr: Frames, fr': Frames, root: nat, vaddr: nat, paddr: nat, bytes: nat, attr: nat) {
    && (forall k | 0 <= k < bytes && vaddr % 0x1_0000_0000_0000 + k < 0x1_0000_0000_0000 ::
          RequestByte(fr', root, vaddr, paddr, attr, k))
    && (forall a: nat | || a % 0x1_0000_0000_0000 < vaddr % 0x1_0000_0000_0000
                        || a % 0x1_0000_0000_0000 - a % 4096 >= vaddr % 0x1_0000_0000_0000 + bytes ::
          V2p(fr', root, a) == V2p(fr, root, a))
  }

  lemma SplitAddress(a: nat)
    ensures a % 0x1_0000_0000_0000 == a / 4096 % 0x10_0000_0000 * 4096 + a % 4096
  {
    var p, o := a / 4096, a % 4096;
    var h, l := p / 0x10_0000_0000, p % 0x10_0000_0000;
    assert a == h * 0x1_0000_0000_0000 + (l * 4096 + o);
    DivUnique(a, 0x1_0000_0000_0000, h, l * 4096 + o);
  }

  /** A byte of the request lies in one of the pages mapped. */
  lemma RequestPage(vaddr: nat, bytes: nat, k: nat)
    requires vaddr % 4096 == 0 && k < bytes && vaddr % 0x1_0000_0000_0000 + k < 0x1_0000_0000_0000
    ensures k / 4096 < PagesMapped(vaddr, bytes)
    ensures vaddr / 4096 % 0x10_0000_0000 + k / 4096 < 0x10_0000_0000
  {
    SplitAddress(vaddr);
  }

  lemma RequestMeets(fr: Frames, fr': Frames, root: nat, vaddr: nat, paddr: nat, bytes: nat, attr: nat)
    requires vaddr % 4096 == 0 && paddr % 4096 == 0
    requires MapsBytes(fr, fr', root, vaddr, paddr, PagesMapped(vaddr, bytes) * 4096)
    requires Maps(fr, fr', root, vaddr / 4096 % 0x10_0000_0000, paddr / 4096, PagesMapped(vaddr, bytes), attr)
    ensures RequestMet(fr, fr', root, vaddr, paddr, bytes, attr)
  {
    var v, p, n := vaddr / 4096 % 0x10_0000_0000, paddr / 4096, PagesMapped(vaddr, bytes);
    forall k | 0 <= k < bytes && vaddr % 0x1_0000_0000_0000 + k < 0x1_0000_0000_0000
      ensures RequestByte(fr', root, vaddr, paddr, attr, k)
    {
      RequestPage(vaddr, bytes, k);
      PageOfByte(vaddr, k);
      assert MapsAt(fr, fr', root, v, p, n, attr, v + k / 4096);
      assert ByteAt(fr', root, vaddr, paddr, k);
    }
    forall a: nat | || a % 0x1_0000_0000_0000 < vaddr % 0x1_0000_0000_0000
                    || a % 0x1_0000_0000_0000 - a % 4096 >= vaddr % 0x1_0000_0000_0000 + bytes
      ensures V2p(fr', root, a) == V2p(fr, root, a)
    {
      BehindRequest(vaddr, bytes, a);
    }
  }

  lemma BehindRequest(vaddr: nat, bytes: nat, a: nat)
    requires vaddr % 4096 == 0
    requires || a % 0x1_0000_0000_0000 < vaddr % 0x1_0000_0000_0000
             || a % 0x1_0000_0000_0000 - a % 4096 >= vaddr % 0x1_0000_0000_0000 + bytes
    ensures !InRange(vaddr, PagesMapped(vaddr, bytes) * 4096, a)
  {
    SplitAddress(a);
    SplitAddress(vaddr);
  }

  predicate PageInRequest(vaddr: nat, byteSize: nat, q: nat) {
    var v := vaddr / 4096 % 0x10_0000_0000;
    v <= q < v + PagesMapped(vaddr, byteSize)
  }

  predicate UnderLarge(fr: Frames, root: nat, q: nat, lvl: nat) {
    var x := Translate(fr, root, q);
    x.Mapped? && x.lvl == lvl >= 2
  }

  /** `CreatePageMapping`. Either every page of the request is mapped with the given leaf
      attributes, no other translation changes and the table stays a tree; or it panics,
      because the allocator is out of chunks or because a page of the request already lies
      under a large page. */
  method CreatePageMapping(m: Dram, root: nat, vaddr: nat, paddr: nat, byteSize: nat, attr: nat, ghost tree: Tree)
    returns (st: Status, ghost tree': Tree)
    requires Sys(m, tree, root) && vaddr % 4096 == 0 && paddr % 4096 == 0
    requires attr < 32 && attr % 2 == 1 && paddr / 4096 + PagesOf(byteSize) <= m.limit
    modifies m
    ensures st.Done? ==> && Sys(m, tree', root)
                         && Grown(old(m.frames), old(m.chunks), tree, m.frames, m.chunks, tree')
                         && RequestMet(old(m.frames), m.frames, root, vaddr, paddr, byteSize, attr)
                         && MapsBytes(old(m.frames), m.frames, root, vaddr, paddr, PagesMapped(vaddr, byteSize) * 4096)
                         && Maps(old(m.frames), m.frames, root, vaddr / 4096 % 0x10_0000_0000, paddr / 4096,
                                 PagesMapped(vaddr, byteSize), attr)
                         && OffPath(old(m.frames), tree, m.frames, vaddr / 4096 % 0x10_0000_0000,
                                    vaddr / 4096 % 0x10_0000_0000 + PagesMapped(vaddr, byteSize))
    ensures st.LargePage? ==> exists q | PageInRequest(vaddr, byteSize, q) :: UnderLarge(old(m.frames), root, q, st.lvl)
    ensures st.NoMemory? ==> FirstFit(m.chunks, 1, None) == |m.chunks|
  {
    var v0 := vaddr / 4096 % 0x10_0000_0000;
    var v, p, left;
    st, v, p, left, tree' := MapPages(m, root, v0, paddr / 4096, PagesOf(byteSize), attr, tree);
    if st.Done? {
      AllMapped(root, attr, old(StopAt(m, tree, v0, paddr / 4096, PagesOf(byteSize))), StopAt(m, tree', v, p, left),
                vaddr, paddr, byteSize);
      RequestMeets(old(m.frames), m.frames, root, vaddr, paddr, byteSize, attr);
    } else if st.LargePage? {
      assert PageInRequest(vaddr, byteSize, v) && UnderLarge(old(m.frames), root, v, st.lvl);
    }
  }
}
