/** `FlushDirtyPages`: write back the dirty 4 KiB pages of a range and clear their dirty bits. */
module DirtyPages {
  import opened PhysicalMemory
  import opened PageTable
  import opened PageAllocator
  import opened Mapping
  import opened KernelHalf

  /** The page-table entry for page `q`. */
  ghost function Pte(fr: Frames, tree: Tree, q: nat): Entry
    requires NodeFor(1, q) in tree && IsTable(fr, tree[NodeFor(1, q)])
  {
    fr[tree[NodeFor(1, q)]].entries[q % 512]
  }

  /** Every page from `v` up to `end` has a page table. */
  ghost predicate Tabled(tree: Tree, v: nat, end: nat) {
    forall q | v <= q < end :: NodeFor(1, q) in tree
  }

  /** Frames of the dirty pages from `v` up to `end`, in address order. */
  ghost function DirtyFrames(fr: Frames, tree: Tree, root: nat, v: nat, end: nat): seq<nat>
    requires WellFormed(fr, tree, root) && v <= end && Tabled(tree, v, end)
    decreases end - v
  {
    if v == end then []
    else
      var e := Pte(fr, tree, end - 1);
      DirtyFrames(fr, tree, root, v, end - 1) + if e.dirty then [e.frame] else []
  }

  /** Entry `i` of table `n` after the pages from `v` up to `end` were swept. */
  ghost predicate SweptEntry(fr: Frames, fr': Frames, tree: Tree, v: nat, end: nat, n: Node, i: nat)
    requires n in tree && IsTable(fr, tree[n]) && i < 512
  {
    IsTable(fr', tree[n]) &&
    var e := fr[tree[n]].entries[i];
    fr'[tree[n]].entries[i] == if n.lvl == 1 && v <= n.pre * 512 + i < end then e.(dirty := false) else e
  }

  /** Dirty bits are cleared on the pages from `v` up to `end`, and nothing else has changed. */
  ghost predicate Cleared(fr: Frames, fr': Frames, tree: Tree, root: nat, v: nat, end: nat) {
    && WellFormed(fr, tree, root)
    && (forall n, i | n in tree && 0 <= i < 512 :: SweptEntry(fr, fr', tree, v, end, n, i))
    && (forall p: nat | p in fr && Unused(tree, p) :: p in fr' && fr'[p] == fr[p])
  }

  /** Where the sweep stands at page `v`: what it flushed, what it counted, what it changed. */
  ghost predicate Swept(m: Dram, tree: Tree, root: nat, fr0: Frames, v0: nat, v: nat,
                        stat0: nat, stat: nat, flushed: seq<nat>)
    reads m
  {
    Sys(m, tree, root) && SweptTo(fr0, m.frames, tree, root, v0, v, stat0, stat, flushed)
  }

  ghost predicate SweptTo(fr0: Frames, fr: Frames, tree: Tree, root: nat, v0: nat, v: nat, stat0: nat, stat: nat, flushed: seq<nat>) {
    && v0 <= v <= 0x10_0000_0000 && Tabled(tree, v0, v)
    && Cleared(fr0, fr, tree, root, v0, v)
    && flushed == DirtyFrames(fr0, tree, root, v0, v)
    && stat == stat0 + 64 * |flushed|
    && Same(fr0, fr, root)
  }

  lemma ClearOne(fr0: Frames, fr: Frames, tree: Tree, root: nat, v0: nat, v: nat)
    requires WellFormed(fr, tree, root) && Cleared(fr0, fr, tree, root, v0, v) && Same(fr0, fr, root)
    requires v0 <= v < 0x10_0000_0000 && NodeFor(1, v) in tree
    ensures var t := tree[NodeFor(1, v)];
            var fr' := SetEntry(fr, t, v % 512, fr[t].entries[v % 512].(dirty := false));
            && WellFormed(fr', tree, root) && Cleared(fr0, fr', tree, root, v0, v + 1) && Same(fr0, fr', root)
            && Pte(fr0, tree, v) == Pte(fr, tree, v)
  {
    var n, i := NodeFor(1, v), v % 512;
    var e' := fr[tree[n]].entries[i].(dirty := false);
    var fr' := SetEntry(fr, tree[n], i, e');
    SetKeepsTree(fr, tree, root, n, i, e');
    forall q | 0 <= q < 0x10_0000_0000 ensures Translate(fr', root, q) == Translate(fr0, root, q) {
      RefreshEntry(fr, tree, root, n, i, e', q);
    }
    assert SweptEntry(fr0, fr, tree, v0, v, n, i);
    var end := v + 1;
    forall k, j | k in tree && 0 <= j < 512 ensures SweptEntry(fr0, fr', tree, v0, end, k, j) {
      assert SweptEntry(fr0, fr, tree, v0, v, k, j);
    }
  }

  /** `CLFlush` over one page: one flush per 64-byte line. */
  method FlushPage(stat0: nat) returns (stat: nat)
    ensures stat == stat0 + 64
  {
    stat := stat0;
    var i := 0;
    while i < 4096
      invariant 0 <= i <= 4096 && i % 64 == 0 && stat == stat0 + i / 64
    {
      stat := stat + 1;
      i := i + 64;
    }
  }

  method ClearDirtyBit(m: Dram, t: nat, i: nat)
    requires m.Valid() && IsTable(m.frames, t) && i < 512 && !IsFree(m.chunks, t)
    modifies m`frames
    ensures m.Valid()
    ensures m.frames == SetEntry(old(m.frames), t, i, old(m.frames)[t].entries[i].(dirty := false))
  {
    m.frames := SetEntry(m.frames, t, i, m.frames[t].entries[i].(dirty := false));
    ListSurvives(old(m.frames), m.frames, m.head, m.chunks, m.limit);
  }

  lemma DirtyNext(fr0: Frames, tree: Tree, root: nat, v0: nat, v: nat)
    requires WellFormed(fr0, tree, root) && v0 <= v && Tabled(tree, v0, v) && NodeFor(1, v) in tree
    ensures Tabled(tree, v0, v + 1)
    ensures var e := Pte(fr0, tree, v);
            var more := if e.dirty then [e.frame] else [];
            DirtyFrames(fr0, tree, root, v0, v + 1) == DirtyFrames(fr0, tree, root, v0, v) + more
  {
  }

  /** One page further: its frame is flushed when it was dirty, and its bit is cleared. */
  lemma SweptNext(fr0: Frames, fr: Frames, tree: Tree, root: nat, v0: nat, v: nat, stat0: nat, stat: nat, flushed: seq<nat>)
    requires WellFormed(fr, tree, root) && SweptTo(fr0, fr, tree, root, v0, v, stat0, stat, flushed)
    requires v < 0x10_0000_0000 && NodeFor(1, v) in tree
    ensures var t := tree[NodeFor(1, v)];
            var e := fr[t].entries[v % 512];
            var fr' := SetEntry(fr, t, v % 512, e.(dirty := false));
            && WellFormed(fr', tree, root)
            && (e.dirty ==> SweptTo(fr0, fr', tree, root, v0, v + 1, stat0, stat + 64, flushed + [e.frame]))
            && (!e.dirty ==> SweptTo(fr0, fr', tree, root, v0, v + 1, stat0, stat, flushed))
  {
    ClearOne(fr0, fr, tree, root, v0, v);
    DirtyNext(fr0, tree, root, v0, v);
  }

  /** Body of the innermost loop. */
  method SweepPage(m: Dram, pt: nat, v: nat, stat1: nat, flushed1: seq<nat>,
                   ghost tree: Tree, ghost root: nat, ghost fr0: Frames, ghost v0: nat, ghost stat0: nat)
    returns (stat: nat, flushed: seq<nat>)
    requires Swept(m, tree, root, fr0, v0, v, stat0, stat1, flushed1)
    requires v < 0x10_0000_0000 && NodeFor(1, v) in tree && tree[NodeFor(1, v)] == pt
    modifies m`frames
    ensures Swept(m, tree, root, fr0, v0, v + 1, stat0, stat, flushed)
  {
    stat, flushed := stat1, flushed1;
    var i := Index(1, v);
    assert i == v % 512;
    var e := m.frames[pt].entries[i];
    SweptNext(fr0, m.frames, tree, root, v0, v, stat0, stat, flushed);
    if e.dirty {
      stat := FlushPage(stat);
      flushed := flushed + [e.frame];
      ClearDirtyBit(m, pt, i);
    } else {
      CleanEntry(m.frames, pt, i);
    }
  }

  lemma CleanEntry(fr: Frames, t: nat, i: nat)
    requires IsTable(fr, t) && i < 512 && !fr[t].entries[i].dirty
    ensures SetEntry(fr, t, i, fr[t].entries[i].(dirty := false)) == fr
  {
    assert fr[t].entries[i := fr[t].entries[i].(dirty := false)] == fr[t].entries;
  }

  lemma SweepStarts(m: Dram, tree: Tree, root: nat, v0: nat, stat0: nat)
    requires Sys(m, tree, root) && v0 <= 0x10_0000_0000
    ensures Swept(m, tree, root, m.frames, v0, v0, stat0, stat0, [])
  {
    forall n, i | n in tree && 0 <= i < 512 ensures SweptEntry(m.frames, m.frames, tree, v0, v0, n, i) {
    }
  }

  /** How the sweep ends; the last two are panics. */
  datatype SweepStatus = Complete | NotMapped | Overlap(lvl: nat)

  /** A link entry for `v` is there exactly when the tree has a table one level down. */
  method FollowEntry(m: Dram, t: nat, lvl: nat, v: nat, ghost tree: Tree, ghost root: nat) returns (st: SweepStatus, child: nat)
    requires Sys(m, tree, root) && 2 <= lvl <= 4 && v < 0x10_0000_0000
    requires NodeFor(lvl, v) in tree && tree[NodeFor(lvl, v)] == t
    ensures st.Complete? <==> NodeFor(lvl - 1, v) in tree
    ensures st.Complete? ==> tree[NodeFor(lvl - 1, v)] == child
    ensures st.Overlap? ==> st.lvl == lvl
  {
    ghost var n := NodeFor(lvl, v);
    var i := Index(lvl, v);
    SlotSplit(lvl, v);
    assert LinkOk(m.frames, tree, n, i) && Child(n, i) == NodeFor(lvl - 1, v) && Parent(Child(n, i)) == n;
    assert NodeFor(lvl - 1, v) in tree ==> HangsOff(m.frames, tree, NodeFor(lvl - 1, v));
    var e := m.frames[t].entries[i];
    if !e.Present() {
      return NotMapped, 0;
    }
    if IsPage(lvl, e) {
      return Overlap(lvl), 0;
    }
    return Complete, e.frame;
  }

  lemma {:induction false} MissingBelow(fr: Frames, tree: Tree, root: nat, lvl: nat, v: nat)
    requires WellFormed(fr, tree, root) && 1 <= lvl <= 3 && NodeFor(lvl, v) !in tree
    ensures NodeFor(1, v) !in tree
    decreases lvl
  {
    if lvl > 1 {
      SlotSplit(lvl, v);
      assert Parent(NodeFor(lvl - 1, v)) == NodeFor(lvl, v);
      assert NodeFor(lvl - 1, v) in tree ==> HangsOff(fr, tree, NodeFor(lvl - 1, v));
      MissingBelow(fr, tree, root, lvl - 1, v);
    }
  }

  /** The innermost loop, over one page table. */
  method SweepTable(m: Dram, pt: nat, v1: nat, left1: nat, stat1: nat, flushed1: seq<nat>,
                    ghost tree: Tree, ghost root: nat, ghost fr0: Frames, ghost v0: nat, ghost stat0: nat)
    returns (v: nat, left: nat, stat: nat, flushed: seq<nat>)
    requires Swept(m, tree, root, fr0, v0, v1, stat0, stat1, flushed1)
    requires v1 < 0x10_0000_0000 && NodeFor(1, v1) in tree && tree[NodeFor(1, v1)] == pt
    modifies m`frames
    ensures Swept(m, tree, root, fr0, v0, v, stat0, stat, flushed)
    ensures v + left == v1 + left1
    ensures var end := TableBase(1, v1) + 512; v <= end && (left == 0 || v == end)
  {
    v, left, stat, flushed := v1, left1, stat1, flushed1;
    var idx := Index(1, v);
    ghost var base := TableBase(1, v1);
    PageTableStart(v1);
    while left > 0 && idx < 512
      invariant idx <= 512 && v == base + idx && v + left == v1 + left1
      invariant Swept(m, tree, root, fr0, v0, v, stat0, stat, flushed)
    {
      PageTableServes(v1, idx);
      stat, flushed := SweepPage(m, pt, v, stat, flushed, tree, root, fr0, v0, stat0);
      v, left, idx := v + 1, left - 1, idx + 1;
    }
  }

  /** The loop over one page directory. */
  method SweepDirectory(m: Dram, pdt: nat, v1: nat, left1: nat, stat1: nat, flushed1: seq<nat>,
                        ghost tree: Tree, ghost root: nat, ghost fr0: Frames, ghost v0: nat, ghost stat0: nat)
    returns (st: SweepStatus, v: nat, left: nat, stat: nat, flushed: seq<nat>)
    requires Swept(m, tree, root, fr0, v0, v1, stat0, stat1, flushed1)
    requires v1 < 0x10_0000_0000 && NodeFor(2, v1) in tree && tree[NodeFor(2, v1)] == pdt
    modifies m`frames
    ensures v + left == v1 + left1 && v1 <= v
    ensures st.Complete? ==> && Swept(m, tree, root, fr0, v0, v, stat0, stat, flushed)
                             && var end := TableBase(2, v1) + Span(3); v <= end && (left == 0 || v == end)
    ensures !st.Complete? ==> left > 0 && NodeFor(1, v) !in tree && v < 0x10_0000_0000
  {
    st, v, left, stat, flushed := Complete, v1, left1, stat1, flushed1;
    var idx := Index(2, v);
    LoopAtEntry(2, v1, idx);
    while left > 0 && idx < 512
      invariant Index(2, v1) <= idx <= 512 && st.Complete? && v + left == v1 + left1 && v1 <= v
      invariant v <= LoopAt(2, v1, idx) <= TableBase(2, v1) + Span(3) && (left == 0 || v == LoopAt(2, v1, idx))
      invariant Swept(m, tree, root, fr0, v0, v, stat0, stat, flushed)
      decreases 512 - idx
    {
      LoopAtEntry(2, v1, idx);
      var pt;
      st, pt := FollowEntry(m, pdt, 2, v, tree, root);
      if !st.Complete? {
        return;
      }
      v, left, stat, flushed := SweepTable(m, pt, v, left, stat, flushed, tree, root, fr0, v0, stat0);
      idx := idx + 1;
    }
  }

  /** Body of the directory-pointer loop. */
  method SweepPointerEntry(m: Dram, pdpt: nat, v2: nat, left2: nat, stat2: nat, flushed2: seq<nat>, ghost v1: nat, ghost idx: nat,
                           ghost tree: Tree, ghost root: nat, ghost fr0: Frames, ghost v0: nat, ghost stat0: nat)
    returns (st: SweepStatus, v: nat, left: nat, stat: nat, flushed: seq<nat>)
    requires Swept(m, tree, root, fr0, v0, v2, stat0, stat2, flushed2)
    requires left2 > 0 && idx < 512 && Standing(3, v1, idx, v2, left2)
    requires v1 < 0x10_0000_0000 && NodeFor(3, v1) in tree && tree[NodeFor(3, v1)] == pdpt
    modifies m`frames
    ensures v + left == v2 + left2 && v2 <= v
    ensures st.Complete? ==> Swept(m, tree, root, fr0, v0, v, stat0, stat, flushed) && Standing(3, v1, idx + 1, v, left)
    ensures !st.Complete? ==> left > 0 && NodeFor(1, v) !in tree && v < 0x10_0000_0000
  {
    var pdt;
    StandingServes(3, v1, idx, v2, left2);
    v, left, stat, flushed := v2, left2, stat2, flushed2;
    st, pdt := FollowEntry(m, pdpt, 3, v, tree, root);
    if st.Complete? {
      st, v, left, stat, flushed := SweepDirectory(m, pdt, v, left, stat, flushed, tree, root, fr0, v0, stat0);
      if st.Complete? {
        StandingMoves(3, v1, idx, v2, left2, v, left);
      }
    } else {
      MissingBelow(m.frames, tree, root, 2, v);
    }
  }

  /** The loop over one directory-pointer table. */
  method SweepPointers(m: Dram, pdpt: nat, v1: nat, left1: nat, stat1: nat, flushed1: seq<nat>,
                       ghost tree: Tree, ghost root: nat, ghost fr0: Frames, ghost v0: nat, ghost stat0: nat)
    returns (st: SweepStatus, v: nat, left: nat, stat: nat, flushed: seq<nat>)
    requires Swept(m, tree, root, fr0, v0, v1, stat0, stat1, flushed1)
    requires v1 < 0x10_0000_0000 && NodeFor(3, v1) in tree && tree[NodeFor(3, v1)] == pdpt
    modifies m`frames
    ensures v + left == v1 + left1 && v1 <= v
    ensures st.Complete? ==> && Swept(m, tree, root, fr0, v0, v, stat0, stat, flushed)
                             && var end := TableBase(3, v1) + Span(4); v <= end && (left == 0 || v == end)
    ensures !st.Complete? ==> left > 0 && NodeFor(1, v) !in tree && v < 0x10_0000_0000
  {
    st, v, left, stat, flushed := Complete, v1, left1, stat1, flushed1;
    var idx := Index(3, v);
    StandingStarts(3, v1, left);
    while left > 0 && idx < 512
      invariant idx <= 512 && st.Complete? && v + left == v1 + left1 && v1 <= v
      invariant Standing(3, v1, idx, v, left)
      invariant Swept(m, tree, root, fr0, v0, v, stat0, stat, flushed)
      decreases 512 - idx
    {
      st, v, left, stat, flushed := SweepPointerEntry(m, pdpt, v, left, stat, flushed, v1, idx, tree, root, fr0, v0, stat0);
      if !st.Complete? {
        return;
      }
      idx := idx + 1;
    }
    StandingEnds(3, v1, idx, v, left);
  }

  /** Pages the request covers before the 48-bit space ends. */
  function SweepEnd(v0: nat, pages: nat): nat {
    if v0 + pages <= 0x10_0000_0000 then v0 + pages else 0x10_0000_0000
  }

  /** Body of the PML4 loop, run whether or not pages are left. */
  method SweepRootEntry(m: Dram, root: nat, v1: nat, left1: nat, stat1: nat, flushed1: seq<nat>,
                        ghost tree: Tree, ghost fr0: Frames, ghost v0: nat, ghost stat0: nat)
    returns (st: SweepStatus, v: nat, left: nat, stat: nat, flushed: seq<nat>)
    requires Swept(m, tree, root, fr0, v0, v1, stat0, stat1, flushed1) && v1 < 0x10_0000_0000
    modifies m`frames
    ensures v + left == v1 + left1 && v1 <= v
    ensures st.Complete? ==> && Swept(m, tree, root, fr0, v0, v, stat0, stat, flushed)
                             && NodeFor(3, v1) in tree
                             && var end := TableBase(3, v1) + Span(4); v <= end && (left == 0 || v == end)
    ensures !st.Complete? ==> && v < 0x10_0000_0000
                              && (if left > 0 then NodeFor(1, v) !in tree else NodeFor(3, v) !in tree)
  {
    assert NodeFor(4, v1) == Node(4, 0);
    var pdpt;
    v, left, stat, flushed := v1, left1, stat1, flushed1;
    st, pdpt := FollowEntry(m, root, 4, v, tree, root);
    if st.Complete? {
      st, v, left, stat, flushed := SweepPointers(m, pdpt, v, left, stat, flushed, tree, root, fr0, v0, stat0);
    } else if left > 0 {
      MissingBelow(m.frames, tree, root, 3, v);
    }
  }

  /** The sweep needs a page table for every page of the range, and the PML4 entry of the end
      address, which the outer loop keeps testing after the last page. */
  ghost predicate CanSweep(tree: Tree, v0: nat, pages: nat) {
    var end := SweepEnd(v0, pages);
    Tabled(tree, v0, end) && (end == 0x10_0000_0000 || NodeFor(3, end) in tree)
  }

  lemma CannotSweep(tree: Tree, v0: nat, pages: nat, v: nat, left: nat)
    requires v0 <= v < 0x10_0000_0000 && v + left == v0 + pages
    requires if left > 0 then NodeFor(1, v) !in tree else NodeFor(3, v) !in tree
    ensures !CanSweep(tree, v0, pages)
  {
    if left > 0 {
      assert v0 <= v < SweepEnd(v0, pages);
    }
  }

  /** Within one PML4 entry the end address is served by the table already followed. */
  lemma SameRootEntry(v0: nat, idx: nat, was: nat, v: nat)
    requires v0 < 0x10_0000_0000 && Index(4, v0) <= idx < 512
    requires was == LoopAt(4, v0, idx) && was <= v < LoopAt(4, v0, idx + 1)
    ensures NodeFor(3, v) == NodeFor(3, was)
  {
    assert TableBase(4, v0) == 0;
    assert Index(4, v0) == v0 / 0x800_0000;
    assert was / 0x800_0000 == idx == v / 0x800_0000;
  }

  /** Page `q` has a page table, and its entry is clean. */
  ghost predicate CleanAt(fr: Frames, tree: Tree, q: nat) {
    NodeFor(1, q) in tree && IsTable(fr, tree[NodeFor(1, q)]) && !Pte(fr, tree, q).dirty
  }

  /** The page of byte `k` behind `vaddr` is. */
  ghost predicate CleanByte(fr: Frames, tree: Tree, vaddr: nat, k: nat) {
    CleanAt(fr, tree, (vaddr + k) / 4096 % 0x10_0000_0000)
  }

  lemma SweptIsClean(fr0: Frames, fr: Frames, tree: Tree, root: nat, v0: nat, end: nat, q: nat)
    requires Cleared(fr0, fr, tree, root, v0, end) && Tabled(tree, v0, end) && v0 <= q < end
    ensures CleanAt(fr, tree, q)
  {
    var n := NodeFor(1, q);
    assert SweptEntry(fr0, fr, tree, v0, end, n, q % 512);
    assert n.pre * 512 + q % 512 == q;
  }

  /** `FlushDirtyPages`, in bytes. Every byte of the range, up to the end of the 48-bit space, then
      lies in a clean page. */
  method FlushDirtyPages(m: Dram, root: nat, vaddr: nat, byteSize: nat, stat0: nat, ghost tree: Tree)
    returns (st: SweepStatus, stat: nat, flushed: seq<nat>)
    requires Sys(m, tree, root) && vaddr % 4096 == 0
    modifies m`frames
    ensures var v0 := vaddr / 4096 % 0x10_0000_0000;
            && (st.Complete? <==> CanSweep(tree, v0, PagesOf(byteSize)))
            && (st.Complete? ==>
                  Swept(m, tree, root, old(m.frames), v0, SweepEnd(v0, PagesOf(byteSize)), stat0, stat, flushed))
    ensures st.Complete? ==>
              forall k | 0 <= k < byteSize && vaddr % 0x1_0000_0000_0000 + k < 0x1_0000_0000_0000 ::
                CleanByte(m.frames, tree, vaddr, k)
  {
    var v0, pages := vaddr / 4096 % 0x10_0000_0000, PagesOf(byteSize);
    st, stat, flushed := SweepPages(m, root, v0, pages, stat0, tree);
    if st.Complete? {
      forall k | 0 <= k < byteSize && vaddr % 0x1_0000_0000_0000 + k < 0x1_0000_0000_0000
        ensures CleanByte(m.frames, tree, vaddr, k)
      {
        RequestPage(vaddr, byteSize, k);
        PageOfByte(vaddr, k);
        SweptIsClean(old(m.frames), m.frames, tree, root, v0, SweepEnd(v0, pages), v0 + k / 4096);
      }
    }
  }

  /** The sweep on page numbers. When it succeeds it has flushed the frames of exactly
      the dirty pages, counted 64 line flushes for each, cleared exactly their dirty bits, and
      changed no translation. */
  method SweepPages(m: Dram, root: nat, v0: nat, pages: nat, stat0: nat, ghost tree: Tree)
    returns (st: SweepStatus, stat: nat, flushed: seq<nat>)
    requires Sys(m, tree, root) && v0 < 0x10_0000_0000
    modifies m`frames
    ensures st.Complete? <==> CanSweep(tree, v0, pages)
    ensures st.Complete? ==> Swept(m, tree, root, old(m.frames), v0, SweepEnd(v0, pages), stat0, stat, flushed)
  {
    var v: nat, left: nat := v0, pages;
    st, stat, flushed := Complete, stat0, [];
    ghost var fr0 := m.frames;
    var idx := Index(4, v);
    SweepStarts(m, tree, root, v0, stat0);
    while idx < 512
      invariant Index(4, v0) <= idx <= 512 && st.Complete? && v + left == v0 + pages
      invariant v <= LoopAt(4, v0, idx) && (left == 0 || v == LoopAt(4, v0, idx))
      invariant v < LoopAt(4, v0, idx) ==> NodeFor(3, v) in tree
      invariant Swept(m, tree, root, fr0, v0, v, stat0, stat, flushed)
      decreases 512 - idx
    {
      LoopAtEntry(4, v0, idx);
      ghost var was := v;
      st, v, left, stat, flushed := SweepRootEntry(m, root, v, left, stat, flushed, tree, fr0, v0, stat0);
      if !st.Complete? {
        CannotSweep(tree, v0, pages, v, left);
        return;
      }
      if was == LoopAt(4, v0, idx) && v < LoopAt(4, v0, idx + 1) {
        SameRootEntry(v0, idx, was, v);
      }
      idx := idx + 1;
    }
    assert LoopAt(4, v0, 512) == 0x10_0000_0000;
    assert v == SweepEnd(v0, pages);
  }

  // ----- The end address -----

  /** Hang a cleared table `f` off entry `i` of a cleared table. */
  lemma GrowCleared(fr: Frames, tree: Tree, root: nat, n: Node, i: nat, f: nat) returns (fr': Frames, tree': Tree)
    requires WellFormed(fr, tree, root) && n in tree && n.lvl > 1 && i < 512 && Unused(tree, f)
    requires fr[tree[n]] == ClearedTable()
    ensures tree' == tree[Child(n, i) := f] && WellFormed(fr', tree', root) && f in fr' && fr'[f] == ClearedTable()
  {
    var e := TableEntry(f, 1);
    assert CanGrow(fr, tree, root, n, i, f, e);
    GrowKeepsTree(fr, tree, root, n, i, f, e);
    fr', tree' := Grow(fr, tree[n], i, f, e), tree[Child(n, i) := f];
  }

  /** The condition on the end address is real: there are tables, in any four frames, that form a
      tree and cover the last page below the second PML4 entry, and yet sweeping just this page
      panics. */
  lemma EndAddressMatters(a: nat, b: nat, c: nat, d: nat) returns (fr: Frames, tree: Tree)
    requires a != b && a != c && a != d && b != c && b != d && c != d
    ensures WellFormed(fr, tree, a) && Tabled(tree, 0x7FF_FFFF, 0x800_0000) && !CanSweep(tree, 0x7FF_FFFF, 1)
  {
    var n4 := Node(4, 0);
    var n3 := Child(n4, 0);
    var n2 := Child(n3, 511);
    var n1 := Child(n2, 511);
    fr, tree := map[a := ClearedTable()], map[n4 := a];
    ClearedRoot(fr, a);
    fr, tree := GrowCleared(fr, tree, a, n4, 0, b);
    fr, tree := GrowCleared(fr, tree, a, n3, 511, c);
    fr, tree := GrowCleared(fr, tree, a, n2, 511, d);
    assert NodeFor(1, 0x7FF_FFFF) == n1;
    assert NodeFor(3, 0x800_0000) == Node(3, 1);
  }
}
