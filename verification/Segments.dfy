/** One segment of a process: its bytes in physical pages, its pages in the address space, and
    what loading it leaves alone. */
module Segments {
  import opened Basics
  import opened PhysicalMemory
  import opened PageTable
  import opened PageAllocator
  import opened Mapping
  import opened KernelHalf

  // ----- Bytes of physical memory -----

  predicate IsBytes(fr: Frames, p: nat) { p in fr && fr[p].Bytes? && |fr[p].bytes| == 4096 }

  /** A frame seen as bytes. What a table or a chunk header looks like as bytes is of no
      concern here: the loader overwrites every byte of the pages it is given. */
  function AsBytes(fr: Frames, p: nat): (s: seq<Byte>)
    ensures |s| == 4096
  {
    if IsBytes(fr, p) then fr[p].bytes else seq(4096, i => 0)
  }

  function ReadByte(fr: Frames, addr: nat): Byte {
    AsBytes(fr, addr / 4096)[addr % 4096]
  }

  function WriteByte(fr: Frames, addr: nat, b: Byte): Frames {
    fr[addr / 4096 := Bytes(AsBytes(fr, addr / 4096)[addr % 4096 := b])]
  }

  lemma ReadAfterWrite(fr: Frames, addr: nat, b: Byte, a: nat)
    ensures ReadByte(WriteByte(fr, addr, b), a) == if a == addr then b else ReadByte(fr, a)
    ensures IsBytes(WriteByte(fr, addr, b), a / 4096) <==> IsBytes(fr, a / 4096) || a / 4096 == addr / 4096
  {
    assert a == a / 4096 * 4096 + a % 4096 && addr == addr / 4096 * 4096 + addr % 4096;
  }

  /** Only pages of the range were written. */
  ghost predicate OnlyPages(fr: Frames, fr': Frames, page: nat, n: nat) {
    forall p: nat | p in fr && !(page <= p < page + n) :: p in fr' && fr'[p] == fr[p]
  }

  /** Byte `k` of the segment at `paddr` stands in a page of bytes and is the file's, or zero
      past what is copied. */
  predicate SegmentByte(fr: Frames, paddr: nat, file: seq<Byte>, ofs: nat, copySize: nat, k: nat)
    requires ofs + copySize <= |file|
  {
    IsBytes(fr, (paddr + k) / 4096) && ReadByte(fr, paddr + k) == if k < copySize then file[ofs + k] else 0
  }

  /** The first `n` bytes of the segment are in place. */
  ghost predicate Filled(fr: Frames, paddr: nat, file: seq<Byte>, ofs: nat, copySize: nat, n: nat)
    requires ofs + copySize <= |file|
  {
    forall k | 0 <= k < n :: SegmentByte(fr, paddr, file, ofs, copySize, k)
  }

  lemma FillNext(fr: Frames, paddr: nat, file: seq<Byte>, ofs: nat, copySize: nat, n: nat, b: Byte)
    requires ofs + copySize <= |file| && Filled(fr, paddr, file, ofs, copySize, n)
    requires b == if n < copySize then file[ofs + n] else 0
    ensures Filled(WriteByte(fr, paddr + n, b), paddr, file, ofs, copySize, n + 1)
  {
    var fr' := WriteByte(fr, paddr + n, b);
    forall k | 0 <= k < n + 1 ensures SegmentByte(fr', paddr, file, ofs, copySize, k) {
      ReadAfterWrite(fr, paddr + n, b, paddr + k);
      assert k < n ==> SegmentByte(fr, paddr, file, ofs, copySize, k);
    }
  }

  lemma SegmentPages(addr: nat, size: nat, k: nat)
    requires addr % 4096 == 0 && size % 4096 == 0 && k < size
    ensures addr / 4096 <= (addr + k) / 4096 < addr / 4096 + size / 4096
  {
  }

  /** `memcpy` from the file and `bzero` of the rest, over the whole mapped size. */
  method FillSegment(m: Dram, paddr: nat, file: seq<Byte>, ofs: nat, copySize: nat, mapSize: nat)
    requires paddr % 4096 == 0 && mapSize % 4096 == 0
    requires copySize <= mapSize && ofs + copySize <= |file|
    modifies m`frames
    ensures Filled(m.frames, paddr, file, ofs, copySize, mapSize)
    ensures OnlyPages(old(m.frames), m.frames, paddr / 4096, mapSize / 4096)
  {
    var k := 0;
    while k < copySize
      invariant 0 <= k <= copySize && Filled(m.frames, paddr, file, ofs, copySize, k)
      invariant OnlyPages(old(m.frames), m.frames, paddr / 4096, mapSize / 4096)
    {
      FillNext(m.frames, paddr, file, ofs, copySize, k, file[ofs + k]);
      SegmentPages(paddr, mapSize, k);
      m.frames := WriteByte(m.frames, paddr + k, file[ofs + k]);
      k := k + 1;
    }
    while k < mapSize
      invariant copySize <= k <= mapSize && Filled(m.frames, paddr, file, ofs, copySize, k)
      invariant OnlyPages(old(m.frames), m.frames, paddr / 4096, mapSize / 4096)
    {
      FillNext(m.frames, paddr, file, ofs, copySize, k, 0);
      SegmentPages(paddr, mapSize, k);
      m.frames := WriteByte(m.frames, paddr + k, 0);
      k := k + 1;
    }
  }

  // ----- What a step leaves alone -----

  /** Memory, the free list, and the tables of one process. */
  datatype Mem = Mem(fr: Frames, cs: seq<Chunk>, tree: Tree)

  ghost function MemOf(m: Dram, tree: Tree): Mem
    reads m
  {
    Mem(m.frames, m.chunks, tree)
  }

  /** A table of the upper half, which all processes share. */
  predicate Upper(n: Node) { n.lvl < 4 && TopIndex(n) >= 256 }

  /** The step may take free pages for tables, write tables of the lower half, and write the
      pages `w`; everything else is as before. */
  ghost predicate Kept(a: Mem, b: Mem, w: set<nat>) {
    && (forall p: nat | IsFree(b.cs, p) :: IsFree(a.cs, p))
    && (forall n | n in a.tree :: n in b.tree && b.tree[n] == a.tree[n])
    && (forall n | n in b.tree && n !in a.tree :: IsFree(a.cs, b.tree[n]))
    && (forall p: nat | p in a.fr && !IsFree(a.cs, p) && Unused(a.tree, p) && p !in w :: p in b.fr && b.fr[p] == a.fr[p])
    && (forall n | n in a.tree && Upper(n) && a.tree[n] in a.fr :: a.tree[n] in b.fr && b.fr[a.tree[n]] == a.fr[a.tree[n]])
  }

  /** Pages that are neither free nor tables stay so. */
  lemma KeptUnused(a: Mem, b: Mem, w: set<nat>, p: nat)
    requires Kept(a, b, w) && !IsFree(a.cs, p) && Unused(a.tree, p)
    ensures !IsFree(b.cs, p) && Unused(b.tree, p)
  {
    forall n | n in b.tree ensures b.tree[n] != p {
      assert n in a.tree ==> a.tree[n] != p;
    }
  }

  lemma KeptTwice(a: Mem, b: Mem, c: Mem, w: set<nat>, w': set<nat>)
    requires Kept(a, b, w) && Kept(b, c, w')
    ensures Kept(a, c, w + w')
  {
    forall p: nat | p in a.fr && !IsFree(a.cs, p) && Unused(a.tree, p) && p !in w + w'
      ensures p in c.fr && c.fr[p] == a.fr[p]
    {
      KeptUnused(a, b, w, p);
    }
  }

  // ----- Segments -----

  datatype SegmentMapping = SegmentMapping(vaddr: nat, paddr: nat, mapSize: nat)

  /** `PhdrInfo`, with `data` as an offset into the file. */
  datatype PhdrInfo = PhdrInfo(data: nat, vaddr: nat, mapSize: nat, copySize: nat)

  /** The physical pages of a segment. */
  predicate HasFrame(seg: SegmentMapping, p: nat) {
    seg.paddr / 4096 <= p < seg.paddr / 4096 + seg.mapSize / 4096
  }

  ghost function Pages(seg: SegmentMapping): set<nat> {
    set p: nat | p < seg.paddr / 4096 + seg.mapSize / 4096 && HasFrame(seg, p)
  }

  predicate InLowerHalf(seg: SegmentMapping) {
    seg.vaddr % 4096 == 0 && seg.mapSize % 4096 == 0 && seg.vaddr + seg.mapSize <= 0x8000_0000_0000
  }

  /** No page of `w` is free or holds a table. */
  ghost predicate Reserved(a: Mem, w: set<nat>) {
    forall p | p in w :: !IsFree(a.cs, p) && Unused(a.tree, p)
  }

  /** The segment asks for whole pages of the lower half and has physical pages of its own. */
  ghost predicate Placed(seg: SegmentMapping, a: Mem, limit: nat) {
    && InLowerHalf(seg) && seg.paddr % 4096 == 0
    && seg.paddr > 0 && seg.paddr / 4096 + seg.mapSize / 4096 <= limit
    && Reserved(a, Pages(seg))
  }

  predicate RangesApart(x: nat, n: nat, y: nat, k: nat) {
    n == 0 || k == 0 || x + n <= y || y + k <= x
  }

  /** Two segments share neither virtual nor physical pages. */
  predicate Apart(a: SegmentMapping, b: SegmentMapping) {
    && RangesApart(a.vaddr, a.mapSize, b.vaddr, b.mapSize)
    && RangesApart(a.paddr, a.mapSize, b.paddr, b.mapSize)
  }

  /** The part of the file the segment is filled from is there. */
  predicate Fillable(seg: SegmentMapping, info: PhdrInfo, file: seq<Byte>) {
    && info.vaddr == seg.vaddr && info.mapSize == seg.mapSize
    && info.copySize <= info.mapSize && info.data + info.copySize <= |file|
  }

  /** Byte `k` of the segment, read through the page table, is what the file says. */
  predicate LoadedByte(fr: Frames, root: nat, seg: SegmentMapping, info: PhdrInfo, file: seq<Byte>, k: nat)
    requires info.data + info.copySize <= |file|
  {
    V2p(fr, root, seg.vaddr + k) == seg.paddr + k && SegmentByte(fr, seg.paddr, file, info.data, info.copySize, k)
  }

  ghost predicate Loaded(fr: Frames, root: nat, seg: SegmentMapping, info: PhdrInfo, file: seq<Byte>) {
    Fillable(seg, info, file) && forall k | 0 <= k < seg.mapSize :: LoadedByte(fr, root, seg, info, file, k)
  }

  /** The virtual pages of the segment. */
  predicate HasPage(seg: SegmentMapping, q: nat) {
    seg.vaddr / 4096 <= q < seg.vaddr / 4096 + seg.mapSize / 4096
  }

  /** Pages of the request that nothing maps yet. */
  ghost predicate Vacant(fr: Frames, root: nat, seg: SegmentMapping) {
    forall q | HasPage(seg, q) :: Translate(fr, root, q) == Unmapped
  }

  /** Page `q` of the segment is mapped to its own page, with these leaf attributes. */
  predicate LeafAt(fr: Frames, root: nat, seg: SegmentMapping, attr: nat, q: nat) {
    var x := Translate(fr, root, q);
    x.Mapped? && x.attr == attr && x.page == seg.paddr / 4096 + (q - seg.vaddr / 4096)
  }

  ghost predicate Leaves(fr: Frames, root: nat, seg: SegmentMapping, attr: nat) {
    forall q | HasPage(seg, q) :: LeafAt(fr, root, seg, attr, q)
  }

  /** The segment has its pages and its place in the address space. */
  ghost predicate InPlace(a: Mem, root: nat, limit: nat, seg: SegmentMapping, attr: nat) {
    Placed(seg, a, limit) && Leaves(a.fr, root, seg, attr)
  }

  // ----- Mapping one segment -----

  lemma LowerHalfPages(seg: SegmentMapping)
    requires InLowerHalf(seg)
    ensures PagesMapped(seg.vaddr, seg.mapSize) == PagesOf(seg.mapSize) == seg.mapSize / 4096
    ensures PagesMapped(seg.vaddr, seg.mapSize) * 4096 == seg.mapSize
    ensures seg.vaddr / 4096 % 0x10_0000_0000 == seg.vaddr / 4096
    ensures seg.vaddr / 4096 + seg.mapSize / 4096 <= 0x8_0000_0000
  {
  }

  /** Tables of the upper half serve no page of the lower. */
  lemma UpperMisses(n: Node, v: nat, w: nat)
    requires Upper(n) && n.lvl >= 1 && w <= 0x8_0000_0000
    ensures Misses(n, v, w)
  {
    forall q | v <= q < w ensures NodeFor(n.lvl, q) != n {
      TopIndexFor(n.lvl, q);
    }
  }

  lemma KeptByGrowth(a: Mem, b: Mem, root: nat, v: nat, w: nat)
    requires WellFormed(a.fr, a.tree, root) && Grown(a.fr, a.cs, a.tree, b.fr, b.cs, b.tree)
    requires OffPath(a.fr, a.tree, b.fr, v, w) && w <= 0x8_0000_0000
    ensures Kept(a, b, {})
  {
    forall n | n in a.tree && Upper(n) && a.tree[n] in a.fr ensures a.tree[n] in b.fr && b.fr[a.tree[n]] == a.fr[a.tree[n]] {
      assert HasTable(a.fr, a.tree, n);
      UpperMisses(n, v, w);
    }
  }

  /** The segment is mapped, and at most its own pages were written besides. */
  ghost predicate Stepped(a: Mem, b: Mem, root: nat, limit: nat, seg: SegmentMapping, attr: nat) {
    && Placed(seg, a, limit)
    && Maps(a.fr, b.fr, root, seg.vaddr / 4096, seg.paddr / 4096, seg.mapSize / 4096, attr)
    && Kept(a, b, Pages(seg))
  }

  /** `SegmentMapping::Map` for a segment with physical pages. */
  method MapSegment(m: Dram, root: nat, seg: SegmentMapping, attr: nat, ghost tree: Tree) returns (st: Status, ghost tree': Tree)
    requires Sys(m, tree, root) && Placed(seg, MemOf(m, tree), m.limit) && Vacant(m.frames, root, seg)
    requires attr < 32 && attr % 2 == 1
    modifies m
    ensures !st.LargePage?
    ensures st.NoMemory? ==> FirstFit(m.chunks, 1, None) == |m.chunks|
    ensures st.Done? ==> && Sys(m, tree', root)
                         && MapsBytes(old(m.frames), m.frames, root, seg.vaddr, seg.paddr, seg.mapSize)
                         && Kept(old(MemOf(m, tree)), MemOf(m, tree'), {})
                         && Stepped(old(MemOf(m, tree)), MemOf(m, tree'), root, m.limit, seg, attr)
  {
    LowerHalfPages(seg);
    ghost var a := MemOf(m, tree);
    st, tree' := CreatePageMapping(m, root, seg.vaddr, seg.paddr, seg.mapSize, attr, tree);
    if st.Done? {
      KeptByGrowth(a, MemOf(m, tree'), root, seg.vaddr / 4096, seg.vaddr / 4096 + seg.mapSize / 4096);
    } else if st.LargePage? {
      NotUnderLarge(a.fr, root, seg);
    }
  }

  lemma NotUnderLarge(fr: Frames, root: nat, seg: SegmentMapping)
    requires InLowerHalf(seg) && Vacant(fr, root, seg)
    ensures forall q, lvl | PageInRequest(seg.vaddr, seg.mapSize, q) :: !UnderLarge(fr, root, q, lvl)
  {
    LowerHalfPages(seg);
    forall q, lvl | PageInRequest(seg.vaddr, seg.mapSize, q) ensures !UnderLarge(fr, root, q, lvl) {
      assert HasPage(seg, q);
    }
  }

  /** A filled segment stays filled while its own pages are left alone. */
  lemma FilledSurvives(fr: Frames, fr': Frames, seg: SegmentMapping, file: seq<Byte>, ofs: nat, copySize: nat)
    requires seg.paddr % 4096 == 0 && seg.mapSize % 4096 == 0 && ofs + copySize <= |file|
    requires Filled(fr, seg.paddr, file, ofs, copySize, seg.mapSize)
    requires forall p: nat | p in fr && p in Pages(seg) :: p in fr' && fr'[p] == fr[p]
    ensures Filled(fr', seg.paddr, file, ofs, copySize, seg.mapSize)
  {
    forall k | 0 <= k < seg.mapSize ensures SegmentByte(fr', seg.paddr, file, ofs, copySize, k) {
      assert SegmentByte(fr, seg.paddr, file, ofs, copySize, k);
      SegmentPages(seg.paddr, seg.mapSize, k);
    }
  }

  lemma LoadedFrom(fr: Frames, fr': Frames, root: nat, seg: SegmentMapping, info: PhdrInfo, file: seq<Byte>)
    requires Fillable(seg, info, file)
    requires Filled(fr', seg.paddr, file, info.data, info.copySize, seg.mapSize)
    requires MapsBytes(fr, fr', root, seg.vaddr, seg.paddr, seg.mapSize)
    ensures Loaded(fr', root, seg, info, file)
  {
    forall k | 0 <= k < seg.mapSize ensures LoadedByte(fr', root, seg, info, file, k) {
      assert ByteAt(fr', root, seg.vaddr, seg.paddr, k);
      assert SegmentByte(fr', seg.paddr, file, info.data, info.copySize, k);
    }
  }

  /** Writing reserved pages disturbs neither the allocator nor the page table. */
  lemma SysSurvives(m: Dram, fr: Frames, tree: Tree, root: nat, seg: SegmentMapping)
    requires ChunksOk(m.chunks, m.limit) && Threaded(fr, m.head, m.chunks)
    requires WellFormed(fr, tree, root) && (forall n | n in tree :: !IsFree(m.chunks, tree[n]))
    requires Reserved(MemOf(m, tree), Pages(seg)) && OnlyPages(fr, m.frames, seg.paddr / 4096, seg.mapSize / 4096)
    ensures Sys(m, tree, root) && Same(fr, m.frames, root) && Kept(Mem(fr, m.chunks, tree), MemOf(m, tree), Pages(seg))
  {
    ListSurvives(fr, m.frames, m.head, m.chunks, m.limit);
    forall n | n in tree && tree[n] in fr ensures tree[n] in m.frames && m.frames[tree[n]] == fr[tree[n]] {
      assert !Unused(tree, tree[n]);
    }
    TreeSurvives(fr, m.frames, tree, root);
  }

  lemma SameThenMaps(a: Frames, b: Frames, c: Frames, root: nat, v: nat, p: nat, cnt: nat, attr: nat)
    requires Same(a, b, root) && Maps(b, c, root, v, p, cnt, attr)
    ensures Maps(a, c, root, v, p, cnt, attr)
  {
    forall q | 0 <= q < 0x10_0000_0000 ensures MapsAt(a, c, root, v, p, cnt, attr, q) {
      assert MapsAt(b, c, root, v, p, cnt, attr, q) && Translate(b, root, q) == Translate(a, root, q);
    }
  }

  lemma VacantSurvives(fr: Frames, fr': Frames, root: nat, seg: SegmentMapping)
    requires InLowerHalf(seg) && Vacant(fr, root, seg) && Same(fr, fr', root)
    ensures Vacant(fr', root, seg)
  {
    LowerHalfPages(seg);
    forall q | HasPage(seg, q) ensures Translate(fr', root, q) == Unmapped {
      assert Translate(fr, root, q) == Unmapped;
    }
  }

  /** A segment filled, from `a` to `b`, and then mapped, from `b` to `c`, is loaded. */
  lemma FilledThenMapped(a: Mem, b: Mem, c: Mem, root: nat, limit: nat, seg: SegmentMapping, info: PhdrInfo, file: seq<Byte>,
                         attr: nat)
    requires Placed(seg, a, limit) && Fillable(seg, info, file) && Same(a.fr, b.fr, root) && Kept(a, b, Pages(seg))
    requires Filled(b.fr, seg.paddr, file, info.data, info.copySize, seg.mapSize)
    requires Stepped(b, c, root, limit, seg, attr) && Kept(b, c, {})
    requires MapsBytes(b.fr, c.fr, root, seg.vaddr, seg.paddr, seg.mapSize)
    ensures Loaded(c.fr, root, seg, info, file) && Stepped(a, c, root, limit, seg, attr)
  {
    FilledSurvives(b.fr, c.fr, seg, file, info.data, info.copySize);
    LoadedFrom(b.fr, c.fr, root, seg, info, file);
    SameThenMaps(a.fr, b.fr, c.fr, root, seg.vaddr / 4096, seg.paddr / 4096, seg.mapSize / 4096, attr);
    KeptTwice(a, b, c, Pages(seg), {});
    assert Pages(seg) + {} == Pages(seg);
  }

  /** `LoadAndMapSegment`. */
  method LoadAndMapSegment(m: Dram, root: nat, seg: SegmentMapping, info: PhdrInfo, file: seq<Byte>, attr: nat, ghost tree: Tree)
    returns (st: Status, ghost tree': Tree)
    requires Sys(m, tree, root) && Placed(seg, MemOf(m, tree), m.limit) && Fillable(seg, info, file)
    requires Vacant(m.frames, root, seg) && attr < 32 && attr % 2 == 1
    modifies m
    ensures !st.LargePage?
    ensures st.NoMemory? ==> FirstFit(m.chunks, 1, None) == |m.chunks|
    ensures st.Done? ==> && Sys(m, tree', root) && Loaded(m.frames, root, seg, info, file)
                         && Stepped(old(MemOf(m, tree)), MemOf(m, tree'), root, m.limit, seg, attr)
  {
    ghost var a := MemOf(m, tree);
    FillSegment(m, seg.paddr, file, info.data, info.copySize, info.mapSize);
    ghost var b := MemOf(m, tree);
    SysSurvives(m, a.fr, tree, root, seg);
    VacantSurvives(a.fr, m.frames, root, seg);
    st, tree' := MapSegment(m, root, seg, attr, tree);
    if st.Done? {
      FilledThenMapped(a, b, MemOf(m, tree'), root, m.limit, seg, info, file, attr);
    }
  }

  // ----- What mapping one segment does to the others -----

  lemma StepKeepsPlaced(a: Mem, b: Mem, root: nat, limit: nat, seg: SegmentMapping, attr: nat, other: SegmentMapping)
    requires Stepped(a, b, root, limit, seg, attr) && Placed(other, a, limit)
    ensures Placed(other, b, limit)
  {
    forall p | p in Pages(other) ensures !IsFree(b.cs, p) && Unused(b.tree, p) {
      KeptUnused(a, b, Pages(seg), p);
    }
  }

  /** The segment itself is now in place. */
  lemma StepPlaces(a: Mem, b: Mem, root: nat, limit: nat, seg: SegmentMapping, attr: nat)
    requires Stepped(a, b, root, limit, seg, attr)
    ensures InPlace(b, root, limit, seg, attr)
  {
    LowerHalfPages(seg);
    StepKeepsPlaced(a, b, root, limit, seg, attr, seg);
    var v, p, n := seg.vaddr / 4096, seg.paddr / 4096, seg.mapSize / 4096;
    forall q | HasPage(seg, q) ensures LeafAt(b.fr, root, seg, attr, q) {
      assert MapsAt(a.fr, b.fr, root, v, p, n, attr, q);
    }
  }

  /** Pages of another segment translate as before. */
  lemma StepKeepsPage(a: Mem, b: Mem, root: nat, limit: nat, seg: SegmentMapping, attr: nat, other: SegmentMapping, q: nat)
    requires Stepped(a, b, root, limit, seg, attr) && InLowerHalf(other)
    requires RangesApart(seg.vaddr, seg.mapSize, other.vaddr, other.mapSize) && HasPage(other, q)
    ensures Translate(b.fr, root, q) == Translate(a.fr, root, q)
  {
    LowerHalfPages(other);
    assert MapsAt(a.fr, b.fr, root, seg.vaddr / 4096, seg.paddr / 4096, seg.mapSize / 4096, attr, q);
  }

  lemma StepKeepsVacant(a: Mem, b: Mem, root: nat, limit: nat, seg: SegmentMapping, attr: nat, other: SegmentMapping)
    requires Stepped(a, b, root, limit, seg, attr) && Placed(other, a, limit) && Apart(seg, other)
    requires Vacant(a.fr, root, other)
    ensures Placed(other, b, limit) && Vacant(b.fr, root, other)
  {
    StepKeepsPlaced(a, b, root, limit, seg, attr, other);
    forall q | HasPage(other, q) ensures Translate(b.fr, root, q) == Unmapped {
      StepKeepsPage(a, b, root, limit, seg, attr, other, q);
    }
  }

  lemma StepKeepsInPlace(a: Mem, b: Mem, root: nat, limit: nat, seg: SegmentMapping, attr: nat, other: SegmentMapping, at: nat)
    requires Stepped(a, b, root, limit, seg, attr) && InPlace(a, root, limit, other, at) && Apart(seg, other)
    ensures InPlace(b, root, limit, other, at)
  {
    StepKeepsPlaced(a, b, root, limit, seg, attr, other);
    forall q | HasPage(other, q) ensures LeafAt(b.fr, root, other, at, q) {
      assert LeafAt(a.fr, root, other, at, q);
      StepKeepsPage(a, b, root, limit, seg, attr, other, q);
    }
  }

  lemma PagesApart(seg: SegmentMapping, other: SegmentMapping, p: nat)
    requires seg.paddr % 4096 == 0 && seg.mapSize % 4096 == 0 && other.paddr % 4096 == 0 && other.mapSize % 4096 == 0
    requires RangesApart(seg.paddr, seg.mapSize, other.paddr, other.mapSize) && p in Pages(other)
    ensures p !in Pages(seg)
  {
  }

  /** Byte `k` of a segment goes through page `vaddr / 4096 + k / 4096`. */
  lemma ByteOfPage(seg: SegmentMapping, k: nat)
    requires InLowerHalf(seg) && k < seg.mapSize
    ensures var q := (seg.vaddr + k) / 4096; q % 0x10_0000_0000 == q && HasPage(seg, q)
  {
    SegmentPages(seg.vaddr, seg.mapSize, k);
    LowerHalfPages(seg);
  }

  /** A loaded segment stays loaded while its pages translate as before and its frames are left alone. */
  lemma LoadedSurvives(fr: Frames, fr': Frames, root: nat, seg: SegmentMapping, info: PhdrInfo, file: seq<Byte>)
    requires InLowerHalf(seg) && seg.paddr % 4096 == 0 && Loaded(fr, root, seg, info, file)
    requires forall q | HasPage(seg, q) :: Translate(fr', root, q) == Translate(fr, root, q)
    requires forall p: nat | p in fr && p in Pages(seg) :: p in fr' && fr'[p] == fr[p]
    ensures Loaded(fr', root, seg, info, file)
  {
    forall k | 0 <= k < seg.mapSize ensures LoadedByte(fr', root, seg, info, file, k) {
      assert LoadedByte(fr, root, seg, info, file, k);
      ByteOfPage(seg, k);
      SegmentPages(seg.paddr, seg.mapSize, k);
      V2pSurvives(fr, fr', root, seg.vaddr + k, (seg.vaddr + k) / 4096);
      ByteSurvives(fr, fr', root, seg, info, file, k);
    }
  }

  lemma ByteSurvives(fr: Frames, fr': Frames, root: nat, seg: SegmentMapping, info: PhdrInfo, file: seq<Byte>, k: nat)
    requires info.data + info.copySize <= |file| && LoadedByte(fr, root, seg, info, file, k)
    requires V2p(fr', root, seg.vaddr + k) == V2p(fr, root, seg.vaddr + k)
    requires var p := (seg.paddr + k) / 4096; p in fr ==> p in fr' && fr'[p] == fr[p]
    ensures LoadedByte(fr', root, seg, info, file, k)
  {
    assert SegmentByte(fr', seg.paddr, file, info.data, info.copySize, k);
  }

  lemma V2pSurvives(fr: Frames, fr': Frames, root: nat, addr: nat, q: nat)
    requires q == addr / 4096 < 0x10_0000_0000 && Translate(fr', root, q) == Translate(fr, root, q)
    ensures V2p(fr', root, addr) == V2p(fr, root, addr)
  {
    DivUnique(q, 0x10_0000_0000, 0, q);
  }

  lemma StepKeepsLoaded(a: Mem, b: Mem, root: nat, limit: nat, seg: SegmentMapping, attr: nat,
                        other: SegmentMapping, info: PhdrInfo, file: seq<Byte>)
    requires Stepped(a, b, root, limit, seg, attr) && Placed(other, a, limit) && Apart(seg, other)
    requires Loaded(a.fr, root, other, info, file)
    ensures Loaded(b.fr, root, other, info, file)
  {
    forall q | HasPage(other, q) ensures Translate(b.fr, root, q) == Translate(a.fr, root, q) {
      StepKeepsPage(a, b, root, limit, seg, attr, other, q);
    }
    forall p: nat | p in a.fr && p in Pages(other) ensures p in b.fr && b.fr[p] == a.fr[p] {
      PagesApart(seg, other, p);
    }
    LoadedSurvives(a.fr, b.fr, root, other, info, file);
  }

  /** Upper-half pages translate the same in both. */
  ghost predicate SameUpperHalf(fr: Frames, root: nat, fr': Frames, root': nat) {
    forall q | 0x8_0000_0000 <= q < 0x10_0000_0000 :: Translate(fr', root', q) == Translate(fr, root, q)
  }
}
