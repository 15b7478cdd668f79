/** Loading an executable: program headers to segments, segment bytes into frames, frames
    into the address space of the new process. */
module ElfLoader {
  import opened Basics
  import opened PhysicalMemory
  import opened PageTable
  import opened PageAllocator
  import opened Mapping
  import opened KernelHalf
  import opened Segments

  // ----- Program headers -----

  /** The fields of an `Elf64_Phdr` the loader reads; `load` is `p_type == PT_LOAD`, `exec`
      the `PF_X` flag. */
  datatype Phdr = Phdr(load: bool, exec: bool, vaddr: nat, offset: nat, filesz: nat, memsz: nat, align: nat)

  const NO_SEGMENT := SegmentMapping(0, 0, 0)
  const NO_INFO := PhdrInfo(0, 0, 0, 0)

  function Floor(a: nat): nat { a - a % 4096 }

  function Ceil(a: nat): (c: nat)
    ensures c % 4096 == 0 && a <= c < a + 4096
  {
    (a + 4095) / 4096 * 4096
  }

  function SegmentOf(ph: Phdr): SegmentMapping {
    SegmentMapping(Floor(ph.vaddr), 0, Ceil(ph.memsz + ph.vaddr % 4096))
  }

  function InfoOf(ph: Phdr): PhdrInfo {
    PhdrInfo(Floor(ph.offset), Floor(ph.vaddr), SegmentOf(ph).mapSize, ph.filesz + ph.vaddr % 4096)
  }

  /** A slot per kind of segment: the executable one and the other. */
  datatype Slots = Slots(code: SegmentMapping, codeInfo: PhdrInfo, data: SegmentMapping, dataInfo: PhdrInfo)
  {
    function Segment(exec: bool): SegmentMapping { if exec then code else data }

    function Info(exec: bool): PhdrInfo { if exec then codeInfo else dataInfo }
  }

  const NO_SLOTS := Slots(NO_SEGMENT, NO_INFO, NO_SEGMENT, NO_INFO)

  /** The last loadable header of a kind among the first `n`, or -1. */
  function LastLoad(phdrs: seq<Phdr>, n: nat, exec: bool): (i: int)
    requires n <= |phdrs|
    ensures -1 <= i < n
    ensures i >= 0 ==> phdrs[i].load && phdrs[i].exec == exec
  {
    if n == 0 then -1
    else if phdrs[n - 1].load && phdrs[n - 1].exec == exec then n - 1
    else LastLoad(phdrs, n - 1, exec)
  }

  /** The slot of a kind holds what the last loadable header of the kind asks for. */
  predicate SlotOk(s: Slots, phdrs: seq<Phdr>, n: nat, exec: bool)
    requires n <= |phdrs|
  {
    var i := LastLoad(phdrs, n, exec);
    if i < 0 then s.Segment(exec) == NO_SEGMENT && s.Info(exec) == NO_INFO
    else s.Segment(exec) == SegmentOf(phdrs[i]) && s.Info(exec) == InfoOf(phdrs[i])
  }

  /** The assertions of the loop pass at header `i`: its alignment is a multiple of a page,
      and no earlier loadable header of its kind has taken the slot. */
  predicate Acceptable(phdrs: seq<Phdr>, i: nat)
    requires i < |phdrs|
  {
    phdrs[i].load ==>
      && phdrs[i].align % 4096 == 0
      && var j := LastLoad(phdrs, i, phdrs[i].exec);
      j < 0 || SegmentOf(phdrs[j]).mapSize == 0
  }

  /** Two loadable headers of a kind can only be read when the earlier one needs no page. */
  predicate NoClash(phdrs: seq<Phdr>, i: nat, j: nat)
    requires i < j < |phdrs|
  {
    phdrs[i].load && phdrs[j].load && phdrs[i].exec == phdrs[j].exec ==> phdrs[i].memsz == 0 && phdrs[i].vaddr % 4096 == 0
  }

  lemma NeedsNoPage(ph: Phdr)
    ensures SegmentOf(ph).mapSize == 0 <==> ph.memsz == 0 && ph.vaddr % 4096 == 0
  {
  }

  /** Of the headers of a kind before `n`, only the last may need a page. */
  lemma {:induction false} OnlyLastNeeds(phdrs: seq<Phdr>, n: nat, exec: bool, i: nat)
    requires i < n <= |phdrs| && phdrs[i].load && phdrs[i].exec == exec && forall j | 0 <= j < n :: Acceptable(phdrs, j)
    ensures var j := LastLoad(phdrs, n, exec); i <= j && (i < j ==> SegmentOf(phdrs[i]).mapSize == 0)
    decreases n
  {
    if i < n - 1 {
      OnlyLastNeeds(phdrs, n - 1, exec, i);
      assert Acceptable(phdrs, n - 1);
    }
  }

  /** What the assertions of the loop amount to. */
  lemma AcceptableIff(phdrs: seq<Phdr>)
    ensures (forall i | 0 <= i < |phdrs| :: Acceptable(phdrs, i)) <==>
            && (forall i | 0 <= i < |phdrs| && phdrs[i].load :: phdrs[i].align % 4096 == 0)
            && (forall i, j | 0 <= i < j < |phdrs| :: NoClash(phdrs, i, j))
  {
    if forall i | 0 <= i < |phdrs| :: Acceptable(phdrs, i) {
      forall i | 0 <= i < |phdrs| && phdrs[i].load ensures phdrs[i].align % 4096 == 0 {
        assert Acceptable(phdrs, i);
      }
      forall i, j | 0 <= i < j < |phdrs| ensures NoClash(phdrs, i, j) {
        if phdrs[i].load && phdrs[j].load && phdrs[i].exec == phdrs[j].exec {
          OnlyLastNeeds(phdrs, j, phdrs[i].exec, i);
          assert Acceptable(phdrs, j);
          NeedsNoPage(phdrs[i]);
        }
      }
    } else if && (forall i | 0 <= i < |phdrs| && phdrs[i].load :: phdrs[i].align % 4096 == 0)
              && (forall i, j | 0 <= i < j < |phdrs| :: NoClash(phdrs, i, j)) {
      forall i | 0 <= i < |phdrs| ensures Acceptable(phdrs, i) {
        var j := LastLoad(phdrs, i, phdrs[i].exec);
        if j >= 0 {
          assert NoClash(phdrs, j, i);
          NeedsNoPage(phdrs[j]);
        }
      }
    }
  }

  /** `ParseProgramHeader`: it fails an assertion unless every header is acceptable. */
  method ParseProgramHeaders(phdrs: seq<Phdr>) returns (ok: bool, s: Slots)
    ensures ok <==> forall i | 0 <= i < |phdrs| :: Acceptable(phdrs, i)
    ensures ok ==> SlotOk(s, phdrs, |phdrs|, true) && SlotOk(s, phdrs, |phdrs|, false)
  {
    s := NO_SLOTS;
    var i := 0;
    while i < |phdrs|
      invariant 0 <= i <= |phdrs| && SlotOk(s, phdrs, i, true) && SlotOk(s, phdrs, i, false)
      invariant forall j | 0 <= j < i :: Acceptable(phdrs, j)
    {
      var ph := phdrs[i];
      if ph.load {
        if ph.align % 4096 != 0 || s.Segment(ph.exec).mapSize != 0 {
          assert !Acceptable(phdrs, i);
          return false, s;
        }
        if ph.exec {
          s := s.(code := SegmentOf(ph), codeInfo := InfoOf(ph));
        } else {
          s := s.(data := SegmentOf(ph), dataInfo := InfoOf(ph));
        }
      }
      i := i + 1;
    }
    return true, s;
  }

  /** No loadable header that asks for memory is ever displaced: it is the last of its kind. */
  lemma {:induction false} NoSegmentDropped(phdrs: seq<Phdr>, n: nat, i: nat)
    requires i < n <= |phdrs| && phdrs[i].load && SegmentOf(phdrs[i]).mapSize > 0
    requires forall j | 0 <= j < n :: Acceptable(phdrs, j)
    ensures LastLoad(phdrs, n, phdrs[i].exec) == i
    decreases n
  {
    if i < n - 1 {
      NoSegmentDropped(phdrs, n - 1, i);
      assert Acceptable(phdrs, n - 1);
    }
  }

  // ----- Code, data and stack together -----

  /** The process as the kernel set it up: code read-only, data and stack writable, each with
      page frames of its own that are neither free nor tables nor shared between them, and
      code and data holding what the file says. */
  ghost predicate ProcessInPlace(a: Mem, root: nat, limit: nat, s: Slots, stack: SegmentMapping, file: seq<Byte>) {
    && InPlace(a, root, limit, s.code, 5) && InPlace(a, root, limit, s.data, 7) && InPlace(a, root, limit, stack, 7)
    && Loaded(a.fr, root, s.code, s.codeInfo, file) && Loaded(a.fr, root, s.data, s.dataInfo, file)
    && Apart(s.code, s.data) && Apart(s.code, stack) && Apart(s.data, stack)
  }

  ghost function ProcessPages(s: Slots, stack: SegmentMapping): set<nat> { Pages(s.code) + Pages(s.data) + Pages(stack) }

  /** After the code: the data and the stack are still to come. */
  lemma CodeLoaded(a: Mem, b: Mem, root: nat, limit: nat, s: Slots, stack: SegmentMapping)
    requires Stepped(a, b, root, limit, s.code, 5) && Apart(s.code, s.data) && Apart(s.code, stack)
    requires Placed(s.data, a, limit) && Vacant(a.fr, root, s.data) && Placed(stack, a, limit) && Vacant(a.fr, root, stack)
    ensures InPlace(b, root, limit, s.code, 5) && Placed(s.data, b, limit) && Vacant(b.fr, root, s.data)
    ensures Placed(stack, b, limit) && Vacant(b.fr, root, stack)
  {
    StepPlaces(a, b, root, limit, s.code, 5);
    StepKeepsVacant(a, b, root, limit, s.code, 5, s.data);
    StepKeepsVacant(a, b, root, limit, s.code, 5, stack);
  }

  lemma KeptProcess(a: Mem, b: Mem, c: Mem, s: Slots, stack: SegmentMapping)
    requires Kept(a, b, Pages(s.code)) && Kept(b, c, Pages(s.data) + Pages(stack))
    ensures Kept(a, c, ProcessPages(s, stack))
  {
    KeptTwice(a, b, c, Pages(s.code), Pages(s.data) + Pages(stack));
    assert Pages(s.code) + (Pages(s.data) + Pages(stack)) == ProcessPages(s, stack);
  }

  /** After the data segment: the code is still in place, the stack still to come. */
  lemma DataLoaded(a: Mem, b: Mem, root: nat, limit: nat, s: Slots, stack: SegmentMapping, file: seq<Byte>)
    requires Stepped(a, b, root, limit, s.data, 7) && Apart(s.code, s.data) && Apart(s.data, stack)
    requires InPlace(a, root, limit, s.code, 5) && Loaded(a.fr, root, s.code, s.codeInfo, file)
    requires Placed(stack, a, limit) && Vacant(a.fr, root, stack)
    ensures InPlace(b, root, limit, s.code, 5) && Loaded(b.fr, root, s.code, s.codeInfo, file)
    ensures InPlace(b, root, limit, s.data, 7) && Placed(stack, b, limit) && Vacant(b.fr, root, stack)
  {
    StepKeepsInPlace(a, b, root, limit, s.data, 7, s.code, 5);
    StepKeepsLoaded(a, b, root, limit, s.data, 7, s.code, s.codeInfo, file);
    StepPlaces(a, b, root, limit, s.data, 7);
    StepKeepsVacant(a, b, root, limit, s.data, 7, stack);
  }

  /** After the stack everything is in place. */
  lemma StackMapped(a: Mem, b: Mem, root: nat, limit: nat, s: Slots, stack: SegmentMapping, file: seq<Byte>)
    requires Stepped(a, b, root, limit, stack, 7) && Apart(s.code, s.data) && Apart(s.code, stack) && Apart(s.data, stack)
    requires InPlace(a, root, limit, s.code, 5) && Loaded(a.fr, root, s.code, s.codeInfo, file)
    requires InPlace(a, root, limit, s.data, 7) && Loaded(a.fr, root, s.data, s.dataInfo, file)
    ensures ProcessInPlace(b, root, limit, s, stack, file)
  {
    StepKeepsInPlace(a, b, root, limit, stack, 7, s.code, 5);
    StepKeepsLoaded(a, b, root, limit, stack, 7, s.code, s.codeInfo, file);
    StepKeepsInPlace(a, b, root, limit, stack, 7, s.data, 7);
    StepKeepsLoaded(a, b, root, limit, stack, 7, s.data, s.dataInfo, file);
    StepPlaces(a, b, root, limit, stack, 7);
  }

  // ----- Pages of no segment -----

  predicate Elsewhere(s: Slots, stack: SegmentMapping, q: nat) {
    !HasPage(s.code, q) && !HasPage(s.data, q) && !HasPage(stack, q)
  }

  /** Pages outside code, data and stack translate as before. */
  ghost predicate SameElsewhere(fr: Frames, fr': Frames, root: nat, s: Slots, stack: SegmentMapping) {
    forall q | 0 <= q < 0x10_0000_0000 && Elsewhere(s, stack, q) :: Translate(fr', root, q) == Translate(fr, root, q)
  }

  /** In the lower half there is nothing but code, data and stack. */
  ghost predicate NothingElse(fr: Frames, root: nat, s: Slots, stack: SegmentMapping) {
    forall q | 0 <= q < 0x8_0000_0000 && Elsewhere(s, stack, q) :: Translate(fr, root, q) == Unmapped
  }

  lemma StepSameElsewhere(a: Mem, b: Mem, root: nat, limit: nat, seg: SegmentMapping, attr: nat,
                          s: Slots, stack: SegmentMapping)
    requires Stepped(a, b, root, limit, seg, attr) && (seg == s.code || seg == s.data || seg == stack)
    ensures SameElsewhere(a.fr, b.fr, root, s, stack)
  {
    forall q | 0 <= q < 0x10_0000_0000 && Elsewhere(s, stack, q) ensures Translate(b.fr, root, q) == Translate(a.fr, root, q) {
      assert !HasPage(seg, q);
      assert MapsAt(a.fr, b.fr, root, seg.vaddr / 4096, seg.paddr / 4096, seg.mapSize / 4096, attr, q);
    }
  }

  lemma SameElsewhereTwice(fr: Frames, fr': Frames, fr'': Frames, root: nat, s: Slots, stack: SegmentMapping)
    requires SameElsewhere(fr, fr', root, s, stack) && SameElsewhere(fr', fr'', root, s, stack)
    ensures SameElsewhere(fr, fr'', root, s, stack)
  {
  }

  /** No segment reaches into the upper half. */
  lemma UpperIsElsewhere(fr: Frames, fr': Frames, root: nat, s: Slots, stack: SegmentMapping)
    requires InLowerHalf(s.code) && InLowerHalf(s.data) && InLowerHalf(stack) && SameElsewhere(fr, fr', root, s, stack)
    ensures SameUpperHalf(fr, root, fr', root)
  {
    LowerHalfPages(s.code);
    LowerHalfPages(s.data);
    LowerHalfPages(stack);
    forall q | 0x8_0000_0000 <= q < 0x10_0000_0000 ensures Translate(fr', root, q) == Translate(fr, root, q) {
      assert Elsewhere(s, stack, q);
    }
  }

  /** What the lower half of a process leads to are frames of its own. */
  lemma LowerHalfIsOwn(a: Mem, root: nat, limit: nat, s: Slots, stack: SegmentMapping, file: seq<Byte>)
    requires ProcessInPlace(a, root, limit, s, stack, file) && NothingElse(a.fr, root, s, stack)
    ensures forall q | 0 <= q < 0x8_0000_0000 && Translate(a.fr, root, q).Mapped? ::
              Translate(a.fr, root, q).page in ProcessPages(s, stack)
  {
    forall q | 0 <= q < 0x8_0000_0000 && Translate(a.fr, root, q).Mapped?
      ensures Translate(a.fr, root, q).page in ProcessPages(s, stack)
    {
      assert !Elsewhere(s, stack, q);
      if HasPage(s.code, q) {
        LeafInPages(a.fr, root, s.code, 5, q);
      } else if HasPage(s.data, q) {
        LeafInPages(a.fr, root, s.data, 7, q);
      } else {
        LeafInPages(a.fr, root, stack, 7, q);
      }
    }
  }

  lemma LeafInPages(fr: Frames, root: nat, seg: SegmentMapping, attr: nat, q: nat)
    requires Leaves(fr, root, seg, attr) && HasPage(seg, q)
    ensures Translate(fr, root, q).Mapped? && Translate(fr, root, q).page in Pages(seg)
  {
    assert LeafAt(fr, root, seg, attr, q);
  }

  // ----- Loading them -----

  /** The code is in place and loaded, data and stack are still to come. */
  ghost predicate CodeInPlace(a: Mem, root: nat, limit: nat, s: Slots, stack: SegmentMapping, file: seq<Byte>) {
    && InPlace(a, root, limit, s.code, 5) && Loaded(a.fr, root, s.code, s.codeInfo, file)
    && Placed(s.data, a, limit) && Placed(stack, a, limit)
    && Vacant(a.fr, root, s.data) && Vacant(a.fr, root, stack)
  }

  method LoadCode(m: Dram, root: nat, s: Slots, ghost stack: SegmentMapping, file: seq<Byte>, ghost tree: Tree)
    returns (st: Status, ghost tree': Tree)
    requires Sys(m, tree, root) && Placed(s.code, MemOf(m, tree), m.limit)
    requires Placed(s.data, MemOf(m, tree), m.limit) && Placed(stack, MemOf(m, tree), m.limit)
    requires Apart(s.code, s.data) && Apart(s.code, stack) && Fillable(s.code, s.codeInfo, file)
    requires Vacant(m.frames, root, s.code) && Vacant(m.frames, root, s.data) && Vacant(m.frames, root, stack)
    modifies m
    ensures !st.LargePage?
    ensures st.NoMemory? ==> FirstFit(m.chunks, 1, None) == |m.chunks|
    ensures st.Done? ==> && Sys(m, tree', root) && CodeInPlace(MemOf(m, tree'), root, m.limit, s, stack, file)
                         && Kept(old(MemOf(m, tree)), MemOf(m, tree'), Pages(s.code))
                         && SameElsewhere(old(m.frames), m.frames, root, s, stack)
  {
    ghost var a := MemOf(m, tree);
    st, tree' := LoadAndMapSegment(m, root, s.code, s.codeInfo, file, 5, tree);
    if st.Done? {
      ghost var b := MemOf(m, tree');
      CodeLoaded(a, b, root, m.limit, s, stack);
      StepSameElsewhere(a, b, root, m.limit, s.code, 5, s, stack);
    }
  }

  /** The data segment and the stack, once the code is in place. */
  method LoadAndMapRest(m: Dram, root: nat, s: Slots, stack: SegmentMapping, file: seq<Byte>, ghost tree: Tree)
    returns (st: Status, ghost tree': Tree)
    requires Sys(m, tree, root) && CodeInPlace(MemOf(m, tree), root, m.limit, s, stack, file)
    requires Apart(s.code, s.data) && Apart(s.code, stack) && Apart(s.data, stack) && Fillable(s.data, s.dataInfo, file)
    modifies m
    ensures !st.LargePage?
    ensures st.NoMemory? ==> FirstFit(m.chunks, 1, None) == |m.chunks|
    ensures st.Done? ==> && Sys(m, tree', root)
                         && ProcessInPlace(MemOf(m, tree'), root, m.limit, s, stack, file)
                         && Kept(old(MemOf(m, tree)), MemOf(m, tree'), Pages(s.data) + Pages(stack))
                         && SameElsewhere(old(m.frames), m.frames, root, s, stack)
  {
    ghost var a := MemOf(m, tree);
    st, tree' := LoadAndMapSegment(m, root, s.data, s.dataInfo, file, 7, tree);
    if !st.Done? {
      return;
    }
    ghost var b := MemOf(m, tree');
    DataLoaded(a, b, root, m.limit, s, stack, file);
    StepSameElsewhere(a, b, root, m.limit, s.data, 7, s, stack);
    st, tree' := MapSegment(m, root, stack, 7, tree');
    if st.Done? {
      ghost var c := MemOf(m, tree');
      StackMapped(b, c, root, m.limit, s, stack, file);
      StepSameElsewhere(b, c, root, m.limit, stack, 7, s, stack);
      KeptTwice(a, b, c, Pages(s.data), Pages(stack));
      SameElsewhereTwice(a.fr, b.fr, c.fr, root, s, stack);
    }
  }

  /** `LoadAndMap` for a user process: code read-only, data and stack writable; the heap has
      no pages yet and is skipped. */
  method LoadAndMap(m: Dram, root: nat, s: Slots, stack: SegmentMapping, file: seq<Byte>, ghost tree: Tree)
    returns (st: Status, ghost tree': Tree)
    requires Sys(m, tree, root) && Placed(s.code, MemOf(m, tree), m.limit)
    requires Placed(s.data, MemOf(m, tree), m.limit) && Placed(stack, MemOf(m, tree), m.limit)
    requires Apart(s.code, s.data) && Apart(s.code, stack) && Apart(s.data, stack)
    requires Vacant(m.frames, root, s.code) && Vacant(m.frames, root, s.data) && Vacant(m.frames, root, stack)
    requires Fillable(s.code, s.codeInfo, file) && Fillable(s.data, s.dataInfo, file)
    modifies m
    ensures !st.LargePage?
    ensures st.NoMemory? ==> FirstFit(m.chunks, 1, None) == |m.chunks|
    ensures st.Done? ==> && Sys(m, tree', root)
                         && ProcessInPlace(MemOf(m, tree'), root, m.limit, s, stack, file)
                         && Kept(old(MemOf(m, tree)), MemOf(m, tree'), ProcessPages(s, stack))
                         && SameElsewhere(old(m.frames), m.frames, root, s, stack)
                         && SameUpperHalf(old(m.frames), root, m.frames, root)
  {
    ghost var a := MemOf(m, tree);
    st, tree' := LoadCode(m, root, s, stack, file, tree);
    if !st.Done? {
      return;
    }
    ghost var b := MemOf(m, tree');
    st, tree' := LoadAndMapRest(m, root, s, stack, file, tree');
    if st.Done? {
      KeptProcess(a, b, MemOf(m, tree'), s, stack);
      SameElsewhereTwice(a.fr, b.fr, m.frames, root, s, stack);
      UpperIsElsewhere(a.fr, m.frames, root, s, stack);
    }
  }

  // ----- Pages for the segments -----

  /** Pages just allocated belong to nobody else. */
  lemma TookMany(fr: Frames, cs: seq<Chunk>, limit: nat, n: nat, fr': Frames, cs': seq<Chunk>, page: nat, tree: Tree, root: nat)
    requires ChunksOk(cs, limit) && Took(fr, cs, n, None, fr', cs', page)
    requires WellFormed(fr, tree, root) && forall n | n in tree :: !IsFree(cs, tree[n])
    ensures page > 0 && page + n <= limit && Reserved(Mem(fr', cs', tree), Range(page, n))
    ensures forall p: nat | page <= p < page + n :: IsFree(cs, p)
    ensures SameOn(fr, fr', tree) && OnlyFree(fr, cs, fr', cs')
    ensures forall n | n in tree :: !IsFree(cs', tree[n])
  {
    var i := FirstFit(cs, n, None);
    ShrinkTakes(cs, limit, i, n);
    assert cs[i].Has(cs[i].base) && IsFree(cs, cs[i].base);
  }

  lemma TookSegment(a: Mem, b: Mem, limit: nat, seg: SegmentMapping, page: nat, root: nat)
    requires InLowerHalf(seg) && a.tree == b.tree && ChunksOk(a.cs, limit)
    requires Took(a.fr, a.cs, PagesOf(seg.mapSize), None, b.fr, b.cs, page)
    requires WellFormed(a.fr, a.tree, root) && forall n | n in a.tree :: !IsFree(a.cs, a.tree[n])
    ensures var seg' := seg.(paddr := page * 4096);
            && Placed(seg', b, limit)
            && forall p | p in Pages(seg') :: IsFree(a.cs, p)
    ensures SameOn(a.fr, b.fr, a.tree) && OnlyFree(a.fr, a.cs, b.fr, b.cs)
    ensures forall n | n in a.tree :: !IsFree(b.cs, a.tree[n])
  {
    LowerHalfPages(seg);
    TookMany(a.fr, a.cs, limit, PagesOf(seg.mapSize), b.fr, b.cs, page, a.tree, root);
    assert Pages(seg.(paddr := page * 4096)) == Range(page, PagesOf(seg.mapSize));
  }

  /** Give a segment the pages it asks for, apart from two others placed before. */
  method AllocSegment(m: Dram, seg: SegmentMapping, a: SegmentMapping, b: SegmentMapping, ghost tree: Tree, ghost root: nat)
    returns (ok: bool, seg': SegmentMapping)
    requires Sys(m, tree, root) && InLowerHalf(seg)
    requires Placed(a, MemOf(m, tree), m.limit) || a.mapSize == 0
    requires Placed(b, MemOf(m, tree), m.limit) || b.mapSize == 0
    modifies m
    ensures !ok ==> FirstFit(m.chunks, PagesOf(seg.mapSize), None) == |m.chunks|
    ensures ok ==> && Sys(m, tree, root) && Same(old(m.frames), m.frames, root)
                   && seg' == seg.(paddr := seg'.paddr) && Placed(seg', MemOf(m, tree), m.limit)
                   && RangesApart(a.paddr, a.mapSize, seg'.paddr, seg'.mapSize)
                   && RangesApart(b.paddr, b.mapSize, seg'.paddr, seg'.mapSize)
                   && OnlyFree(old(m.frames), old(m.chunks), m.frames, m.chunks)
                   && (forall p | p in Pages(seg') :: IsFree(old(m.chunks), p))
  {
    seg' := seg;
    LowerHalfPages(seg);
    var r := m.AllocPages(PagesOf(seg.mapSize), None);
    if r.None? {
      return false, seg';
    }
    TookSegment(old(MemOf(m, tree)), MemOf(m, tree), m.limit, seg, r.value, root);
    TreeSurvives(old(m.frames), m.frames, tree, root);
    seg' := seg.(paddr := r.value * 4096);
    FreshApart(old(MemOf(m, tree)), m.limit, a, seg');
    FreshApart(old(MemOf(m, tree)), m.limit, b, seg');
    ok := true;
  }

  lemma FreshApart(m: Mem, limit: nat, a: SegmentMapping, seg: SegmentMapping)
    requires Placed(a, m, limit) || a.mapSize == 0
    requires seg.paddr % 4096 == 0 && seg.mapSize % 4096 == 0
    requires forall p | p in Pages(seg) :: IsFree(m.cs, p)
    ensures RangesApart(a.paddr, a.mapSize, seg.paddr, seg.mapSize)
  {
    var p := if a.paddr <= seg.paddr then seg.paddr / 4096 else a.paddr / 4096;
    assert a.mapSize > 0 && p in Pages(a) ==> !IsFree(m.cs, p);
    assert p in Pages(seg) ==> IsFree(m.cs, p);
  }

  /** What is placed stays placed while others allocate. */
  lemma PlacedStays(fr: Frames, cs: seq<Chunk>, fr': Frames, cs': seq<Chunk>, tree: Tree, limit: nat, seg: SegmentMapping)
    requires Placed(seg, Mem(fr, cs, tree), limit) && OnlyFree(fr, cs, fr', cs')
    ensures Placed(seg, Mem(fr', cs', tree), limit)
  {
  }

  /** A header the ABI allows: file offset and address agree modulo the page size, the file
      part is no larger than the memory part and is in the file, and the pages lie in the
      lower half, clear of the stack. */
  predicate HeaderOkFor(ph: Phdr, file: seq<Byte>) {
    ph.load ==>
      && ph.offset % 4096 == ph.vaddr % 4096 && ph.filesz <= ph.memsz && ph.offset + ph.filesz <= |file|
      && SegmentOf(ph).vaddr + SegmentOf(ph).mapSize <= 0x8000_0000_0000
      && RangesApart(SegmentOf(ph).vaddr, SegmentOf(ph).mapSize, 0xBEEF_0000, 0x2_0000)
  }

  /** Every header is fine and segments of different kinds do not share pages. */
  predicate Loadable(phdrs: seq<Phdr>, file: seq<Byte>) {
    && (forall i | 0 <= i < |phdrs| :: HeaderOkFor(phdrs[i], file))
    && (forall i, j | 0 <= i < |phdrs| && 0 <= j < |phdrs| && phdrs[i].load && phdrs[j].load && phdrs[i].exec && !phdrs[j].exec ::
          RangesApart(SegmentOf(phdrs[i]).vaddr, SegmentOf(phdrs[i]).mapSize,
                      SegmentOf(phdrs[j]).vaddr, SegmentOf(phdrs[j]).mapSize))
  }

  /** Byte `k` of a header's memory image: its address is mapped for the user, writable unless the
      header is executable, to a page of bytes, and reads as the file, then zeros. */
  predicate ImageByte(fr: Frames, root: nat, file: seq<Byte>, ph: Phdr, k: nat)
    requires ph.offset + ph.filesz <= |file|
  {
    var a := V2p(fr, root, ph.vaddr + k);
    var x := Translate(fr, root, (ph.vaddr + k) / 4096 % 0x10_0000_0000);
    && x.Mapped? && x.attr == (if ph.exec then 5 else 7)
    && IsBytes(fr, a / 4096) && ReadByte(fr, a) == if k < ph.filesz then file[ph.offset + k] else 0
  }

  ghost predicate ReadsImage(fr: Frames, root: nat, file: seq<Byte>, ph: Phdr) {
    ph.offset + ph.filesz <= |file| && forall k | 0 <= k < ph.memsz :: ImageByte(fr, root, file, ph, k)
  }

  /** Copying starts in front of the segment and reaches its first byte at `offset`. */
  lemma HeaderParts(ph: Phdr, file: seq<Byte>)
    requires ph.load && HeaderOkFor(ph, file)
    ensures SegmentOf(ph).vaddr + ph.vaddr % 4096 == ph.vaddr
    ensures InfoOf(ph).data + ph.vaddr % 4096 == ph.offset
    ensures InfoOf(ph).copySize == ph.filesz + ph.vaddr % 4096 <= ph.memsz + ph.vaddr % 4096 <= SegmentOf(ph).mapSize
    ensures SegmentOf(ph).vaddr % 4096 == 0 && SegmentOf(ph).mapSize % 4096 == 0
    ensures Fillable(SegmentOf(ph), InfoOf(ph), file)
  {
  }

  lemma ImageFromLoaded(fr: Frames, root: nat, file: seq<Byte>, ph: Phdr, seg: SegmentMapping, attr: nat)
    requires ph.load && HeaderOkFor(ph, file)
    requires seg.vaddr == SegmentOf(ph).vaddr && seg.mapSize == SegmentOf(ph).mapSize
    requires Loaded(fr, root, seg, InfoOf(ph), file) && Leaves(fr, root, seg, attr) && attr == if ph.exec then 5 else 7
    ensures ReadsImage(fr, root, file, ph)
  {
    HeaderParts(ph, file);
    forall k | 0 <= k < ph.memsz ensures ImageByte(fr, root, file, ph, k) {
      ImageByteFromLoaded(fr, root, file, ph, seg, InfoOf(ph), ph.vaddr % 4096, k, attr);
    }
  }

  lemma ImageByteFromLoaded(fr: Frames, root: nat, file: seq<Byte>, ph: Phdr, seg: SegmentMapping, info: PhdrInfo, ofs: nat,
                            k: nat, attr: nat)
    requires seg.vaddr + ofs == ph.vaddr && info.data + ofs == ph.offset && info.copySize == ph.filesz + ofs
    requires InLowerHalf(seg) && ofs + k < seg.mapSize && ph.offset + ph.filesz <= |file|
    requires Loaded(fr, root, seg, info, file) && Leaves(fr, root, seg, attr) && attr == if ph.exec then 5 else 7
    ensures ImageByte(fr, root, file, ph, k)
  {
    var i := ofs + k;
    assert LoadedByte(fr, root, seg, info, file, i);
    ByteOfPage(seg, i);
    var q := (seg.vaddr + i) / 4096;
    assert LeafAt(fr, root, seg, attr, q);
    ImageByteAt(fr, root, file, ph, k, seg.paddr + i);
  }

  lemma ImageByteAt(fr: Frames, root: nat, file: seq<Byte>, ph: Phdr, k: nat, a: nat)
    requires ph.offset + ph.filesz <= |file| && V2p(fr, root, ph.vaddr + k) == a && IsBytes(fr, a / 4096)
    requires var x := Translate(fr, root, (ph.vaddr + k) / 4096 % 0x10_0000_0000); x.Mapped? && x.attr == if ph.exec then 5 else 7
    requires ReadByte(fr, a) == if k < ph.filesz then file[ph.offset + k] else 0
    ensures ImageByte(fr, root, file, ph, k)
  {
  }

  /** What a slot needs to be given pages and filled. */
  predicate SlotReady(s: Slots, exec: bool, file: seq<Byte>) {
    var seg := s.Segment(exec);
    && InLowerHalf(seg)
    && Fillable(seg, s.Info(exec), file)
    && RangesApart(seg.vaddr, seg.mapSize, 0xBEEF_0000, 0x2_0000)
  }

  lemma SlotsReady(phdrs: seq<Phdr>, file: seq<Byte>, s: Slots)
    requires Loadable(phdrs, file) && SlotOk(s, phdrs, |phdrs|, true) && SlotOk(s, phdrs, |phdrs|, false)
    ensures SlotReady(s, true, file) && SlotReady(s, false, file)
    ensures RangesApart(s.code.vaddr, s.code.mapSize, s.data.vaddr, s.data.mapSize)
  {
    var i, j := LastLoad(phdrs, |phdrs|, true), LastLoad(phdrs, |phdrs|, false);
    if i >= 0 {
      assert HeaderOkFor(phdrs[i], file);
      HeaderParts(phdrs[i], file);
    }
    if j >= 0 {
      assert HeaderOkFor(phdrs[j], file);
      HeaderParts(phdrs[j], file);
    }
  }

  /** The slots before pages were found for them. */
  function Unplaced(s: Slots): Slots {
    s.(code := s.code.(paddr := 0), data := s.data.(paddr := 0))
  }

  /** The slots are those of the headers. */
  predicate SlotsFor(s: Slots, phdrs: seq<Phdr>) {
    SlotOk(Unplaced(s), phdrs, |phdrs|, true) && SlotOk(Unplaced(s), phdrs, |phdrs|, false)
  }

  /** A process in place reads as its file. */
  lemma AllImages(a: Mem, root: nat, limit: nat, file: seq<Byte>, phdrs: seq<Phdr>, s: Slots, stack: SegmentMapping)
    requires Loadable(phdrs, file) && (forall i | 0 <= i < |phdrs| :: Acceptable(phdrs, i)) && SlotsFor(s, phdrs)
    requires ProcessInPlace(a, root, limit, s, stack, file)
    ensures forall i | 0 <= i < |phdrs| && phdrs[i].load :: ReadsImage(a.fr, root, file, phdrs[i])
  {
    forall i | 0 <= i < |phdrs| && phdrs[i].load ensures ReadsImage(a.fr, root, file, phdrs[i]) {
      var ph := phdrs[i];
      assert HeaderOkFor(ph, file);
      if SegmentOf(ph).mapSize > 0 {
        NoSegmentDropped(phdrs, |phdrs|, i);
        ImageFromLoaded(a.fr, root, file, ph, s.Segment(ph.exec), if ph.exec then 5 else 7);
      }
    }
  }

  datatype LoadStatus = LoadDone | OutOfMemory | BadHeaders

  /** No chunk is larger than `n` pages: the allocator panics. */
  ghost predicate Exhausted(cs: seq<Chunk>, n: nat) { FirstFit(cs, n, None) == |cs| }

  /** A number of pages loading asks for at once: one for a table, 32 for the stack, those of a
      segment, and none for a kind of segment the file does not have. */
  predicate Requested(phdrs: seq<Phdr>, n: nat) {
    n == 0 || n == 1 || n == 32 || exists i | 0 <= i < |phdrs| && phdrs[i].load :: n == PagesOf(SegmentOf(phdrs[i]).mapSize)
  }

  lemma SlotRequested(phdrs: seq<Phdr>, s: Slots, exec: bool)
    requires SlotOk(s, phdrs, |phdrs|, exec)
    ensures Requested(phdrs, PagesOf(s.Segment(exec).mapSize))
  {
  }

  /** Pages for code and data, in this order. */
  method AllocImage(m: Dram, s: Slots, ghost tree: Tree, ghost root: nat) returns (ok: bool, s': Slots)
    requires Sys(m, tree, root) && InLowerHalf(s.code) && InLowerHalf(s.data)
    modifies m
    ensures !ok ==> Exhausted(m.chunks, PagesOf(s.code.mapSize)) || Exhausted(m.chunks, PagesOf(s.data.mapSize))
    ensures ok ==> && Sys(m, tree, root) && Same(old(m.frames), m.frames, root)
                   && s' == s.(code := s.code.(paddr := s'.code.paddr), data := s.data.(paddr := s'.data.paddr))
                   && Placed(s'.code, MemOf(m, tree), m.limit) && Placed(s'.data, MemOf(m, tree), m.limit)
                   && RangesApart(s'.code.paddr, s'.code.mapSize, s'.data.paddr, s'.data.mapSize)
                   && OnlyFree(old(m.frames), old(m.chunks), m.frames, m.chunks)
                   && (forall p | p in Pages(s'.code) + Pages(s'.data) :: IsFree(old(m.chunks), p))
  {
    s' := s;
    var code, data;
    ok, code := AllocSegment(m, s.code, NO_SEGMENT, NO_SEGMENT, tree, root);
    if !ok {
      return;
    }
    ghost var fr, cs := m.frames, m.chunks;
    ok, data := AllocSegment(m, s.data, code, NO_SEGMENT, tree, root);
    if ok {
      PlacedStays(fr, cs, m.frames, m.chunks, tree, m.limit, code);
      s' := s.(code := code, data := data);
    }
  }

  lemma AllWereFree(cs: seq<Chunk>, cs': seq<Chunk>, s: Slots, stack: SegmentMapping)
    requires forall p | p in Pages(s.code) + Pages(s.data) :: IsFree(cs, p)
    requires (forall p: nat | IsFree(cs', p) :: IsFree(cs, p)) && forall p | p in Pages(stack) :: IsFree(cs', p)
    ensures forall p | p in ProcessPages(s, stack) :: IsFree(cs, p)
  {
  }

  /** Pages for code, data and stack, in this order. */
  method AllocSegments(m: Dram, s: Slots, file: seq<Byte>, ghost tree: Tree, ghost root: nat)
    returns (ok: bool, s': Slots, stack: SegmentMapping)
    requires Sys(m, tree, root) && SlotReady(s, true, file) && SlotReady(s, false, file)
    requires RangesApart(s.code.vaddr, s.code.mapSize, s.data.vaddr, s.data.mapSize)
    modifies m
    ensures !ok ==> || Exhausted(m.chunks, PagesOf(s.code.mapSize)) || Exhausted(m.chunks, PagesOf(s.data.mapSize))
                    || Exhausted(m.chunks, 32)
    ensures ok ==> && Sys(m, tree, root) && Same(old(m.frames), m.frames, root)
                   && s' == s.(code := s.code.(paddr := s'.code.paddr), data := s.data.(paddr := s'.data.paddr))
                   && stack.vaddr == 0xBEEF_0000 && stack.mapSize == 0x2_0000
                   && Placed(s'.code, MemOf(m, tree), m.limit) && Placed(s'.data, MemOf(m, tree), m.limit)
                   && Placed(stack, MemOf(m, tree), m.limit)
                   && Apart(s'.code, s'.data) && Apart(s'.code, stack) && Apart(s'.data, stack)
                   && OnlyFree(old(m.frames), old(m.chunks), m.frames, m.chunks)
                   && (forall p | p in ProcessPages(s', stack) :: IsFree(old(m.chunks), p))
  {
    stack := SegmentMapping(0xBEEF_0000, 0, 0x2_0000);
    assert InLowerHalf(stack) && PagesOf(stack.mapSize) == 32;
    ok, s' := AllocImage(m, s, tree, root);
    if !ok {
      return;
    }
    ghost var fr, cs := m.frames, m.chunks;
    ok, stack := AllocSegment(m, stack, s'.code, s'.data, tree, root);
    if ok {
      PlacedStays(fr, cs, m.frames, m.chunks, tree, m.limit, s'.code);
      PlacedStays(fr, cs, m.frames, m.chunks, tree, m.limit, s'.data);
      AllWereFree(old(m.chunks), cs, s', stack);
    }
  }

  lemma VacantLower(fr: Frames, root: nat, seg: SegmentMapping)
    requires InLowerHalf(seg) && forall q | 0 <= q < 0x8_0000_0000 :: Translate(fr, root, q) == Unmapped
    ensures Vacant(fr, root, seg)
  {
    LowerHalfPages(seg);
  }

  // ----- Isolation -----

  /** Every table was free before, or belongs to the shared upper half. */
  ghost predicate Own(cs: seq<Chunk>, tree: Tree) {
    forall n | n in tree :: IsFree(cs, tree[n]) || Upper(n)
  }

  lemma JoinedOwn(cs: seq<Chunk>, root: nat, ktree: Tree)
    requires IsFree(cs, root)
    ensures Own(cs, Joined(map[Node(4, 0) := root], ktree))
  {
  }

  /** A step on tables and pages that were free at the start writes only what was free then. */
  lemma OnlyFreeThen(fr: Frames, cs: seq<Chunk>, a: Mem, b: Mem, w: set<nat>)
    requires OnlyFree(fr, cs, a.fr, a.cs) && Own(cs, a.tree) && Kept(a, b, w) && forall p | p in w :: IsFree(cs, p)
    ensures OnlyFree(fr, cs, b.fr, b.cs) && Own(cs, b.tree)
  {
    forall p: nat | p in fr && !IsFree(cs, p) ensures p in b.fr && b.fr[p] == fr[p] {
      if !Unused(a.tree, p) {
        var n :| n in a.tree && a.tree[n] == p;
        assert Upper(n);
      }
    }
  }

  lemma OnlyFreeTwice(a: Frames, cs: seq<Chunk>, b: Frames, cs': seq<Chunk>, c: Frames, cs'': seq<Chunk>)
    requires OnlyFree(a, cs, b, cs') && OnlyFree(b, cs', c, cs'')
    ensures OnlyFree(a, cs, c, cs'')
  {
  }

  /** Whoever had tables before keeps them: they stay a tree, apart from the free list, and
      translate as before. */
  lemma TablesUndisturbed(fr: Frames, cs: seq<Chunk>, fr': Frames, cs': seq<Chunk>, tree: Tree, root: nat)
    requires OnlyFree(fr, cs, fr', cs') && WellFormed(fr, tree, root) && forall n | n in tree :: !IsFree(cs, tree[n])
    ensures WellFormed(fr', tree, root) && Same(fr, fr', root) && forall n | n in tree :: !IsFree(cs', tree[n])
  {
    TreeSurvives(fr, fr', tree, root);
  }

  lemma InPlaceUndisturbed(a: Mem, b: Mem, root: nat, limit: nat, seg: SegmentMapping, attr: nat)
    requires OnlyFree(a.fr, a.cs, b.fr, b.cs) && a.tree == b.tree && Same(a.fr, b.fr, root) && InPlace(a, root, limit, seg, attr)
    ensures InPlace(b, root, limit, seg, attr)
    ensures forall q | HasPage(seg, q) :: Translate(b.fr, root, q) == Translate(a.fr, root, q)
    ensures forall p: nat | p in a.fr && p in Pages(seg) :: p in b.fr && b.fr[p] == a.fr[p]
  {
    LowerHalfPages(seg);
    forall q | HasPage(seg, q) ensures Translate(b.fr, root, q) == Translate(a.fr, root, q) {
    }
    forall q | HasPage(seg, q) ensures LeafAt(b.fr, root, seg, attr, q) {
      assert LeafAt(a.fr, root, seg, attr, q);
    }
  }

  /** Isolation: a process in place stays in place, contents and all, while only free pages are
      written. */
  lemma ProcessUndisturbed(a: Mem, b: Mem, root: nat, limit: nat, s: Slots, stack: SegmentMapping, file: seq<Byte>)
    requires OnlyFree(a.fr, a.cs, b.fr, b.cs) && a.tree == b.tree && Same(a.fr, b.fr, root)
    requires ProcessInPlace(a, root, limit, s, stack, file)
    ensures ProcessInPlace(b, root, limit, s, stack, file)
  {
    InPlaceUndisturbed(a, b, root, limit, s.code, 5);
    InPlaceUndisturbed(a, b, root, limit, s.data, 7);
    InPlaceUndisturbed(a, b, root, limit, stack, 7);
    LoadedSurvives(a.fr, b.fr, root, s.code, s.codeInfo, file);
    LoadedSurvives(a.fr, b.fr, root, s.data, s.dataInfo, file);
  }

  // ----- Loading a process -----

  /** What `LoadElf` returns: the page table root, the segments, and the tables. */
  datatype Process = Process(root: nat, s: Slots, stack: SegmentMapping, tree: Tree)

  /** The process stands in memory, apart from the free list, reads as its file, and has nothing
      else in its lower half. */
  ghost predicate Stands(m: Dram, pr: Process, file: seq<Byte>, phdrs: seq<Phdr>)
    reads m
  {
    && Sys(m, pr.tree, pr.root)
    && ProcessInPlace(MemOf(m, pr.tree), pr.root, m.limit, pr.s, pr.stack, file) && SlotsFor(pr.s, phdrs)
    && pr.stack.vaddr == 0xBEEF_0000 && pr.stack.mapSize == 0x2_0000
    && NothingElse(m.frames, pr.root, pr.s, pr.stack)
    && (forall i | 0 <= i < |phdrs| && phdrs[i].load :: ReadsImage(m.frames, pr.root, file, phdrs[i]))
  }

  /** Nothing of the process was there before: its frames and its lower-half tables were free. */
  ghost predicate Fresh(cs: seq<Chunk>, pr: Process) {
    Own(cs, pr.tree) && forall p | p in ProcessPages(pr.s, pr.stack) :: IsFree(cs, p)
  }

  /** The page table of a new process: its own root, the kernel's upper half. */
  method NewTables(m: Dram, kroot: nat, ghost ktree: Tree) returns (ok: bool, root: nat, ghost tree: Tree)
    requires Sys(m, ktree, kroot)
    modifies m
    ensures !ok ==> Exhausted(m.chunks, 1)
    ensures ok ==> && Sys(m, tree, root) && OnlyFree(old(m.frames), old(m.chunks), m.frames, m.chunks)
                   && Own(old(m.chunks), tree) && SameUpperHalf(old(m.frames), kroot, m.frames, root)
                   && (forall q | 0 <= q < 0x8_0000_0000 :: Translate(m.frames, root, q) == Unmapped)
  {
    tree := map[];
    ok, root := AllocPageTable(m, ktree, kroot);
    if ok {
      ghost var utree := map[Node(4, 0) := root];
      SetKernelPageEntries(m, root, kroot, utree, ktree);
      tree := Joined(utree, ktree);
      JoinedOwn(old(m.chunks), root, ktree);
    }
  }

  /** `LoadELFAndCreateEphemeralProcess`, up to the registers: a page table sharing the
      kernel's upper half, pages for the segments, the file's bytes in them. On success every
      loadable header reads back as its image through the page table of the process, the upper
      half is the kernel's, and only pages that were free before have been written: the kernel
      and every other process are as they were. */
  method LoadElf(m: Dram, file: seq<Byte>, phdrs: seq<Phdr>, kroot: nat, ghost ktree: Tree)
    returns (st: LoadStatus, root: nat, s: Slots, stack: SegmentMapping, ghost tree: Tree)
    requires Sys(m, ktree, kroot) && Loadable(phdrs, file)
    modifies m
    ensures st.BadHeaders? ==> !forall i | 0 <= i < |phdrs| :: Acceptable(phdrs, i)
    ensures st.OutOfMemory? ==> exists n: nat | Requested(phdrs, n) :: Exhausted(m.chunks, n)
    ensures st.LoadDone? ==> && (forall i | 0 <= i < |phdrs| :: Acceptable(phdrs, i))
                             && Stands(m, Process(root, s, stack, tree), file, phdrs)
                             && Fresh(old(m.chunks), Process(root, s, stack, tree))
                             && SameUpperHalf(old(m.frames), kroot, m.frames, root)
                             && OnlyFree(old(m.frames), old(m.chunks), m.frames, m.chunks)
                             && Sys(m, ktree, kroot) && Same(old(m.frames), m.frames, kroot)
  {
    s, stack := NO_SLOTS, NO_SEGMENT;
    ghost var fr0, cs0 := m.frames, m.chunks;
    var ok;
    ok, root, tree := NewTables(m, kroot, ktree);
    if !ok {
      assert Requested(phdrs, 1);
      return OutOfMemory, root, s, stack, tree;
    }
    var s0;
    ok, s0 := ParseProgramHeaders(phdrs);
    if !ok {
      return BadHeaders, root, s, stack, tree;
    }
    SlotsReady(phdrs, file, s0);
    SlotRequested(phdrs, s0, true);
    SlotRequested(phdrs, s0, false);
    ghost var fr1, cs1 := m.frames, m.chunks;
    ok, s, stack := AllocSegments(m, s0, file, tree, root);
    if !ok {
      assert Requested(phdrs, 32);
      return OutOfMemory, root, s, stack, tree;
    }
    OnlyFreeTwice(fr0, cs0, fr1, cs1, m.frames, m.chunks);
    assert SlotsFor(s, phdrs);
    ghost var a := MemOf(m, tree);
    st, tree := PlaceProcess(m, root, s, stack, file, phdrs, tree);
    if st.LoadDone? {
      OnlyFreeThen(fr0, cs0, a, MemOf(m, tree), ProcessPages(s, stack));
      TablesUndisturbed(fr0, cs0, m.frames, m.chunks, ktree, kroot);
    }
  }

  /** The last step: fill and map what has been allocated. */
  method PlaceProcess(m: Dram, root: nat, s: Slots, stack: SegmentMapping, file: seq<Byte>, ghost phdrs: seq<Phdr>, ghost tree: Tree)
    returns (st: LoadStatus, ghost tree': Tree)
    requires Sys(m, tree, root) && Placed(s.code, MemOf(m, tree), m.limit)
    requires Placed(s.data, MemOf(m, tree), m.limit) && Placed(stack, MemOf(m, tree), m.limit)
    requires Apart(s.code, s.data) && Apart(s.code, stack) && Apart(s.data, stack)
    requires Fillable(s.code, s.codeInfo, file) && Fillable(s.data, s.dataInfo, file)
    requires forall q | 0 <= q < 0x8_0000_0000 :: Translate(m.frames, root, q) == Unmapped
    requires Loadable(phdrs, file) && (forall i | 0 <= i < |phdrs| :: Acceptable(phdrs, i)) && SlotsFor(s, phdrs)
    requires stack.vaddr == 0xBEEF_0000 && stack.mapSize == 0x2_0000
    modifies m
    ensures !st.BadHeaders?
    ensures st.OutOfMemory? ==> Requested(phdrs, 1) && Exhausted(m.chunks, 1)
    ensures st.LoadDone? ==> && Stands(m, Process(root, s, stack, tree'), file, phdrs)
                             && Kept(old(MemOf(m, tree)), MemOf(m, tree'), ProcessPages(s, stack))
                             && SameUpperHalf(old(m.frames), root, m.frames, root)
  {
    VacantLower(m.frames, root, s.code);
    VacantLower(m.frames, root, s.data);
    VacantLower(m.frames, root, stack);
    var st0;
    st0, tree' := LoadAndMap(m, root, s, stack, file, tree);
    if !st0.Done? {
      return OutOfMemory, tree';
    }
    AllImages(MemOf(m, tree'), root, m.limit, file, phdrs, s, stack);
    st := LoadDone;
  }

  /** No address in the lower half of `p` leads to a frame of `other`. */
  ghost predicate NoWayInto(fr: Frames, p: Process, other: Process) {
    forall q | 0 <= q < 0x8_0000_0000 && Translate(fr, p.root, q).Mapped? ::
      Translate(fr, p.root, q).page !in ProcessPages(other.s, other.stack)
  }

  /** Two processes one after the other: the second does not disturb the first, and they share
      no frame and no lower-half table; no address of the lower half of one leads to a frame of
      the other. */
  method LoadTwo(m: Dram, file1: seq<Byte>, phdrs1: seq<Phdr>, file2: seq<Byte>, phdrs2: seq<Phdr>, kroot: nat, ghost ktree: Tree)
    returns (st: LoadStatus, ghost p1: Process, ghost p2: Process)
    requires Sys(m, ktree, kroot) && Loadable(phdrs1, file1) && Loadable(phdrs2, file2)
    modifies m
    ensures st.LoadDone? ==> && Stands(m, p1, file1, phdrs1) && Stands(m, p2, file2, phdrs2)
                             && ProcessPages(p1.s, p1.stack) !! ProcessPages(p2.s, p2.stack)
                             && (forall n, k | n in p1.tree && k in p2.tree && !Upper(k) :: p1.tree[n] != p2.tree[k])
                             && NoWayInto(m.frames, p1, p2) && NoWayInto(m.frames, p2, p1)
  {
    var root, s, stack;
    ghost var tree;
    st, root, s, stack, tree := LoadElf(m, file1, phdrs1, kroot, ktree);
    p1 := Process(root, s, stack, tree);
    p2 := p1;
    if !st.LoadDone? {
      return;
    }
    ghost var a := MemOf(m, tree);
    st, root, s, stack, tree := LoadElf(m, file2, phdrs2, kroot, ktree);
    p2 := Process(root, s, stack, tree);
    if st.LoadDone? {
      TablesUndisturbed(a.fr, a.cs, m.frames, m.chunks, p1.tree, p1.root);
      ProcessUndisturbed(a, MemOf(m, p1.tree), p1.root, m.limit, p1.s, p1.stack, file1);
      AllImages(MemOf(m, p1.tree), p1.root, m.limit, file1, phdrs1, p1.s, p1.stack);
      LowerHalfIsOwn(MemOf(m, p1.tree), p1.root, m.limit, p1.s, p1.stack, file1);
      LowerHalfIsOwn(MemOf(m, p2.tree), p2.root, m.limit, p2.s, p2.stack, file2);
    }
  }
}
