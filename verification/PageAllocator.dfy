/** The physical page allocator: a singly linked list of free chunks whose headers live in
    the first page of each chunk. Pages are handed out from the end of a chunk. */
module PageAllocator {
  import opened Basics
  import opened PhysicalMemory

  /** A free chunk as its header describes it: first page, length, proximity domain. */
  datatype Chunk = Chunk(base: nat, num: nat, domain: nat)
  {
    predicate Has(p: nat) { base <= p < base + num }

    predicate Apart(d: Chunk) { base + num <= d.base || d.base + d.num <= base }

    /** `CanProvidePages`, with the domain filter of `AllocPagesInProximityDomain`. */
    predicate Fits(n: nat, want: Option<nat>) {
      n < num && (want.None? || want.value == domain)
    }
  }

  ghost predicate IsFree(cs: seq<Chunk>, p: nat) {
    exists i | 0 <= i < |cs| :: cs[i].Has(p)
  }

  function NextOf(cs: seq<Chunk>, i: nat): nat {
    if i < |cs| then cs[i].base else 0
  }

  ghost predicate ChunksOk(cs: seq<Chunk>, limit: nat) {
    && (forall i | 0 <= i < |cs| :: cs[i].base > 0 && cs[i].num > 0 && cs[i].base + cs[i].num <= limit)
    && (forall i, j | 0 <= i < j < |cs| :: cs[i].Apart(cs[j]))
  }

  /** The page at the base of chunk `i` holds its header, which leads to chunk `i + 1`. */
  ghost predicate HeaderOk(fr: Frames, cs: seq<Chunk>, i: nat)
    requires i < |cs|
  {
    cs[i].base in fr && fr[cs[i].base] == FreeInfo(cs[i].num, NextOf(cs, i + 1), cs[i].domain)
  }

  /** The list threaded through memory from `head` is `cs`. */
  ghost predicate Threaded(fr: Frames, head: nat, cs: seq<Chunk>) {
    head == NextOf(cs, 0) && forall i | 0 <= i < |cs| :: HeaderOk(fr, cs, i)
  }

  /** Position of the first chunk that can serve the request; the length when none can. */
  ghost function FirstFit(cs: seq<Chunk>, n: nat, want: Option<nat>): (i: nat)
    ensures i <= |cs|
    ensures i < |cs| ==> cs[i].Fits(n, want)
    ensures forall j | 0 <= j < i :: !cs[j].Fits(n, want)
  {
    if cs == [] || cs[0].Fits(n, want) then 0 else 1 + FirstFit(cs[1..], n, want)
  }

  lemma FirstFitIs(cs: seq<Chunk>, n: nat, want: Option<nat>, i: nat)
    requires i <= |cs|
    requires i < |cs| ==> cs[i].Fits(n, want)
    requires forall j | 0 <= j < i :: !cs[j].Fits(n, want)
    ensures FirstFit(cs, n, want) == i
  {
  }

  function Shrink(cs: seq<Chunk>, i: nat, n: nat): seq<Chunk>
    requires i < |cs| && n <= cs[i].num
  {
    cs[i := cs[i].(num := cs[i].num - n)]
  }

  /** Two chunks of one list never start at the same page, so a header is written once. */
  lemma BasesDiffer(cs: seq<Chunk>, limit: nat, i: nat, j: nat)
    requires ChunksOk(cs, limit) && i < |cs| && j < |cs| && i != j
    ensures cs[i].base != cs[j].base && cs[i].Apart(cs[j])
  {
    if i < j {
      assert cs[i].Apart(cs[j]);
    } else {
      assert cs[j].Apart(cs[i]);
    }
  }

  /** Memory once chunk `i` has given up its last `n` pages. */
  function Provide(fr: Frames, cs: seq<Chunk>, i: nat, n: nat): Frames
    requires i < |cs| && n <= cs[i].num
  {
    fr[cs[i].base := FreeInfo(cs[i].num - n, NextOf(cs, i + 1), cs[i].domain)]
  }

  lemma ProvideKeepsList(fr: Frames, head: nat, cs: seq<Chunk>, limit: nat, i: nat, n: nat)
    requires ChunksOk(cs, limit) && Threaded(fr, head, cs) && i < |cs| && n < cs[i].num
    ensures ChunksOk(Shrink(cs, i, n), limit)
    ensures Threaded(Provide(fr, cs, i, n), head, Shrink(cs, i, n))
  {
    var cs' := Shrink(cs, i, n);
    var fr' := Provide(fr, cs, i, n);
    forall j | 0 <= j < |cs'| ensures HeaderOk(fr', cs', j) {
      assert HeaderOk(fr, cs, j);
      assert NextOf(cs', j + 1) == NextOf(cs, j + 1);
      if j != i {
        BasesDiffer(cs, limit, i, j);
      }
    }
    forall j, k | 0 <= j < k < |cs'| ensures cs'[j].Apart(cs'[k]) {
      assert cs[j].Apart(cs[k]);
    }
  }

  /** A range none of whose pages is free lies apart from every chunk. */
  lemma UnfreeApart(cs: seq<Chunk>, limit: nat, c: Chunk, i: nat)
    requires ChunksOk(cs, limit) && c.num > 0 && i < |cs|
    requires forall p: nat | c.Has(p) :: !IsFree(cs, p)
    ensures c.Apart(cs[i])
  {
    var d := cs[i];
    var p := if c.base < d.base then d.base else c.base;
    assert d.Has(p) ==> IsFree(cs, p);
    assert c.Has(p) ==> !IsFree(cs, p);
  }

  lemma PushKeepsList(fr: Frames, head: nat, cs: seq<Chunk>, limit: nat, c: Chunk)
    requires ChunksOk(cs, limit) && Threaded(fr, head, cs)
    requires c.base > 0 && c.num > 0 && c.base + c.num <= limit
    requires forall p: nat | c.Has(p) :: !IsFree(cs, p)
    ensures ChunksOk([c] + cs, limit)
    ensures Threaded(fr[c.base := FreeInfo(c.num, head, c.domain)], c.base, [c] + cs)
  {
    var cs' := [c] + cs;
    forall i | 0 <= i < |cs| ensures c.Apart(cs[i]) {
      UnfreeApart(cs, limit, c, i);
    }
    assert forall j | 1 <= j < |cs'| :: cs'[j] == cs[j - 1];
    var fr' := fr[c.base := FreeInfo(c.num, head, c.domain)];
    forall j | 0 <= j < |cs'| ensures HeaderOk(fr', cs', j) {
      assert NextOf(cs', j + 1) == NextOf(cs, j);
      assert j > 0 ==> HeaderOk(fr, cs, j - 1);
    }
    forall i, j | 0 <= i < j < |cs'| ensures cs'[i].Apart(cs'[j]) {
      if i > 0 {
        assert cs[i - 1].Apart(cs[j - 1]);
      }
    }
  }

  /** `page` is the result of serving the request from the first chunk that fits. */
  ghost predicate Took(fr: Frames, cs: seq<Chunk>, n: nat, want: Option<nat>, fr': Frames, cs': seq<Chunk>, page: nat) {
    var i := FirstFit(cs, n, want);
    && i < |cs|
    && page == cs[i].base + cs[i].num - n
    && cs' == Shrink(cs, i, n)
    && fr' == Provide(fr, cs, i, n)
  }

  /** Chunk `i` is large enough and of the domain wanted, none before it is, and it gives its end. */
  ghost predicate ServesFirst(cs: seq<Chunk>, n: nat, want: Option<nat>, i: nat, page: nat)
    requires i < |cs|
  {
    && n < cs[i].num && (want.Some? ==> cs[i].domain == want.value) && page == cs[i].base + (cs[i].num - n)
    && forall j | 0 <= j < i :: cs[j].num <= n || (want.Some? && cs[j].domain != want.value)
  }

  /** What fitting means for a request, without the search. */
  lemma FitMeans(cs: seq<Chunk>, n: nat, want: Option<nat>)
    ensures FirstFit(cs, n, want) == |cs| <==> forall c | c in cs && (want.Some? ==> c.domain == want.value) :: c.num <= n
    ensures var i := FirstFit(cs, n, want); i < |cs| ==> ServesFirst(cs, n, want, i, cs[i].base + cs[i].num - n)
  {
    var i := FirstFit(cs, n, want);
    if i < |cs| {
      assert cs[i] in cs && cs[i].Fits(n, want);
    }
  }

  /** The first chunk that fits serves the request. */
  lemma ServedBy(fr: Frames, head: nat, cs: seq<Chunk>, limit: nat, n: nat, want: Option<nat>, i: nat)
    requires ChunksOk(cs, limit) && Threaded(fr, head, cs)
    requires i < |cs| && cs[i].Fits(n, want) && forall j | 0 <= j < i :: !cs[j].Fits(n, want)
    ensures ChunksOk(Shrink(cs, i, n), limit) && Threaded(Provide(fr, cs, i, n), head, Shrink(cs, i, n))
    ensures Took(fr, cs, n, want, Provide(fr, cs, i, n), Shrink(cs, i, n), cs[i].base + cs[i].num - n)
  {
    ProvideKeepsList(fr, head, cs, limit, i, n);
    FirstFitIs(cs, n, want, i);
  }

  /** Physical memory with the allocator that threads its free list through it. */
  class Dram {
    var frames: Frames
    /** `head_phys_addr_`, as a page number; 0 ends the list. */
    var head: nat
    /** Number of pages below the physical address mask. */
    const limit: nat
    ghost var chunks: seq<Chunk>

    ghost predicate Valid()
      reads this
    {
      ChunksOk(chunks, limit) && Threaded(frames, head, chunks)
    }

    constructor (limit: nat, frames: Frames)
      ensures Valid() && chunks == [] && this.limit == limit && this.frames == frames
    {
      this.limit := limit;
      this.frames := frames;
      head := 0;
      chunks := [];
    }

    /** `FreePagesWithProximityDomain`. Page 0 doubles as the end of the list, so a chunk
        based there empties the list instead of growing it. */
    method FreePages(base: nat, num: nat, domain: nat)
      requires Valid() && num > 0 && base + num <= limit
      requires forall p: nat | Chunk(base, num, domain).Has(p) :: !IsFree(chunks, p)
      modifies this
      ensures Valid()
      ensures base > 0 ==> chunks == [Chunk(base, num, domain)] + old(chunks)
      ensures base == 0 ==> chunks == []
      ensures frames == old(frames)[base := FreeInfo(num, old(head), domain)]
    {
      if base > 0 {
        PushKeepsList(frames, head, chunks, limit, Chunk(base, num, domain));
        chunks := [Chunk(base, num, domain)] + chunks;
      } else {
        chunks := [];
      }
      frames := frames[base := FreeInfo(num, head, domain)];
      head := base;
    }

    /** `FreeInfo::ProvidePages` on the first chunk that fits: its last pages. */
    method ProvidePages(info: nat, n: nat, ghost want: Option<nat>, ghost i: nat) returns (page: nat)
      requires Valid() && i < |chunks| && chunks[i].base == info && chunks[i].Fits(n, want)
      requires forall j | 0 <= j < i :: !chunks[j].Fits(n, want)
      modifies this
      ensures Valid() && Took(old(frames), old(chunks), n, want, frames, chunks, page)
    {
      assert HeaderOk(frames, chunks, i);
      ServedBy(frames, head, chunks, limit, n, want, i);
      var h := frames[info];
      frames := frames[info := h.(num := h.num - n)];
      chunks := Shrink(chunks, i, n);
      page := info + (h.num - n);
    }

    /** `AllocPages` and, with `want`, `AllocPagesInProximityDomain`, in the view where a
        pointer is a physical address. `None` is the panic of an exhausted list. */
    method AllocPages(n: nat, want: Option<nat>) returns (r: Option<nat>)
      requires Valid()
      modifies this
      ensures Valid()
      ensures r.None? <==> forall c | c in old(chunks) && (want.Some? ==> c.domain == want.value) :: c.num <= n
      ensures r.Some? ==> exists i | 0 <= i < |old(chunks)| :: ServesFirst(old(chunks), n, want, i, r.value)
      ensures r.Some? && n > 0 ==> exists c | c in old(chunks) :: (want.Some? ==> c.domain == want.value) && c.Has(r.value)
      ensures r.None? <==> FirstFit(old(chunks), n, want) == |old(chunks)|
      ensures r.None? ==> chunks == old(chunks) && frames == old(frames)
      ensures r.Some? ==> Took(old(frames), old(chunks), n, want, frames, chunks, r.value)
    {
      FitMeans(chunks, n, want);
      var info := head;
      ghost var i := 0;
      while info != 0
        invariant 0 <= i <= |chunks| && info == NextOf(chunks, i)
        invariant unchanged(this)
        invariant forall j | 0 <= j < i :: !chunks[j].Fits(n, want)
        decreases |chunks| - i
      {
        assert i < |chunks| && HeaderOk(frames, chunks, i);
        var h := frames[info];
        if (want.None? || want.value == h.domain) && n < h.num {
          var page := ProvidePages(info, n, want, i);
          return Some(page);
        }
        info := h.next;
        i := i + 1;
      }
      FirstFitIs(chunks, n, want, i);
      return None;
    }

    /** `AllocPages` and, with `want`, `AllocPagesInProximityDomain`, in the view where a
        pointer is a physical address plus `straight`. No pointer is null there, not even the
        end of the list, so the loop test never fails and the search only stops on a chunk that
        fits; when one exists it gives the same page as the physical view. */
    method AllocPagesStraight(n: nat, want: Option<nat>, straight: nat) returns (page: nat)
      requires Valid() && straight > 0
      requires exists c | c in chunks :: n < c.num && (want.Some? ==> c.domain == want.value)
      modifies this
      ensures Valid()
      ensures exists i | 0 <= i < |old(chunks)| :: ServesFirst(old(chunks), n, want, i, page)
      ensures n > 0 ==> exists c | c in old(chunks) :: (want.Some? ==> c.domain == want.value) && c.Has(page)
      ensures Took(old(frames), old(chunks), n, want, frames, chunks, page)
    {
      FitMeans(chunks, n, want);
      var info := head + straight;
      ghost var i := 0;
      while true
        invariant 0 <= i <= FirstFit(chunks, n, want) && info == NextOf(chunks, i) + straight
        invariant unchanged(this)
        invariant forall j | 0 <= j < i :: !chunks[j].Fits(n, want)
        decreases |chunks| - i
      {
        assert HeaderOk(frames, chunks, i);
        var h := frames[info - straight];
        if (want.None? || want.value == h.domain) && n < h.num {
          page := ProvidePages(info - straight, n, want, i);
          return;
        }
        info := h.next + straight;
        i := i + 1;
      }
    }
  }

  /** Taking `n` pages from the end of a chunk: exactly those pages stop being free, and
      no chunk header is among them. */
  lemma ShrinkTakes(cs: seq<Chunk>, limit: nat, i: nat, n: nat)
    requires ChunksOk(cs, limit) && i < |cs| && n < cs[i].num
    ensures ChunksOk(Shrink(cs, i, n), limit)
    ensures var at := cs[i].base + cs[i].num - n;
            && (forall p | at <= p < at + n :: IsFree(cs, p))
            && (forall p: nat :: IsFree(Shrink(cs, i, n), p) <==> IsFree(cs, p) && !(at <= p < at + n))
            && (forall j | 0 <= j < |cs| :: !(at <= cs[j].base < at + n))
  {
    var cs' := Shrink(cs, i, n);
    var at := cs[i].base + cs[i].num - n;
    forall p: nat
      ensures IsFree(cs', p) <==> IsFree(cs, p) && !(at <= p < at + n)
    {
      if IsFree(cs', p) {
        var k :| 0 <= k < |cs'| && cs'[k].Has(p);
        assert cs[k].Has(p);
        assert k != i ==> cs[i].Apart(cs[k]) || cs[k].Apart(cs[i]);
      }
      if IsFree(cs, p) && !(at <= p < at + n) {
        var k :| 0 <= k < |cs| && cs[k].Has(p);
        assert cs'[k].Has(p);
      }
    }
    forall p | at <= p < at + n ensures IsFree(cs, p) {
      assert cs[i].Has(p);
    }
    forall j | 0 <= j < |cs| ensures !(at <= cs[j].base < at + n) {
      assert j != i ==> cs[i].Apart(cs[j]) || cs[j].Apart(cs[i]);
    }
  }

  // ----- Whole runs -----

  datatype Op = Free(base: nat, num: nat, domain: nat) | Alloc(n: nat, want: Option<nat>)

  /** The free list together with the pages now in the hands of callers. */
  datatype Heap = Heap(chunks: seq<Chunk>, held: set<nat>)

  function Range(base: nat, num: nat): (r: set<nat>)
    ensures forall p: nat :: p in r <==> base <= p < base + num
    ensures |r| == num
  {
    if num == 0 then {} else Range(base, num - 1) + {base + num - 1}
  }

  /** What `Dram.FreePages` and `Dram.AllocPages` do to the list, and who owns the pages. */
  ghost function Apply(h: Heap, op: Op): Heap {
    match op
    case Free(base, num, domain) =>
      Heap(if base == 0 then [] else [Chunk(base, num, domain)] + h.chunks, h.held - Range(base, num))
    case Alloc(n, want) =>
      var i := FirstFit(h.chunks, n, want);
      if i == |h.chunks| then h
      else Heap(Shrink(h.chunks, i, n),
                h.held + Range(h.chunks[i].base + h.chunks[i].num - n, n))
  }

  /** Callers free non-empty ranges, none of whose pages is free already; never page 0. */
  ghost predicate Legal(h: Heap, op: Op, limit: nat) {
    op.Free? ==> && op.num > 0 && op.base > 0 && op.base + op.num <= limit
                 && forall p: nat | Chunk(op.base, op.num, op.domain).Has(p) :: !IsFree(h.chunks, p)
  }

  ghost predicate LegalRun(h: Heap, ops: seq<Op>, limit: nat)
    decreases |ops|
  {
    ops == [] || (Legal(h, ops[0], limit) && LegalRun(Apply(h, ops[0]), ops[1..], limit))
  }

  ghost function Run(h: Heap, ops: seq<Op>): Heap
    decreases |ops|
  {
    if ops == [] then h else Run(Apply(h, ops[0]), ops[1..])
  }

  /** Pages some caller has put into the allocator during the run. */
  function Supplied(ops: seq<Op>): set<nat> {
    if ops == [] then {}
    else (if ops[0].Free? then Range(ops[0].base, ops[0].num) else {}) + Supplied(ops[1..])
  }

  ghost predicate HeapOk(h: Heap, limit: nat) {
    && ChunksOk(h.chunks, limit)
    && (forall p | p in h.held :: !IsFree(h.chunks, p))
  }

  function FreeSet(cs: seq<Chunk>): set<nat> {
    if cs == [] then {} else Range(cs[0].base, cs[0].num) + FreeSet(cs[1..])
  }

  function Total(cs: seq<Chunk>): nat {
    if cs == [] then 0 else cs[0].num + Total(cs[1..])
  }

  lemma {:induction false} FreeSetIs(cs: seq<Chunk>, p: nat)
    ensures p in FreeSet(cs) <==> IsFree(cs, p)
  {
    if cs != [] {
      FreeSetIs(cs[1..], p);
      if IsFree(cs, p) {
        var i :| 0 <= i < |cs| && cs[i].Has(p);
        assert i > 0 ==> cs[1..][i - 1].Has(p);
      }
      if IsFree(cs[1..], p) {
        var i :| 0 <= i < |cs[1..]| && cs[1..][i].Has(p);
        assert cs[i + 1].Has(p);
      }
      assert cs[0].Has(p) ==> IsFree(cs, p);
    }
  }

  lemma {:induction false} FreeSetSize(cs: seq<Chunk>, limit: nat)
    requires ChunksOk(cs, limit)
    ensures |FreeSet(cs)| == Total(cs)
  {
    if cs != [] {
      assert ChunksOk(cs[1..], limit);
      FreeSetSize(cs[1..], limit);
      forall p | p in Range(cs[0].base, cs[0].num) ensures p !in FreeSet(cs[1..]) {
        FreeSetIs(cs[1..], p);
        assert forall k | 0 < k < |cs| :: cs[0].Apart(cs[k]);
      }
      assert Range(cs[0].base, cs[0].num) !! FreeSet(cs[1..]);
    }
  }

  lemma FreeSafe(h: Heap, base: nat, num: nat, domain: nat, limit: nat)
    requires HeapOk(h, limit) && Legal(h, Free(base, num, domain), limit)
    ensures var h' := Apply(h, Free(base, num, domain));
            && HeapOk(h', limit)
            && forall p: nat :: (IsFree(h'.chunks, p) || p in h'.held) <==>
                                (IsFree(h.chunks, p) || p in h.held || base <= p < base + num)
  {
    var c := Chunk(base, num, domain);
    var cs' := [c] + h.chunks;
    forall i | 0 <= i < |h.chunks| ensures c.Apart(h.chunks[i]) {
      UnfreeApart(h.chunks, limit, c, i);
    }
    forall i, j | 0 <= i < j < |cs'| ensures cs'[i].Apart(cs'[j]) {
      if i > 0 {
        assert h.chunks[i - 1].Apart(h.chunks[j - 1]);
      }
    }
    forall p: nat ensures IsFree(cs', p) <==> IsFree(h.chunks, p) || c.Has(p) {
      FreeSetIs(cs', p);
      FreeSetIs(h.chunks, p);
      assert cs'[1..] == h.chunks;
    }
  }

  /** One operation keeps free pages and held pages apart and loses none of them. */
  lemma StepSafe(h: Heap, op: Op, limit: nat)
    requires HeapOk(h, limit) && Legal(h, op, limit)
    ensures HeapOk(Apply(h, op), limit)
    ensures forall p: nat ::
              (IsFree(Apply(h, op).chunks, p) || p in Apply(h, op).held) <==>
              (IsFree(h.chunks, p) || p in h.held || (op.Free? && op.base <= p < op.base + op.num))
  {
    match op
    case Free(base, num, domain) =>
      FreeSafe(h, base, num, domain, limit);
    case Alloc(n, want) =>
      var i := FirstFit(h.chunks, n, want);
      if i < |h.chunks| {
        ShrinkTakes(h.chunks, limit, i, n);
      }
  }

  /** Over every legal run, free and held pages stay apart and together remain exactly the
      pages that were there at the start or supplied since. */
  lemma {:induction false} RunSafe(h: Heap, ops: seq<Op>, limit: nat)
    requires HeapOk(h, limit) && LegalRun(h, ops, limit)
    ensures HeapOk(Run(h, ops), limit)
    ensures forall p: nat ::
              (IsFree(Run(h, ops).chunks, p) || p in Run(h, ops).held) <==>
              (IsFree(h.chunks, p) || p in h.held || p in Supplied(ops))
    decreases |ops|
  {
    if ops != [] {
      StepSafe(h, ops[0], limit);
      RunSafe(Apply(h, ops[0]), ops[1..], limit);
    }
  }

  /** Conservation: starting empty, every page supplied is either counted in some chunk
      header or held by a caller, and never both. */
  lemma PagesConserved(ops: seq<Op>, limit: nat)
    requires LegalRun(Heap([], {}), ops, limit)
    ensures var h := Run(Heap([], {}), ops); Total(h.chunks) + |h.held| == |Supplied(ops)|
  {
    RunSafe(Heap([], {}), ops, limit);
    var h := Run(Heap([], {}), ops);
    FreeSetSize(h.chunks, limit);
    forall p: nat ensures p in FreeSet(h.chunks) <==> IsFree(h.chunks, p) {
      FreeSetIs(h.chunks, p);
    }
    assert FreeSet(h.chunks) !! h.held;
    assert FreeSet(h.chunks) + h.held == Supplied(ops);
  }
}
