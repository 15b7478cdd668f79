/** Physical memory as the kernel sees it: a map from page frame numbers to 4 KiB frames.
    A frame holds a page table, plain bytes, or the header of a free chunk, so a store
    into the wrong frame destroys what was there. Addresses are byte addresses only at
    the interfaces; inside, page `p` stands for the address `p * 4096`. */
module PhysicalMemory {
  import opened Basics

  /** A 64-bit paging-structure entry, by field. `frame` is bits 12 and up within the
      physical address mask, `attr` bits 0-4, `dirty` bit 6, `ps` bit 7; `other` is the
      remaining bits, which the kernel carries along and never reads. */
  datatype Entry = Entry(frame: nat, attr: nat, dirty: bool, ps: bool, other: nat)
  {
    predicate Present() { attr % 2 == 1 }
  }

  const ZERO_ENTRY := Entry(0, 0, false, false, 0)

  datatype Frame =
    | Table(entries: seq<Entry>)
    | Bytes(bytes: seq<Byte>)
    | FreeInfo(num: nat, next: nat, domain: nat)

  type Frames = map<nat, Frame>

  predicate IsTable(fr: Frames, t: nat) {
    t in fr && fr[t].Table? && |fr[t].entries| == 512
  }

  /** A page table after `ClearMapping`. */
  function ClearedTable(): (f: Frame)
    ensures f.Table? && |f.entries| == 512
    ensures forall i | 0 <= i < 512 :: f.entries[i] == ZERO_ENTRY
  {
    Table(seq(512, i => ZERO_ENTRY))
  }

  function SetEntry(fr: Frames, t: nat, i: nat, e: Entry): (r: Frames)
    requires IsTable(fr, t) && i < 512
  {
    fr[t := Table(fr[t].entries[i := e])]
  }

  /** `ByteSizeToPageSize`: the fewest pages that hold so many bytes. */
  function PagesOf(byteSize: nat): (n: nat)
    ensures byteSize <= n * 4096 < byteSize + 4096
  {
    (byteSize + 4096 - 1) / 4096
  }
}
