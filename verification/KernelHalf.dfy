/** A fresh page table, and the upper half every process shares with the kernel. */
module KernelHalf {
  import opened Basics
  import opened PhysicalMemory
  import opened PageTable
  import opened PageAllocator
  import opened Mapping

  /** The PML4 entry above a node below the root. */
  function TopIndex(n: Node): nat {
    match n.lvl
    case 3 => n.pre
    case 2 => n.pre / 512
    case 1 => n.pre / 0x4_0000
    case _ => 0
  }

  lemma TopIndexParent(n: Node)
    requires 1 <= n.lvl <= 2
    ensures TopIndex(Parent(n)) == TopIndex(n)
  {
  }

  lemma TopIndexFor(lvl: nat, q: nat)
    requires 1 <= lvl <= 3 && q < 0x10_0000_0000
    ensures TopIndex(NodeFor(lvl, q)) == q / 0x800_0000 == Index(4, q) < 512
  {
    SlotSplit(4, q);
    if lvl == 1 {
      assert q / 512 / 0x4_0000 == q / 0x800_0000;
    } else if lvl == 2 {
      assert q / 0x4_0000 / 512 == q / 0x800_0000;
    } else {
    }
  }

  /** Tables a process ends up with: its own lower half and the kernel's upper half. */
  ghost predicate FromUser(n: Node, utree: Tree) { n in utree && (n.lvl >= 4 || TopIndex(n) < 256) }

  ghost predicate FromKernel(n: Node, ktree: Tree) { n in ktree && n.lvl < 4 && TopIndex(n) >= 256 }

  ghost function Joined(utree: Tree, ktree: Tree): Tree {
    map n | n in utree.Keys + ktree.Keys && (FromUser(n, utree) || FromKernel(n, ktree)) ::
      if FromUser(n, utree) then utree[n] else ktree[n]
  }

  /** The root of the process table with entries 256 to 511 copied from the kernel's. */
  function JoinedRoot(fr: Frames, root: nat, kroot: nat): Frame
    requires IsTable(fr, root) && IsTable(fr, kroot)
  {
    Table(fr[root].entries[..256] + fr[kroot].entries[256..])
  }

  ghost predicate CanJoin(fr: Frames, utree: Tree, root: nat, ktree: Tree, kroot: nat) {
    && WellFormed(fr, utree, root) && WellFormed(fr, ktree, kroot)
    && (forall u, k {:trigger FromUser(u, utree), ktree[k]} | FromUser(u, utree) && k in ktree :: utree[u] != ktree[k])
  }

  lemma JoinedHangsOff(fr: Frames, utree: Tree, root: nat, ktree: Tree, kroot: nat, n: Node)
    requires CanJoin(fr, utree, root, ktree, kroot) && n in Joined(utree, ktree)
    ensures var fr' := fr[root := JoinedRoot(fr, root, kroot)];
            HasTable(fr', Joined(utree, ktree), n) && HangsOff(fr', Joined(utree, ktree), n)
  {
    var top := Node(4, 0);
    assert FromUser(top, utree) && top in ktree;
    if n.lvl < 4 {
      if FromUser(n, utree) {
        assert HangsOff(fr, utree, n);
      } else {
        assert HangsOff(fr, ktree, n);
      }
      if n.lvl < 3 {
        TopIndexParent(n);
      }
    }
  }

  lemma JoinedRootLinkOk(fr: Frames, utree: Tree, root: nat, ktree: Tree, kroot: nat, i: nat)
    requires CanJoin(fr, utree, root, ktree, kroot) && i < 512
    ensures var fr', top := fr[root := JoinedRoot(fr, root, kroot)], Node(4, 0);
            && top in Joined(utree, ktree) && HasTable(fr', Joined(utree, ktree), top)
            && LinkOk(fr', Joined(utree, ktree), top, i)
  {
    var top, c := Node(4, 0), Node(3, i);
    assert FromUser(top, utree);
    JoinedHangsOff(fr, utree, root, ktree, kroot, top);
    assert Child(top, i) == c && TopIndex(c) == i;
    if i < 256 {
      assert LinkOk(fr, utree, top, i);
      assert FromUser(c, utree) <==> c in utree;
    } else {
      assert LinkOk(fr, ktree, top, i);
      assert FromKernel(c, ktree) <==> c in ktree;
    }
  }

  lemma JoinedUserLinkOk(fr: Frames, utree: Tree, root: nat, ktree: Tree, kroot: nat, n: Node, i: nat)
    requires CanJoin(fr, utree, root, ktree, kroot) && FromUser(n, utree) && n.lvl < 4 && i < 512
    ensures var fr', tree := fr[root := JoinedRoot(fr, root, kroot)], Joined(utree, ktree);
            n in tree && HasTable(fr', tree, n) && LinkOk(fr', tree, n, i)
  {
    JoinedHangsOff(fr, utree, root, ktree, kroot, n);
    assert LinkOk(fr, utree, n, i) && utree[n] != utree[Node(4, 0)];
    if n.lvl > 1 {
      var c := Child(n, i);
      assert Parent(c) == n;
      TopIndexParent(c);
      assert c in utree ==> FromUser(c, utree) && c in Joined(utree, ktree);
    }
  }

  lemma JoinedKernelLinkOk(fr: Frames, utree: Tree, root: nat, ktree: Tree, kroot: nat, n: Node, i: nat)
    requires CanJoin(fr, utree, root, ktree, kroot) && FromKernel(n, ktree) && i < 512
    ensures var fr', tree := fr[root := JoinedRoot(fr, root, kroot)], Joined(utree, ktree);
            n in tree && HasTable(fr', tree, n) && LinkOk(fr', tree, n, i)
  {
    JoinedHangsOff(fr, utree, root, ktree, kroot, n);
    assert FromUser(Node(4, 0), utree) && LinkOk(fr, ktree, n, i) && ktree[n] != utree[Node(4, 0)];
    if n.lvl > 1 {
      var c := Child(n, i);
      assert Parent(c) == n;
      TopIndexParent(c);
      assert c in ktree ==> FromKernel(c, ktree) && c in Joined(utree, ktree);
    }
  }

  lemma JoinedLinkOk(fr: Frames, utree: Tree, root: nat, ktree: Tree, kroot: nat, n: Node, i: nat)
    requires CanJoin(fr, utree, root, ktree, kroot) && n in Joined(utree, ktree) && i < 512
    ensures var fr', tree := fr[root := JoinedRoot(fr, root, kroot)], Joined(utree, ktree);
            HasTable(fr', tree, n) && LinkOk(fr', tree, n, i)
  {
    if FromKernel(n, ktree) {
      JoinedKernelLinkOk(fr, utree, root, ktree, kroot, n, i);
    } else if n.lvl < 4 {
      JoinedUserLinkOk(fr, utree, root, ktree, kroot, n, i);
    } else {
      JoinedHangsOff(fr, utree, root, ktree, kroot, n);
      JoinedRootLinkOk(fr, utree, root, ktree, kroot, i);
    }
  }

  lemma JoinedInjective(fr: Frames, utree: Tree, root: nat, ktree: Tree, kroot: nat)
    requires CanJoin(fr, utree, root, ktree, kroot)
    ensures var tree := Joined(utree, ktree); forall a, b | a in tree && b in tree && tree[a] == tree[b] :: a == b
  {
    var tree := Joined(utree, ktree);
    forall a, b | a in tree && b in tree && tree[a] == tree[b] ensures a == b {
      assert FromUser(a, utree) <==> FromUser(b, utree);
    }
  }

  lemma JoinedNodes(fr: Frames, utree: Tree, root: nat, ktree: Tree, kroot: nat)
    requires CanJoin(fr, utree, root, ktree, kroot)
    ensures var fr', tree := fr[root := JoinedRoot(fr, root, kroot)], Joined(utree, ktree);
            forall n | n in tree :: HasTable(fr', tree, n) && HangsOff(fr', tree, n)
  {
    var fr', tree := fr[root := JoinedRoot(fr, root, kroot)], Joined(utree, ktree);
    forall n | n in tree ensures HasTable(fr', tree, n) && HangsOff(fr', tree, n) {
      JoinedHangsOff(fr, utree, root, ktree, kroot, n);
    }
  }

  lemma JoinedWellFormed(fr: Frames, utree: Tree, root: nat, ktree: Tree, kroot: nat)
    requires CanJoin(fr, utree, root, ktree, kroot)
    ensures WellFormed(fr[root := JoinedRoot(fr, root, kroot)], Joined(utree, ktree), root)
  {
    var fr', tree := fr[root := JoinedRoot(fr, root, kroot)], Joined(utree, ktree);
    assert FromUser(Node(4, 0), utree);
    JoinedNodes(fr, utree, root, ktree, kroot);
    forall n, i | n in tree && 0 <= i < 512 ensures LinkOk(fr', tree, n, i) {
      JoinedLinkOk(fr, utree, root, ktree, kroot, n, i);
    }
    JoinedInjective(fr, utree, root, ktree, kroot);
  }

  /** Below the root, walks only read tables that did not change. */
  lemma {:induction false} WalkBelow(fr: Frames, fr': Frames, tree: Tree, root: nat, lvl: nat, q: nat)
    requires WellFormed(fr, tree, root)
    requires forall n | n in tree && n.lvl < 4 && TopIndex(n) == Index(4, q) :: tree[n] in fr' && fr'[tree[n]] == fr[tree[n]]
    requires 1 <= lvl <= 3 && q < 0x10_0000_0000 && NodeFor(lvl, q) in tree
    ensures Walk(fr', tree[NodeFor(lvl, q)], lvl, q) == Walk(fr, tree[NodeFor(lvl, q)], lvl, q)
    decreases lvl
  {
    var n, k := NodeFor(lvl, q), Index(lvl, q);
    SlotSplit(lvl, q);
    TopIndexFor(lvl, q);
    assert LinkOk(fr, tree, n, k);
    if IsLink(lvl, fr[tree[n]].entries[k]) {
      assert Child(n, k) == NodeFor(lvl - 1, q) && Parent(Child(n, k)) == n;
      assert HangsOff(fr, tree, NodeFor(lvl - 1, q));
      WalkBelow(fr, fr', tree, root, lvl - 1, q);
    }
  }

  /** After the copy, lower-half pages translate as in the process table and upper-half
      pages as in the kernel's. */
  lemma JoinedTranslate(fr: Frames, utree: Tree, root: nat, ktree: Tree, kroot: nat, q: nat)
    requires CanJoin(fr, utree, root, ktree, kroot) && q < 0x10_0000_0000
    ensures Translate(fr[root := JoinedRoot(fr, root, kroot)], root, q)
         == Translate(fr, if q < 0x8_0000_0000 then root else kroot, q)
  {
    var fr' := fr[root := JoinedRoot(fr, root, kroot)];
    var lower := q < 0x8_0000_0000;
    var tree, r := if lower then utree else ktree, if lower then root else kroot;
    var top, i := Node(4, 0), Index(4, q);
    SlotSplit(4, q);
    assert NodeFor(4, q) == top && FromUser(top, utree);
    assert fr'[root].entries[i] == fr[r].entries[i];
    assert LinkOk(fr, tree, top, i);
    if IsLink(4, fr[r].entries[i]) {
      var c := Child(top, i);
      assert c == NodeFor(3, q) && Parent(c) == top;
      assert HangsOff(fr, tree, c);
      forall n | n in tree && n.lvl < 4 && TopIndex(n) == i ensures tree[n] in fr' && fr'[tree[n]] == fr[tree[n]] {
        assert lower ==> FromUser(n, utree);
      }
      WalkBelow(fr, fr', tree, r, 3, q);
    }
  }

  /** The loop of `SetKernelPageEntries`. */
  method CopyUpperEntries(m: Dram, root: nat, kroot: nat)
    requires IsTable(m.frames, root) && IsTable(m.frames, kroot) && root != kroot
    modifies m`frames
    ensures m.frames == old(m.frames)[root := JoinedRoot(old(m.frames), root, kroot)]
  {
    ghost var us, ks := m.frames[root].entries, m.frames[kroot].entries;
    var i := 256;
    assert us[..256] + ks[256..256] + us[256..] == us;
    while i < 512
      invariant 256 <= i <= 512
      invariant m.frames == old(m.frames)[root := Table(us[..256] + ks[256..i] + us[i..])]
    {
      assert (us[..256] + ks[256..i] + us[i..])[i := ks[i]] == us[..256] + ks[256..i + 1] + us[i + 1..];
      m.frames := SetEntry(m.frames, root, i, m.frames[kroot].entries[i]);
      i := i + 1;
    }
    assert us[..256] + ks[256..512] + us[512..] == us[..256] + ks[256..];
  }

  /** `SetKernelPageEntries`: the process keeps its lower half and sees the kernel in the upper. */
  method SetKernelPageEntries(m: Dram, root: nat, kroot: nat, ghost utree: Tree, ghost ktree: Tree)
    requires Sys(m, utree, root) && Sys(m, ktree, kroot) && CanJoin(m.frames, utree, root, ktree, kroot)
    modifies m`frames
    ensures Sys(m, Joined(utree, ktree), root)
    ensures m.frames == old(m.frames)[root := JoinedRoot(old(m.frames), root, kroot)]
    ensures forall q | 0 <= q < 0x10_0000_0000 ::
              Translate(m.frames, root, q) == Translate(old(m.frames), if q < 0x8_0000_0000 then root else kroot, q)
  {
    assert FromUser(Node(4, 0), utree) && Node(4, 0) in ktree;
    CopyUpperEntries(m, root, kroot);
    JoinedWellFormed(old(m.frames), utree, root, ktree, kroot);
    ListSurvives(old(m.frames), m.frames, m.head, m.chunks, m.limit);
    forall q | 0 <= q < 0x10_0000_0000
      ensures Translate(m.frames, root, q) == Translate(old(m.frames), if q < 0x8_0000_0000 then root else kroot, q)
    {
      JoinedTranslate(old(m.frames), utree, root, ktree, kroot, q);
    }
  }

  /** A cleared root is a tree of one table and maps nothing. */
  lemma ClearedRoot(fr: Frames, root: nat)
    requires root in fr && fr[root] == ClearedTable()
    ensures WellFormed(fr, map[Node(4, 0) := root], root)
    ensures forall q | 0 <= q < 0x10_0000_0000 :: Translate(fr, root, q) == Unmapped
  {
    var tree := map[Node(4, 0) := root];
    forall n, i | n in tree && 0 <= i < 512 ensures LinkOk(fr, tree, n, i) {
    }
    forall q | 0 <= q < 0x10_0000_0000 ensures Translate(fr, root, q) == Unmapped {
      assert fr[root].entries[Index(4, q)] == ZERO_ENTRY;
    }
  }

  /** `AllocPageTable`: a page for the root, cleared. */
  method AllocPageTable(m: Dram, ghost ktree: Tree, ghost kroot: nat) returns (ok: bool, root: nat)
    requires Sys(m, ktree, kroot)
    modifies m
    ensures ok ==> && Sys(m, map[Node(4, 0) := root], root) && Sys(m, ktree, kroot)
                   && Unused(ktree, root) && IsFree(old(m.chunks), root)
                   && (forall q | 0 <= q < 0x10_0000_0000 :: Translate(m.frames, root, q) == Unmapped)
                   && Same(old(m.frames), m.frames, kroot)
                   && OnlyFree(old(m.frames), old(m.chunks), m.frames, m.chunks)
    ensures !ok ==> FirstFit(m.chunks, 1, None) == |m.chunks|
  {
    root := 0;
    var r := m.AllocPages(1, None);
    if r.None? {
      return false, root;
    }
    root := r.value;
    TookOne(old(m.frames), old(m.chunks), m.limit, m.frames, m.chunks, root, ktree, kroot);
    ghost var fr1 := m.frames;
    m.frames := m.frames[root := ClearedTable()];
    ListSurvives(fr1, m.frames, m.head, m.chunks, m.limit);
    TreeSurvives(old(m.frames), m.frames, ktree, kroot);
    ClearedRoot(m.frames, root);
    ok := true;
  }
}
