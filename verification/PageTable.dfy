/** The four-level page table: the walker, the tree invariant, and what replacing one
    entry does to every translation. */
module PageTable {
  import opened Basics
  import opened PhysicalMemory

  /** Number of 4 KiB pages below one entry at a level: 1 is the page table, 4 the PML4.
      Level 5 stands for the whole 48-bit space. */
  function Span(lvl: nat): (s: nat)
    ensures s > 0
  {
    match lvl
    case 1 => 1
    case 2 => 512
    case 3 => 0x4_0000
    case 4 => 0x800_0000
    case _ => 0x10_0000_0000
  }

  function Index(lvl: nat, q: nat): (i: nat)
    ensures i < 512
  {
    (q / Span(lvl)) % 512
  }

  /** Page tables only hold pages, the PML4 only tables; bit 7 decides in between. */
  predicate IsPage(lvl: nat, e: Entry) {
    lvl == 1 || (lvl < 4 && e.ps)
  }

  /** Result of a walk for one page: the level of the leaf, the physical page, the leaf attributes. */
  datatype Translation = Unmapped | Mapped(lvl: nat, page: nat, attr: nat)

  function Walk(fr: Frames, t: nat, lvl: nat, q: nat): Translation
    requires 1 <= lvl <= 4
    decreases lvl, 0
  {
    if IsTable(fr, t) then Follow(fr, fr[t].entries[Index(lvl, q)], lvl, q) else Unmapped
  }

  /** What a walk yields once it has read entry `e` at level `lvl`. */
  function Follow(fr: Frames, e: Entry, lvl: nat, q: nat): Translation
    requires 1 <= lvl <= 4
    decreases lvl - 1, 1
  {
    if !e.Present() then Unmapped
    else if IsPage(lvl, e) then Mapped(lvl, e.frame - e.frame % Span(lvl) + q % Span(lvl), e.attr)
    else Walk(fr, e.frame, lvl - 1, q)
  }

  function Translate(fr: Frames, root: nat, q: nat): Translation {
    Walk(fr, root, 4, q)
  }

  const CANNOT_TRANSLATE: nat := 0x8000_0000_0000_0000

  /** `v2p` on byte addresses; only bits 0-47 of the address take part. */
  function V2p(fr: Frames, root: nat, vaddr: nat): nat {
    V2pOf(Translate(fr, root, vaddr / 4096 % 0x10_0000_0000), vaddr)
  }

  function V2pOf(x: Translation, vaddr: nat): nat {
    match x
    case Unmapped => CANNOT_TRANSLATE
    case Mapped(_, page, _) => page * 4096 + vaddr % 4096
  }

  /** Division after cutting off a multiple of the divisor. */
  lemma CutDivide(p: nat, s: nat, k: nat, q: nat)
    requires s > 0 && p == k * s + q
    ensures p / s == k + q / s && p % s == q % s
  {
    var x, r := q / s, q % s;
    assert (k + x) * s == k * s + x * s;
    DivUnique(p, s, k + x, r);
  }

  /** A page number and the number cut to 36 bits, seen from an entry that serves `s` pages. */
  lemma PageBits(p: nat, s: nat, k: nat, q: nat)
    requires s > 0 && p == (512 * k) * s + q
    ensures q / s % 512 == p / s % 512 && q % s == p % s
  {
    CutDivide(p, s, 512 * k, q);
    CutDivide(512 * k + q / s, 512, k, q / s);
  }

  /** The same from the byte address. */
  lemma AddressBits(a: nat, s: nat, k: nat, q: nat)
    requires s > 0 && a / 4096 == (512 * k) * s + q
    ensures q / s % 512 == a / (4096 * s) % 512 && q % s * 4096 + a % 4096 == a % (4096 * s)
  {
    var p, o := a / 4096, a % 4096;
    PageBits(p, s, k, q);
    var x, r := p / s, p % s;
    assert (x * s + r) * 4096 == x * (4096 * s) + r * 4096;
    DivUnique(a, 4096 * s, x, r * 4096 + o);
  }

  /** What the walk for `a` reads, by the bits of the address. */
  lemma IndexBits(a: nat)
    ensures var q := a / 4096 % 0x10_0000_0000;
            && Index(4, q) == a / 0x80_0000_0000 % 512
            && Index(3, q) == a / 0x4000_0000 % 512 && q % Span(3) * 4096 + a % 4096 == a % 0x4000_0000
            && Index(2, q) == a / 0x20_0000 % 512 && q % Span(2) * 4096 + a % 4096 == a % 0x20_0000
            && Index(1, q) == a / 4096 % 512 && q % Span(1) == 0
  {
    var h, q := a / 4096 / 0x10_0000_0000, a / 4096 % 0x10_0000_0000;
    AddressBits(a, 0x800_0000, h, q);
    AddressBits(a, 0x4_0000, h * 512, q);
    AddressBits(a, 512, h * 0x4_0000, q);
    AddressBits(a, 1, h * 0x800_0000, q);
  }

  /** `v2p` from a table on, by the bits of the address: a page found at a level covers `unit`
      bytes, and a table is searched with the next nine bits. */
  function WalkBits(fr: Frames, t: nat, lvl: nat, a: nat): nat
    requires 1 <= lvl <= 4
    decreases lvl
  {
    if !IsTable(fr, t) then CANNOT_TRANSLATE
    else
      var unit := if lvl == 4 then 0x80_0000_0000 else if lvl == 3 then 0x4000_0000 else if lvl == 2 then 0x20_0000 else 4096;
      var e := fr[t].entries[a / unit % 512];
      if e.attr % 2 == 0 then CANNOT_TRANSLATE
      else if lvl == 1 || (lvl < 4 && e.ps) then e.frame * 4096 - e.frame * 4096 % unit + a % unit
      else WalkBits(fr, e.frame, lvl - 1, a)
  }

  lemma FrameBits(f: nat, s: nat)
    requires s > 0
    ensures f * 4096 - f * 4096 % (4096 * s) == (f - f % s) * 4096
  {
    var x, r := f / s, f % s;
    assert f * 4096 == x * (4096 * s) + r * 4096 && r * 4096 < 4096 * s;
    DivUnique(f * 4096, 4096 * s, x, r * 4096);
  }

  lemma {:induction false} WalkByBits(fr: Frames, t: nat, lvl: nat, a: nat)
    requires 1 <= lvl <= 4
    ensures V2pOf(Walk(fr, t, lvl, a / 4096 % 0x10_0000_0000), a) == WalkBits(fr, t, lvl, a)
    decreases lvl
  {
    IndexBits(a);
    if IsTable(fr, t) {
      var q := a / 4096 % 0x10_0000_0000;
      var e := fr[t].entries[Index(lvl, q)];
      if lvl < 4 {
        FrameBits(e.frame, Span(lvl));
      }
      if e.Present() && !IsPage(lvl, e) {
        WalkByBits(fr, e.frame, lvl - 1, a);
      }
    }
  }

  /** `v2p` is the walk by the bits of the address: bits 39-47 select in the PML4, bits 30-38, 21-29
      and 12-20 below it; pages of 1 GiB, 2 MiB and 4 KiB end it early. */
  lemma V2pByBits(fr: Frames, root: nat, a: nat)
    ensures V2p(fr, root, a) == WalkBits(fr, root, 4, a)
  {
    WalkByBits(fr, root, 4, a);
  }

  // ----- The tree invariant -----

  /** A table of the tree, named by its level and the high part of the addresses it serves. */
  datatype Node = Node(lvl: nat, pre: nat)

  type Tree = map<Node, nat>

  function NodeFor(lvl: nat, q: nat): Node { Node(lvl, q / Span(lvl + 1)) }

  function Child(n: Node, i: nat): Node
    requires n.lvl > 0
  {
    Node(n.lvl - 1, n.pre * 512 + i)
  }

  function Parent(n: Node): Node { Node(n.lvl + 1, n.pre / 512) }

  predicate IsLink(lvl: nat, e: Entry) { e.Present() && !IsPage(lvl, e) }

  /** Node `n` has a table of its own, at a proper place in the tree. */
  ghost predicate HasTable(fr: Frames, tree: Tree, n: Node)
    requires n in tree
  {
    1 <= n.lvl <= 4 && (n.lvl == 4 ==> n.pre == 0) && IsTable(fr, tree[n])
  }

  /** Every table but the root hangs off a link entry of its parent. */
  ghost predicate HangsOff(fr: Frames, tree: Tree, n: Node)
    requires n in tree
  {
    n.lvl < 4 ==>
      && Parent(n) in tree && IsTable(fr, tree[Parent(n)])
      && var e := fr[tree[Parent(n)]].entries[n.pre % 512];
      && IsLink(n.lvl + 1, e) && e.frame == tree[n]
  }

  ghost predicate LinkOk(fr: Frames, tree: Tree, n: Node, i: nat)
    requires n in tree && HasTable(fr, tree, n) && i < 512
  {
    IsLink(n.lvl, fr[tree[n]].entries[i]) ==> Child(n, i) in tree
  }

  /** The tables reachable from `root` form a tree with no table shared: every link entry
      leads to a table of its own, and every table but the root hangs off one link entry. */
  ghost predicate WellFormed(fr: Frames, tree: Tree, root: nat) {
    && Node(4, 0) in tree && tree[Node(4, 0)] == root
    && (forall n | n in tree :: HasTable(fr, tree, n))
    && (forall n {:trigger HangsOff(fr, tree, n)} | n in tree :: HangsOff(fr, tree, n))
    && (forall n, i {:trigger LinkOk(fr, tree, n, i)} | n in tree && 0 <= i < 512 :: LinkOk(fr, tree, n, i))
    && (forall a, b | a in tree && b in tree && tree[a] == tree[b] :: a == b)
  }

  lemma SlotSplit(lvl: nat, q: nat)
    requires 1 <= lvl <= 4
    ensures q / Span(lvl + 1) * 512 + Index(lvl, q) == q / Span(lvl)
    ensures q / Span(lvl) / 512 == q / Span(lvl + 1)
  {
    if lvl == 1 {
    } else if lvl == 2 {
    } else if lvl == 3 {
    } else {
    }
  }

  /** A walk from the root for a page served by table `n` passes through `n`. */
  lemma {:induction false} WalkReaches(fr: Frames, tree: Tree, root: nat, lvl: nat, q: nat)
    requires WellFormed(fr, tree, root)
    requires 1 <= lvl <= 4 && q < 0x10_0000_0000
    requires NodeFor(lvl, q) in tree
    ensures Translate(fr, root, q) == Walk(fr, tree[NodeFor(lvl, q)], lvl, q)
    decreases 4 - lvl
  {
    if lvl < 4 {
      SlotSplit(lvl + 1, q);
      assert HangsOff(fr, tree, NodeFor(lvl, q));
      assert Parent(NodeFor(lvl, q)) == NodeFor(lvl + 1, q);
      WalkReaches(fr, tree, root, lvl + 1, q);
    } else {
      assert NodeFor(4, q) == Node(4, 0);
    }
  }

  ghost predicate SameTables(fr: Frames, fr': Frames, tree: Tree, n: Node) {
    forall m | m in tree && m != n && tree[m] in fr :: tree[m] in fr' && fr'[tree[m]] == fr[tree[m]]
  }

  /** Frames differ, on the tree, at most in entry `i` of table `n`. */
  ghost predicate DiffersAt(fr: Frames, fr': Frames, tree: Tree, n: Node, i: nat)
    requires n in tree
  {
    && SameTables(fr, fr', tree, n)
    && IsTable(fr, tree[n]) && IsTable(fr', tree[n])
    && (forall j | 0 <= j < 512 && j != i :: fr'[tree[n]].entries[j] == fr[tree[n]].entries[j])
  }

  /** A walk that avoids the changed slot is unchanged. */
  lemma {:induction false} WalkAvoids(fr: Frames, fr': Frames, tree: Tree, root: nat, n: Node, i: nat, lvl: nat, q: nat)
    requires WellFormed(fr, tree, root)
    requires n in tree && i < 512 && DiffersAt(fr, fr', tree, n, i)
    requires 1 <= lvl <= 4 && q < 0x10_0000_0000 && NodeFor(lvl, q) in tree
    requires lvl < n.lvl || q / Span(n.lvl) != n.pre * 512 + i
    ensures Walk(fr', tree[NodeFor(lvl, q)], lvl, q) == Walk(fr, tree[NodeFor(lvl, q)], lvl, q)
    decreases lvl
  {
    var m := NodeFor(lvl, q);
    var k := Index(lvl, q);
    SlotSplit(lvl, q);
    assert HangsOff(fr, tree, m) && LinkOk(fr, tree, m, k);
    var e := fr[tree[m]].entries[k];
    assert fr'[tree[m]].entries[k] == e;
    if IsLink(lvl, e) {
      assert Child(m, k) == NodeFor(lvl - 1, q);
      assert HangsOff(fr, tree, NodeFor(lvl - 1, q));
      assert Parent(NodeFor(lvl - 1, q)) == m by { SlotSplit(lvl, q); }
      WalkAvoids(fr, fr', tree, root, n, i, lvl - 1, q);
    }
  }

  // ----- Replacing one entry -----

  /** The two entries link to the same table, or neither links to any. */
  predicate SameLink(lvl: nat, e: Entry, e': Entry) {
    IsLink(lvl, e') == IsLink(lvl, e) && (IsLink(lvl, e) ==> e'.frame == e.frame)
  }

  /** Entry `i` of table `n` may become `e'` without rewiring the tree. */
  ghost predicate CanSet(fr: Frames, tree: Tree, root: nat, n: Node, i: nat, e': Entry) {
    && WellFormed(fr, tree, root) && n in tree && i < 512
    && SameLink(n.lvl, fr[tree[n]].entries[i], e')
  }

  lemma SetKeepsNode(fr: Frames, tree: Tree, root: nat, n: Node, i: nat, e': Entry, m: Node)
    requires CanSet(fr, tree, root, n, i, e') && m in tree
    ensures HangsOff(SetEntry(fr, tree[n], i, e'), tree, m)
  {
    assert HangsOff(fr, tree, m);
    if m.lvl < 4 && Parent(m) != n {
      assert tree[Parent(m)] != tree[n];
    }
  }

  lemma SetKeepsLink(fr: Frames, tree: Tree, root: nat, n: Node, i: nat, e': Entry, m: Node, j: nat)
    requires CanSet(fr, tree, root, n, i, e') && m in tree && j < 512
    ensures HasTable(SetEntry(fr, tree[n], i, e'), tree, m)
    ensures LinkOk(SetEntry(fr, tree[n], i, e'), tree, m, j)
  {
    assert LinkOk(fr, tree, m, j);
    if m != n {
      assert tree[m] != tree[n];
    }
  }

  lemma SetKeepsTree(fr: Frames, tree: Tree, root: nat, n: Node, i: nat, e': Entry)
    requires CanSet(fr, tree, root, n, i, e')
    ensures WellFormed(SetEntry(fr, tree[n], i, e'), tree, root)
  {
    var fr' := SetEntry(fr, tree[n], i, e');
    forall m | m in tree ensures HangsOff(fr', tree, m) {
      SetKeepsNode(fr, tree, root, n, i, e', m);
    }
    forall m, j | m in tree && 0 <= j < 512 ensures HasTable(fr', tree, m) && LinkOk(fr', tree, m, j) {
      SetKeepsLink(fr, tree, root, n, i, e', m, j);
    }
  }

  /** What the entry replaced decides the pages below it, and no others. */
  lemma SetDecides(fr: Frames, tree: Tree, root: nat, n: Node, i: nat, e': Entry, q: nat)
    requires CanSet(fr, tree, root, n, i, e') && q < 0x10_0000_0000
    ensures var fr' := SetEntry(fr, tree[n], i, e');
            if q / Span(n.lvl) == n.pre * 512 + i
            then && Translate(fr', root, q) == Follow(fr', e', n.lvl, q)
                 && Translate(fr, root, q) == Follow(fr, fr[tree[n]].entries[i], n.lvl, q)
                 && NodeFor(n.lvl, q) == n && Index(n.lvl, q) == i
            else Translate(fr', root, q) == Translate(fr, root, q)
  {
    var fr' := SetEntry(fr, tree[n], i, e');
    if q / Span(n.lvl) == n.pre * 512 + i {
      SlotSplit(n.lvl, q);
      assert NodeFor(n.lvl, q) == n;
      SetKeepsTree(fr, tree, root, n, i, e');
      WalkReaches(fr, tree, root, n.lvl, q);
      WalkReaches(fr', tree, root, n.lvl, q);
    } else {
      assert NodeFor(4, q) == Node(4, 0);
      WalkAvoids(fr, fr', tree, root, n, i, 4, q);
    }
  }

  /** The two entries read the same to a walk. */
  predicate SameMeaning(lvl: nat, e: Entry, e': Entry) {
    && e'.frame == e.frame && e'.ps == e.ps && e'.Present() == e.Present()
    && (IsPage(lvl, e) ==> e'.attr == e.attr)
  }

  /** Replacing an entry by one that reads the same changes no translation. */
  lemma RefreshEntry(fr: Frames, tree: Tree, root: nat, n: Node, i: nat, e': Entry, q: nat)
    requires CanSet(fr, tree, root, n, i, e') && q < 0x10_0000_0000
    requires SameMeaning(n.lvl, fr[tree[n]].entries[i], e')
    ensures Translate(SetEntry(fr, tree[n], i, e'), root, q) == Translate(fr, root, q)
  {
    SetDecides(fr, tree, root, n, i, e', q);
    if q / Span(n.lvl) == n.pre * 512 + i && IsLink(n.lvl, e') {
      BelowUnchanged(fr, tree, root, n, i, e', q);
    }
  }

  lemma ChildServes(n: Node, i: nat, q: nat)
    requires 2 <= n.lvl <= 4 && i < 512 && q / Span(n.lvl) == n.pre * 512 + i
    ensures Child(n, i) == NodeFor(n.lvl - 1, q) && Parent(Child(n, i)) == n && Child(n, i).pre % 512 == i
  {
    DivUnique(n.pre * 512 + i, 512, n.pre, i);
  }

  /** Storing a link does not change the walk below it. */
  lemma BelowUnchanged(fr: Frames, tree: Tree, root: nat, n: Node, i: nat, e': Entry, q: nat)
    requires CanSet(fr, tree, root, n, i, e') && q < 0x10_0000_0000 && q / Span(n.lvl) == n.pre * 512 + i
    requires SameMeaning(n.lvl, fr[tree[n]].entries[i], e') && IsLink(n.lvl, e')
    ensures 2 <= n.lvl <= 4
    ensures Walk(SetEntry(fr, tree[n], i, e'), e'.frame, n.lvl - 1, q) == Walk(fr, e'.frame, n.lvl - 1, q)
  {
    assert LinkOk(fr, tree, n, i);
    ChildServes(n, i, q);
    assert HangsOff(fr, tree, Child(n, i));
    WalkAvoids(fr, SetEntry(fr, tree[n], i, e'), tree, root, n, i, n.lvl - 1, q);
  }

  // ----- Hanging a new table -----

  ghost predicate Unused(tree: Tree, f: nat) {
    forall m | m in tree :: tree[m] != f
  }

  /** A cleared table may be hung off entry `i` of `n`. */
  ghost predicate CanGrow(fr: Frames, tree: Tree, root: nat, n: Node, i: nat, f: nat, e': Entry) {
    && WellFormed(fr, tree, root) && n in tree && i < 512 && n.lvl > 1
    && !fr[tree[n]].entries[i].Present()
    && Unused(tree, f)
    && IsLink(n.lvl, e') && e'.frame == f
  }

  function Grow(fr: Frames, t: nat, i: nat, f: nat, e': Entry): Frames
    requires IsTable(fr, t) && f != t && i < 512
  {
    SetEntry(fr[f := ClearedTable()], t, i, e')
  }

  lemma ChildIsNew(fr: Frames, tree: Tree, root: nat, n: Node, i: nat)
    requires WellFormed(fr, tree, root) && n in tree && i < 512 && n.lvl > 1
    requires !fr[tree[n]].entries[i].Present()
    ensures Child(n, i) !in tree
    ensures Parent(Child(n, i)) == n && Child(n, i).pre % 512 == i
  {
    var c := Child(n, i);
    assert Parent(c) == n && c.pre % 512 == i;
    assert c in tree ==> HangsOff(fr, tree, c);
  }

  lemma GrowNodeOk(fr: Frames, tree: Tree, root: nat, n: Node, i: nat, f: nat, e': Entry, m: Node)
    requires CanGrow(fr, tree, root, n, i, f, e')
    requires m in tree || m == Child(n, i)
    ensures HangsOff(Grow(fr, tree[n], i, f, e'), tree[Child(n, i) := f], m)
  {
    ChildIsNew(fr, tree, root, n, i);
    if m in tree {
      assert HangsOff(fr, tree, m);
    }
  }

  lemma GrowLinkOk(fr: Frames, tree: Tree, root: nat, n: Node, i: nat, f: nat, e': Entry, m: Node, j: nat)
    requires CanGrow(fr, tree, root, n, i, f, e')
    requires (m in tree || m == Child(n, i)) && j < 512
    ensures var fr', tree' := Grow(fr, tree[n], i, f, e'), tree[Child(n, i) := f];
            HasTable(fr', tree', m) && LinkOk(fr', tree', m, j)
  {
    ChildIsNew(fr, tree, root, n, i);
    if m in tree {
      assert LinkOk(fr, tree, m, j);
      assert m != n ==> tree[m] != tree[n];
    }
  }

  /** Hanging a cleared table off a non-present entry keeps the tree well formed. */
  lemma GrowKeepsTree(fr: Frames, tree: Tree, root: nat, n: Node, i: nat, f: nat, e': Entry)
    requires CanGrow(fr, tree, root, n, i, f, e')
    ensures WellFormed(Grow(fr, tree[n], i, f, e'), tree[Child(n, i) := f], root)
  {
    var fr', tree' := Grow(fr, tree[n], i, f, e'), tree[Child(n, i) := f];
    ChildIsNew(fr, tree, root, n, i);
    GrowUnshared(tree, Child(n, i), f);
    forall m | m in tree' ensures HangsOff(fr', tree', m) {
      GrowNodeOk(fr, tree, root, n, i, f, e', m);
    }
    forall m, j | m in tree' && 0 <= j < 512 ensures HasTable(fr', tree', m) && LinkOk(fr', tree', m, j) {
      GrowLinkOk(fr, tree, root, n, i, f, e', m, j);
    }
    assert forall m | m in tree' :: HasTable(fr', tree', m) by {
      forall m | m in tree' ensures HasTable(fr', tree', m) {
        GrowLinkOk(fr, tree, root, n, i, f, e', m, 0);
      }
    }
  }

  lemma GrowUnshared(tree: Tree, c: Node, f: nat)
    requires c !in tree && Unused(tree, f) && forall a, b | a in tree && b in tree && tree[a] == tree[b] :: a == b
    ensures var tree' := tree[c := f];
            forall a, b | a in tree' && b in tree' && tree'[a] == tree'[b] :: a == b
  {
  }

  lemma GrowHere(fr: Frames, tree: Tree, root: nat, n: Node, i: nat, f: nat, e': Entry, q: nat)
    requires CanGrow(fr, tree, root, n, i, f, e') && q < 0x10_0000_0000 && q / Span(n.lvl) == n.pre * 512 + i
    ensures Translate(Grow(fr, tree[n], i, f, e'), root, q) == Translate(fr, root, q)
  {
    var fr', tree' := Grow(fr, tree[n], i, f, e'), tree[Child(n, i) := f];
    SlotSplit(n.lvl, q);
    assert NodeFor(n.lvl, q) == n && Index(n.lvl, q) == i;
    WalkReaches(fr, tree, root, n.lvl, q);
    WalkEnds(fr, tree[n], n.lvl, q);
    GrowKeepsTree(fr, tree, root, n, i, f, e');
    ChildIsNew(fr, tree, root, n, i);
    WalkReaches(fr', tree', root, n.lvl, q);
    WalkLinks(fr', tree[n], n.lvl, q);
    WalkEnds(fr', f, n.lvl - 1, q);
  }

  lemma WalkEnds(fr: Frames, t: nat, lvl: nat, q: nat)
    requires 1 <= lvl <= 4 && IsTable(fr, t) && !fr[t].entries[Index(lvl, q)].Present()
    ensures Walk(fr, t, lvl, q) == Unmapped
  {
  }

  lemma WalkLinks(fr: Frames, t: nat, lvl: nat, q: nat)
    requires 2 <= lvl <= 4 && IsTable(fr, t) && IsLink(lvl, fr[t].entries[Index(lvl, q)])
    ensures Walk(fr, t, lvl, q) == Walk(fr, fr[t].entries[Index(lvl, q)].frame, lvl - 1, q)
  {
  }

  /** Hanging a cleared table off a non-present entry changes no translation. */
  lemma GrowTable(fr: Frames, tree: Tree, root: nat, n: Node, i: nat, f: nat, e': Entry, q: nat)
    requires CanGrow(fr, tree, root, n, i, f, e') && q < 0x10_0000_0000
    ensures Translate(Grow(fr, tree[n], i, f, e'), root, q) == Translate(fr, root, q)
  {
    if q / Span(n.lvl) == n.pre * 512 + i {
      GrowHere(fr, tree, root, n, i, f, e', q);
    } else {
      assert NodeFor(4, q) == Node(4, 0);
      WalkAvoids(fr, Grow(fr, tree[n], i, f, e'), tree, root, n, i, 4, q);
    }
  }
}
