/** The object list in non-volatile memory: headers linked from a manager at the start of the
    region, written through a cache that may write any line back at any time. Only `CLFlush`
    guarantees that a line is durable, so the order of stores and flushes is what keeps the
    list intact across a crash. */
module PersistentObjects {
  import opened Basics

  // ----- Memory behind a write-back cache -----

  /** 64-bit words by byte address. */
  type Words = map<nat, nat>

  function Get(w: Words, a: nat): nat { if a in w then w[a] else 0 }

  /** What loads see, and what a crash leaves. */
  datatype Nvm = Nvm(cache: Words, durable: Words)

  datatype Op = Store(addr: nat, val: nat) | Flush(addr: nat) | Evict(line: nat)

  /** One 64-byte line of the cache becomes durable. */
  function WriteBack(m: Nvm, line: nat): Words {
    map a | a in m.cache.Keys + m.durable.Keys :: if a / 64 == line then Get(m.cache, a) else Get(m.durable, a)
  }

  function Exec(m: Nvm, op: Op): Nvm {
    match op
    case Store(addr, val) => m.(cache := m.cache[addr := val])
    case Flush(addr) => m.(durable := WriteBack(m, addr / 64))
    case Evict(line) => m.(durable := WriteBack(m, line))
  }

  function ExecAll(m: Nvm, ops: seq<Op>): Nvm
    decreases |ops|
  {
    if ops == [] then m else ExecAll(Exec(m, ops[0]), ops[1..])
  }

  // ----- The list -----

  const SIGNATURE: nat := 0x4F50_534F_6D75_696C
  const BAD_SIGNATURE: nat := 0xB0AF_ACB0_928A_9693

  /** The region starts with the manager object, at a page boundary. */
  datatype Region = Region(base: nat, pages: nat)
  {
    function Head(): nat { base + 16 }

    function Sentinel(): nat { base + 32 }
  }

  /** A header: its address, the object id, the number of pages of the object. */
  datatype Obj = Obj(hdr: nat, id: nat, pages: nat)
  {
    /** First page of the object: the header ends right before it. */
    function FirstPage(): nat { (hdr + 32) / 4096 }

    function EndPage(): nat { FirstPage() + pages }

    /** Where `AllocPages` puts the next header: at the end of the page behind this object. */
    function NextHdr(): nat { (EndPage() + 1) * 4096 - 32 }
  }

  predicate Follows(o: Obj, prev: Obj) {
    o.hdr == prev.NextHdr() && o.id == prev.id + 1
  }

  predicate FollowsAt(objs: seq<Obj>, i: nat)
    requires i + 1 < |objs|
  {
    Follows(objs[i], objs[i + 1])
  }

  /** Newest object first, the sentinel last; ids descend by one; all within the region. */
  ghost predicate Chain(r: Region, objs: seq<Obj>) {
    && r.base % 4096 == 0 && |objs| > 0
    && objs[|objs| - 1] == Obj(r.Sentinel(), 0, 0)
    && (forall i | 0 <= i < |objs| - 1 :: FollowsAt(objs, i))
    && objs[0].EndPage() <= r.base / 4096 + r.pages
  }

  function NextOf(objs: seq<Obj>, i: nat): nat { if i < |objs| then objs[i].hdr else 0 }

  /** The four words of a header. */
  predicate HeaderAt(w: Words, o: Obj, next: nat) {
    && Get(w, o.hdr) == SIGNATURE
    && Get(w, o.hdr + 8) == o.id
    && Get(w, o.hdr + 16) == o.pages
    && Get(w, o.hdr + 24) == next
  }

  ghost predicate HeaderOk(w: Words, objs: seq<Obj>, i: nat)
    requires i < |objs|
  {
    HeaderAt(w, objs[i], NextOf(objs, i + 1))
  }

  ghost predicate HeadersOk(w: Words, objs: seq<Obj>) {
    forall i | 0 <= i < |objs| :: HeaderOk(w, objs, i)
  }

  /** Following the links from the manager in memory `w` gives exactly `objs`. */
  ghost predicate Holds(w: Words, r: Region, objs: seq<Obj>) {
    Chain(r, objs) && Get(w, r.Head()) == objs[0].hdr && HeadersOk(w, objs)
  }

  // ----- Where headers and objects lie -----

  /** Headers further down the list lie in earlier pages. */
  lemma {:induction false} ChainDescends(r: Region, objs: seq<Obj>, i: nat, j: nat)
    requires Chain(r, objs) && i <= j < |objs|
    ensures objs[j].EndPage() <= objs[i].EndPage()
    ensures i < j ==> objs[j].EndPage() < objs[i].FirstPage()
    decreases j - i
  {
    if i < j {
      ChainDescends(r, objs, i + 1, j);
      assert FollowsAt(objs, i);
    }
  }

  lemma {:induction false} IdsDescend(r: Region, objs: seq<Obj>, i: nat)
    requires Chain(r, objs) && i < |objs|
    ensures objs[i].id == |objs| - 1 - i
    decreases |objs| - i
  {
    if i < |objs| - 1 {
      IdsDescend(r, objs, i + 1);
      assert FollowsAt(objs, i);
    }
  }

  /** An object is page aligned and inside the region, its header in front of it. */
  lemma ObjectInside(r: Region, objs: seq<Obj>, i: nat)
    requires Chain(r, objs) && i < |objs|
    ensures i < |objs| - 1 ==> (objs[i].hdr + 32) % 4096 == 0
    ensures r.base / 4096 <= objs[i].FirstPage() <= objs[i].EndPage() <= r.base / 4096 + r.pages
    ensures objs[i].hdr / 4096 <= objs[i].FirstPage()
    ensures !(objs[i].FirstPage() <= objs[i].hdr / 4096 < objs[i].EndPage())
  {
    ChainDescends(r, objs, 0, i);
    ChainDescends(r, objs, i, |objs| - 1);
    if i < |objs| - 1 { assert FollowsAt(objs, i); }
  }

  lemma EarlierApart(r: Region, objs: seq<Obj>, i: nat, j: nat)
    requires Chain(r, objs) && i < j < |objs|
    ensures objs[j].EndPage() < objs[i].FirstPage()
    ensures objs[j].EndPage() <= objs[i].hdr / 4096
  {
    ChainDescends(r, objs, i + 1, j);
    assert FollowsAt(objs, i);
  }

  /** Objects are page aligned, inside the region, apart from each other, and hold no header. */
  lemma ObjectsApart(r: Region, objs: seq<Obj>, i: nat, j: nat)
    requires Chain(r, objs) && i < |objs| && j < |objs| && i != j
    ensures i < |objs| - 1 ==> (objs[i].hdr + 32) % 4096 == 0
    ensures r.base / 4096 <= objs[i].FirstPage() <= objs[i].EndPage() <= r.base / 4096 + r.pages
    ensures objs[i].EndPage() <= objs[j].FirstPage() || objs[j].EndPage() <= objs[i].FirstPage()
    ensures !(objs[i].FirstPage() <= objs[j].hdr / 4096 < objs[i].EndPage())
    ensures !(objs[i].FirstPage() <= objs[i].hdr / 4096 < objs[i].EndPage())
  {
    ObjectInside(r, objs, i);
    ObjectInside(r, objs, j);
    if i < j {
      EarlierApart(r, objs, i, j);
    } else {
      EarlierApart(r, objs, j, i);
    }
  }

  // ----- One allocation, store by store -----

  /** `PersistentObjectHeader::Init`, `SetNext` and `SetHead` for a new object. */
  function AllocOps(r: Region, o: Obj, next: nat): (ops: seq<Op>)
    ensures |ops| == 11
  {
    [ Store(o.hdr, BAD_SIGNATURE), Flush(o.hdr),
      Store(o.hdr + 8, o.id), Store(o.hdr + 16, o.pages), Store(o.hdr + 24, 0),
      Store(o.hdr, SIGNATURE), Flush(o.hdr),
      Store(o.hdr + 24, next), Flush(o.hdr + 24),
      Store(r.Head(), o.hdr), Flush(r.Head()) ]
  }

  /** The object `AllocPages` is about to create, from what it reads through the cache. */
  function NewObj(w: Words, r: Region, n: nat): Obj {
    var h := Get(w, r.Head());
    var last := Obj(h, Get(w, h + 8), Get(w, h + 16));
    Obj(last.NextHdr(), last.id + 1, n)
  }

  datatype Phase = Idle | Busy(pc: nat, o: Obj, next: nat)

  /** Memory, the list as of the last completed allocation, and the allocation in progress. */
  datatype State = State(m: Nvm, objs: seq<Obj>, phase: Phase)

  /** Begin an allocation, execute its next store or flush, write a word of an object, lose a
      line to an eviction, or crash and restart from what is durable. */
  datatype Event = Begin(n: nat) | Next | Write(addr: nat, val: nat) | Spill(line: nat) | Crash

  /** The word lies in the pages of one of the objects. */
  predicate InObject(objs: seq<Obj>, addr: nat) {
    exists i | 0 <= i < |objs| :: objs[i].FirstPage() <= addr / 4096 < objs[i].EndPage()
  }

  function Apply(r: Region, s: State, e: Event): State {
    match e
    case Begin(n) =>
      var o := NewObj(s.m.cache, r, n);
      if s.phase.Idle? && o.EndPage() <= r.base / 4096 + r.pages
      then s.(phase := Busy(0, o, Get(s.m.cache, r.Head()))) else s
    case Next =>
      if s.phase.Busy? && s.phase.pc < 11 then
        var m := Exec(s.m, AllocOps(r, s.phase.o, s.phase.next)[s.phase.pc]);
        if s.phase.pc == 10 then State(m, [s.phase.o] + s.objs, Idle)
        else State(m, s.objs, s.phase.(pc := s.phase.pc + 1))
      else s
    case Write(addr, val) => if InObject(s.objs, addr) then s.(m := Exec(s.m, Store(addr, val))) else s
    case Spill(line) => s.(m := Exec(s.m, Evict(line)))
    case Crash =>
      var linked := s.phase.Busy? && Get(s.m.durable, r.Head()) == s.phase.o.hdr;
      State(Nvm(s.m.durable, s.m.durable), if linked then [s.phase.o] + s.objs else s.objs, Idle)
  }

  /** How much of the new header the cache holds after `pc` steps. */
  predicate Written(w: Words, o: Obj, next: nat, pc: nat) {
    && (pc >= 3 ==> Get(w, o.hdr + 8) == o.id)
    && (pc >= 4 ==> Get(w, o.hdr + 16) == o.pages)
    && (pc >= 6 ==> Get(w, o.hdr) == SIGNATURE)
    && (pc >= 8 ==> Get(w, o.hdr + 24) == next)
  }

  /** Before the head is stored, both memories hold the old list. Afterwards the cache holds
      the new one and the durable memory either, and the new header is durable. */
  ghost predicate BusyOk(r: Region, s: State, pc: nat, o: Obj, next: nat) {
    && pc <= 10 && Chain(r, s.objs) && Chain(r, [o] + s.objs) && next == s.objs[0].hdr
    && Written(s.m.cache, o, next, pc)
    && HeadersOk(s.m.cache, s.objs) && HeadersOk(s.m.durable, s.objs)
    && (pc >= 9 ==> HeaderAt(s.m.durable, o, next))
    && Get(s.m.cache, r.Head()) == (if pc < 10 then next else o.hdr)
    && (Get(s.m.durable, r.Head()) == next || (pc == 10 && Get(s.m.durable, r.Head()) == o.hdr))
  }

  ghost predicate Inv(r: Region, s: State) {
    match s.phase
    case Idle => Holds(s.m.cache, r, s.objs) && Holds(s.m.durable, r, s.objs)
    case Busy(pc, o, next) => BusyOk(r, s, pc, o, next)
  }

  /** A header that ends a page lies in one cache line, the last of its page. */
  lemma HeaderLine(r: Region, h: nat, page: nat)
    requires r.base % 4096 == 0 && h == (page + 1) * 4096 - 32 && h >= r.base
    ensures h / 64 == (h + 24) / 64 == page * 64 + 63 && r.Head() / 64 == r.base / 64 < h / 64
  {
    var line, first := page * 64 + 63, r.base / 4096;
    assert h == line * 64 + 32;
    DivUnique(h, 64, line, 32);
    DivUnique(h + 24, 64, line, 56);
    assert r.base == first * 4096 == first * 64 * 64;
    DivUnique(r.base, 64, first * 64, 0);
    DivUnique(r.Head(), 64, first * 64, r.Head() - r.base);
  }

  /** Words of the new header and of the manager's head lie outside every old header. */
  lemma NewHeaderApart(r: Region, objs: seq<Obj>, o: Obj, i: nat)
    requires Chain(r, objs) && Chain(r, [o] + objs) && i < |objs|
    ensures objs[i].hdr + 32 <= o.hdr
    ensures r.Head() + 8 <= objs[i].hdr && r.Head() + 8 <= o.hdr
    ensures o.hdr / 64 == (o.hdr + 24) / 64 && o.hdr / 64 != r.Head() / 64
  {
    var all := [o] + objs;
    assert all[i + 1] == objs[i] && all[0] == o && all[1] == objs[0];
    assert FollowsAt(all, 0);
    HeadersAscend(r, all, i + 1);
    HeadersAscend(r, objs, i);
    HeaderLine(r, o.hdr, objs[0].EndPage());
  }

  /** Headers further down the list lie at lower addresses, and all behind the manager's head. */
  lemma HeadersAscend(r: Region, objs: seq<Obj>, i: nat)
    requires Chain(r, objs) && i < |objs|
    ensures i > 0 ==> objs[i].hdr + 32 <= objs[0].hdr
    ensures r.Head() + 8 <= objs[i].hdr
  {
    ChainDescends(r, objs, 0, i);
    ChainDescends(r, objs, i, |objs| - 1);
    assert i < |objs| - 1 ==> FollowsAt(objs, i);
    assert i > 0 ==> FollowsAt(objs, 0);
  }

  /** A store outside the headers leaves them in place. */
  lemma StoreKeepsHeaders(w: Words, objs: seq<Obj>, a: nat, v: nat)
    requires HeadersOk(w, objs)
    requires forall i | 0 <= i < |objs| :: a < objs[i].hdr || a >= objs[i].hdr + 32
    ensures HeadersOk(w[a := v], objs)
  {
    var w' := w[a := v];
    forall i | 0 <= i < |objs| ensures HeaderOk(w', objs, i) {
      assert HeaderOk(w, objs, i);
    }
  }

  lemma WriteBackKeepsHeaders(m: Nvm, objs: seq<Obj>, line: nat)
    requires HeadersOk(m.cache, objs) && HeadersOk(m.durable, objs)
    ensures HeadersOk(WriteBack(m, line), objs)
  {
    forall i | 0 <= i < |objs| ensures HeaderOk(WriteBack(m, line), objs, i) {
      assert HeaderOk(m.cache, objs, i) && HeaderOk(m.durable, objs, i);
    }
  }

  lemma Prepended(w: Words, r: Region, o: Obj, objs: seq<Obj>)
    requires Chain(r, objs) && Chain(r, [o] + objs)
    requires HeadersOk(w, objs) && HeaderAt(w, o, objs[0].hdr) && Get(w, r.Head()) == o.hdr
    ensures Holds(w, r, [o] + objs)
  {
    var all := [o] + objs;
    forall i | 0 <= i < |all| ensures HeaderOk(w, all, i) {
      assert NextOf(all, i + 1) == NextOf(objs, i);
      assert i > 0 ==> HeaderOk(w, objs, i - 1);
    }
  }

  lemma BeginOk(r: Region, s: State, n: nat)
    requires Inv(r, s)
    ensures Inv(r, Apply(r, s, Begin(n)))
  {
    var o := NewObj(s.m.cache, r, n);
    if s.phase.Idle? && o.EndPage() <= r.base / 4096 + r.pages {
      assert HeaderOk(s.m.cache, s.objs, 0);
      var all := [o] + s.objs;
      forall i | 0 <= i < |all| - 1 ensures FollowsAt(all, i) {
        assert i > 0 ==> FollowsAt(s.objs, i - 1);
      }
    }
  }

  /** Words of an object lie outside every header, the one being written included, and are not
      the manager's head. */
  lemma ObjectApartFromHeader(r: Region, objs: seq<Obj>, j: nat, i: nat, addr: nat)
    requires Chain(r, objs) && i < |objs| && j < |objs|
    requires objs[j].FirstPage() <= addr / 4096 < objs[j].EndPage()
    ensures addr < objs[i].hdr || addr >= objs[i].hdr + 32
    ensures addr > r.Head()
  {
    var last := |objs| - 1;
    if i == last {
      ChainDescends(r, objs, j, last);
    } else {
      assert FollowsAt(objs, i);
      if i != j {
        ObjectsApart(r, objs, j, i);
      }
    }
    assert j < last ==> FollowsAt(objs, j);
    ChainDescends(r, objs, j, last);
  }

  lemma WriteApart(r: Region, objs: seq<Obj>, addr: nat)
    requires Chain(r, objs) && InObject(objs, addr)
    ensures addr > r.Head() && forall i | 0 <= i < |objs| :: addr < objs[i].hdr || addr >= objs[i].hdr + 32
  {
    var j :| 0 <= j < |objs| && objs[j].FirstPage() <= addr / 4096 < objs[j].EndPage();
    forall i | 0 <= i < |objs| ensures addr < objs[i].hdr || addr >= objs[i].hdr + 32 {
      ObjectApartFromHeader(r, objs, j, i, addr);
    }
    ObjectApartFromHeader(r, objs, j, 0, addr);
  }

  lemma WriteOk(r: Region, s: State, addr: nat, val: nat)
    requires Inv(r, s)
    ensures Inv(r, Apply(r, s, Write(addr, val)))
  {
    if InObject(s.objs, addr) {
      WriteApart(r, s.objs, addr);
      StoreKeepsHeaders(s.m.cache, s.objs, addr, val);
      if s.phase.Busy? {
        var all := [s.phase.o] + s.objs;
        var j :| 0 <= j < |s.objs| && s.objs[j].FirstPage() <= addr / 4096 < s.objs[j].EndPage();
        assert all[j + 1] == s.objs[j] && all[0] == s.phase.o;
        ObjectApartFromHeader(r, all, j + 1, 0, addr);
      }
    }
  }

  lemma SpillOk(r: Region, s: State, line: nat)
    requires Inv(r, s)
    ensures Inv(r, Apply(r, s, Spill(line)))
  {
    WriteBackKeepsHeaders(s.m, s.objs, line);
  }

  lemma NextOk(r: Region, s: State)
    requires Inv(r, s)
    ensures Inv(r, Apply(r, s, Next))
  {
    if s.phase.Busy? {
      var pc, o, next := s.phase.pc, s.phase.o, s.phase.next;
      var op := AllocOps(r, o, next)[pc];
      forall i | 0 <= i < |s.objs|
        ensures s.objs[i].hdr + 32 <= o.hdr && r.Head() + 8 <= s.objs[i].hdr
      {
        NewHeaderApart(r, s.objs, o, i);
      }
      NewHeaderApart(r, s.objs, o, 0);
      match op
      case Store(a, v) =>
        StoreKeepsHeaders(s.m.cache, s.objs, a, v);
      case Flush(a) =>
        WriteBackKeepsHeaders(s.m, s.objs, a / 64);
        if pc == 10 {
          Prepended(s.m.cache, r, o, s.objs);
          Prepended(WriteBack(s.m, a / 64), r, o, s.objs);
        }
    }
  }

  lemma CrashOk(r: Region, s: State)
    requires Inv(r, s)
    ensures Inv(r, Apply(r, s, Crash))
  {
    if s.phase.Busy? && Get(s.m.durable, r.Head()) == s.phase.o.hdr {
      NewHeaderApart(r, s.objs, s.phase.o, 0);
      Prepended(s.m.durable, r, s.phase.o, s.objs);
    }
  }

  // ----- Whole runs -----

  function Run(r: Region, s: State, es: seq<Event>): State
    decreases |es|
  {
    if es == [] then s else Run(r, Apply(r, s, es[0]), es[1..])
  }

  /** `a` is what `b` was before some objects were put in front. */
  predicate IsSuffix(a: seq<Obj>, b: seq<Obj>) {
    |a| <= |b| && b[|b| - |a|..] == a
  }

  lemma SuffixTrans(a: seq<Obj>, b: seq<Obj>, c: seq<Obj>)
    requires IsSuffix(a, b) && IsSuffix(b, c)
    ensures IsSuffix(a, c)
  {
    assert c[|c| - |a|..] == c[|c| - |b|..][|b| - |a|..];
  }

  lemma StepOk(r: Region, s: State, e: Event)
    requires Inv(r, s)
    ensures Inv(r, Apply(r, s, e)) && IsSuffix(s.objs, Apply(r, s, e).objs)
  {
    match e {
      case Begin(n) => BeginOk(r, s, n);
      case Next => NextOk(r, s);
      case Write(addr, val) => WriteOk(r, s, addr, val);
      case Spill(line) => SpillOk(r, s, line);
      case Crash => CrashOk(r, s);
    }
  }

  lemma {:induction false} RunOk(r: Region, s: State, es: seq<Event>)
    requires Inv(r, s)
    ensures Inv(r, Run(r, s, es)) && IsSuffix(s.objs, Run(r, s, es).objs)
    decreases |es|
  {
    if es != [] {
      var u := Apply(r, s, es[0]);
      StepOk(r, s, es[0]);
      RunOk(r, u, es[1..]);
      SuffixTrans(s.objs, u.objs, Run(r, u, es[1..]).objs);
    }
  }

  /** Failure atomicity. Whatever the program, the evictions and earlier crashes did, the
      durable memory holds the list before the allocation in progress or the list after it,
      and no completed allocation is ever lost. */
  lemma FailureAtomic(r: Region, m: Nvm, objs: seq<Obj>, es: seq<Event>)
    requires Holds(m.cache, r, objs) && Holds(m.durable, r, objs)
    ensures var t := Run(r, State(m, objs, Idle), es);
            && IsSuffix(objs, t.objs)
            && match t.phase
               case Idle => Holds(t.m.durable, r, t.objs)
               case Busy(_, o, _) => Holds(t.m.durable, r, t.objs) || Holds(t.m.durable, r, [o] + t.objs)
  {
    RunOk(r, State(m, objs, Idle), es);
    var t := Run(r, State(m, objs, Idle), es);
    if t.phase.Busy? && Get(t.m.durable, r.Head()) == t.phase.o.hdr {
      NewHeaderApart(r, t.objs, t.phase.o, 0);
      Prepended(t.m.durable, r, t.phase.o, t.objs);
    }
  }

  /** A memory image holds at most one list: recovery has no choice. */
  lemma {:induction false} ListDetermined(w: Words, r: Region, a: seq<Obj>, b: seq<Obj>, k: nat)
    requires Holds(w, r, a) && Holds(w, r, b) && k <= |a| && k <= |b|
    ensures a[..k] == b[..k] && (k < |a| && k < |b| ==> a[k].hdr == b[k].hdr)
    decreases k
  {
    if k > 0 {
      ListDetermined(w, r, a, b, k - 1);
      assert HeaderOk(w, a, k - 1) && HeaderOk(w, b, k - 1);
      assert a[..k] == a[..k - 1] + [a[k - 1]] && b[..k] == b[..k - 1] + [b[k - 1]];
    }
  }

  lemma RecoveryUnique(w: Words, r: Region, a: seq<Obj>, b: seq<Obj>)
    requires Holds(w, r, a) && Holds(w, r, b)
    ensures a == b
  {
    var k := if |a| <= |b| then |a| else |b|;
    ListDetermined(w, r, a, b, k - 1);
    assert HeaderOk(w, a, k - 1) && HeaderOk(w, b, k - 1);
    IdsDescend(r, a, k - 1);
    IdsDescend(r, b, k - 1);
    ListDetermined(w, r, a, b, k);
  }

  // ----- The program -----

  lemma {:induction false} ExecSnoc(m: Nvm, ops: seq<Op>, op: Op)
    ensures ExecAll(m, ops + [op]) == Exec(ExecAll(m, ops), op)
    decreases |ops|
  {
    if ops == [] {
      assert ops + [op] == [op];
    } else {
      assert (ops + [op])[1..] == ops[1..] + [op];
      ExecSnoc(Exec(m, ops[0]), ops[1..], op);
    }
  }

  /** The manager's code. The log records its stores and flushes in program order. */
  class PersistentMemoryManager {
    var nvm: Nvm
    const region: Region
    ghost const start: Nvm
    ghost var log: seq<Op>

    ghost predicate Valid()
      reads this
    {
      nvm == ExecAll(start, log)
    }

    constructor (region: Region, nvm: Nvm)
      ensures Valid() && this.region == region && this.nvm == nvm && log == []
    {
      this.region := region;
      this.nvm := nvm;
      start := nvm;
      log := [];
    }

    method StoreWord(a: nat, v: nat)
      requires Valid()
      modifies this
      ensures Valid() && nvm == Exec(old(nvm), Store(a, v)) && log == old(log) + [Store(a, v)]
    {
      ExecSnoc(start, log, Store(a, v));
      nvm := Exec(nvm, Store(a, v));
      log := log + [Store(a, v)];
    }

    method ClFlush(a: nat)
      requires Valid()
      modifies this
      ensures Valid() && nvm == Exec(old(nvm), Flush(a)) && log == old(log) + [Flush(a)]
    {
      ExecSnoc(start, log, Flush(a));
      nvm := Exec(nvm, Flush(a));
      log := log + [Flush(a)];
    }

    /** The stores of `PersistentObjectHeader::Init` between its two flushes. */
    method StoreFields(h: nat, id: nat, pages: nat)
      requires Valid()
      modifies this
      ensures Valid()
      ensures h > region.Head() ==> Get(nvm.cache, region.Head()) == Get(old(nvm).cache, region.Head())
      ensures log == old(log) + [Store(h + 8, id), Store(h + 16, pages), Store(h + 24, 0), Store(h, SIGNATURE)]
    {
      StoreWord(h + 8, id);
      StoreWord(h + 16, pages);
      StoreWord(h + 24, 0);
      StoreWord(h, SIGNATURE);
    }

    /** `PersistentObjectHeader::Init`. */
    method InitHeader(h: nat, id: nat, pages: nat)
      requires Valid()
      modifies this
      ensures Valid()
      ensures h > region.Head() ==> Get(nvm.cache, region.Head()) == Get(old(nvm).cache, region.Head())
      ensures log == old(log) + [ Store(h, BAD_SIGNATURE), Flush(h), Store(h + 8, id), Store(h + 16, pages),
                                  Store(h + 24, 0), Store(h, SIGNATURE), Flush(h) ]
    {
      StoreWord(h, BAD_SIGNATURE);
      ClFlush(h);
      StoreFields(h, id, pages);
      ClFlush(h);
    }

    /** `PersistentObjectHeader::SetNext`. */
    method SetNext(h: nat, next: nat)
      requires Valid()
      modifies this
      ensures Valid() && log == old(log) + [Store(h + 24, next), Flush(h + 24)]
    {
      StoreWord(h + 24, next);
      ClFlush(h + 24);
    }

    method SetHead(h: nat)
      requires Valid()
      modifies this
      ensures Valid() && log == old(log) + [Store(region.Head(), h), Flush(region.Head())]
    {
      StoreWord(region.Head(), h);
      ClFlush(region.Head());
    }

    /** The three calls that make a header and link it in front of the list. */
    method LinkObject(h: nat, id: nat, pages: nat)
      requires Valid() && h > region.Head()
      modifies this
      ensures Valid()
      ensures log == old(log) + AllocOps(region, Obj(h, id, pages), old(Get(nvm.cache, region.Head())))
    {
      InitHeader(h, id, pages);
      SetNext(h, Get(nvm.cache, region.Head()));
      SetHead(h);
    }

    /** The rest of `AllocPages`, once the place of the header is known and there is room. */
    method AllocAt(h: nat, id: nat, n: nat, ghost objs: seq<Obj>) returns (base: nat)
      requires Valid() && Holds(nvm.cache, region, objs) && Holds(nvm.durable, region, objs)
      requires h == objs[0].NextHdr() > region.Head() && id == objs[0].id + 1
      requires Obj(h, id, n).EndPage() <= region.base / 4096 + region.pages
      modifies this
      ensures Valid() && log == old(log) + AllocOps(region, Obj(h, id, n), objs[0].hdr)
      ensures Holds(nvm.cache, region, [Obj(h, id, n)] + objs) && Holds(nvm.durable, region, [Obj(h, id, n)] + objs)
      ensures base == Obj(h, id, n).FirstPage() * 4096
    {
      ghost var log0 := log;
      LinkObject(h, id, n);
      AllocDone(region, start, log0, objs, n);
      base := (h + 32) / 4096 * 4096;
    }

    /** `AllocPages`, `None` when its capacity assertion fails. The stores and flushes it
        issues are those of the step machine, so everything proved there is about it. */
    method AllocPages(n: nat, ghost objs: seq<Obj>) returns (r: Option<nat>)
      requires Valid() && Holds(nvm.cache, region, objs) && Holds(nvm.durable, region, objs)
      modifies this
      ensures Valid()
      ensures var o := Obj(objs[0].NextHdr(), objs[0].id + 1, n);
              if o.EndPage() > region.base / 4096 + region.pages then r.None? && log == old(log) && nvm == old(nvm)
              else && r == Some(o.FirstPage() * 4096)
                   && log == old(log) + AllocOps(region, o, objs[0].hdr)
                   && Holds(nvm.cache, region, [o] + objs) && Holds(nvm.durable, region, [o] + objs)
    {
      Placement(nvm.cache, region, objs, n);
      var head := Get(nvm.cache, region.Head());
      var nextPage := (head + 32) / 4096 + Get(nvm.cache, head + 16);
      if n + 1 + nextPage > region.base / 4096 + region.pages {
        return None;
      }
      var h := (nextPage + 1) * 4096 - 32;
      var base := AllocAt(h, Get(nvm.cache, head + 8) + 1, n, objs);
      return Some(base);
    }
  }

  /** The operations of an allocation, whatever came before, take the old list to the new one. */
  lemma AllocDone(r: Region, start: Nvm, log: seq<Op>, objs: seq<Obj>, n: nat)
    requires var m := ExecAll(start, log); Holds(m.cache, r, objs) && Holds(m.durable, r, objs)
    requires Obj(objs[0].NextHdr(), objs[0].id + 1, n).EndPage() <= r.base / 4096 + r.pages
    ensures var o := Obj(objs[0].NextHdr(), objs[0].id + 1, n);
            var m := ExecAll(start, log + AllocOps(r, o, objs[0].hdr));
            Holds(m.cache, r, [o] + objs) && Holds(m.durable, r, [o] + objs)
  {
    var o := Obj(objs[0].NextHdr(), objs[0].id + 1, n);
    ExecConcat(start, log, AllocOps(r, o, objs[0].hdr));
    AllocIsRun(r, ExecAll(start, log), objs, n);
  }

  /** The object at `base` with `n` pages stands in memory right behind `prev`: the four words of its
      header in front of it, and the manager's head word leading there. */
  predicate Linked(w: Words, r: Region, prev: Obj, n: nat, base: nat) {
    && base >= 32 && Get(w, base - 32) == 0x4F50_534F_6D75_696C && Get(w, base - 24) == prev.id + 1
    && Get(w, base - 16) == n && Get(w, base - 8) == prev.hdr && Get(w, r.base + 16) == base - 32
  }

  /** Where `AllocPages` puts the new object, in addresses and words: `pages + 1` pages behind the
      start of the newest one, which must leave room for it, its header in the page in between. */
  lemma AllocatedWords(w: Words, r: Region, objs: seq<Obj>, n: nat)
    requires objs != [] && Holds(w, r, [Obj(objs[0].NextHdr(), objs[0].id + 1, n)] + objs)
    ensures var o, base := Obj(objs[0].NextHdr(), objs[0].id + 1, n), ((objs[0].hdr + 32) / 4096 + objs[0].pages + 1) * 4096;
            && o.FirstPage() * 4096 == base && o.EndPage() * 4096 == base + n * 4096
            && Linked(w, r, objs[0], n, base)
  {
    var o := Obj(objs[0].NextHdr(), objs[0].id + 1, n);
    DivUnique(o.hdr + 32, 4096, objs[0].EndPage() + 1, 0);
    assert HeaderOk(w, [o] + objs, 0);
    assert ([o] + objs)[1] == objs[0];
  }

  /** What `AllocPages` reads and where the new object goes. */
  lemma Placement(w: Words, r: Region, objs: seq<Obj>, n: nat)
    requires Holds(w, r, objs)
    ensures var head, o := Get(w, r.Head()), Obj(objs[0].NextHdr(), objs[0].id + 1, n);
            && head == objs[0].hdr && (head + 32) / 4096 + Get(w, head + 16) == objs[0].EndPage()
            && Get(w, head + 8) == objs[0].id && NewObj(w, r, n) == o
            && o.hdr == (objs[0].EndPage() + 1) * 4096 - 32 > r.Head() && o.EndPage() == n + 1 + objs[0].EndPage()
            && (o.hdr + 32) / 4096 * 4096 == o.FirstPage() * 4096
  {
    assert HeaderOk(w, objs, 0);
    ChainDescends(r, objs, 0, |objs| - 1);
  }

  lemma {:induction false} ExecConcat(m: Nvm, xs: seq<Op>, ys: seq<Op>)
    ensures ExecAll(m, xs + ys) == ExecAll(ExecAll(m, xs), ys)
    decreases |ys|
  {
    if ys == [] {
      assert xs + ys == xs;
    } else {
      assert xs + ys == (xs + [ys[0]]) + ys[1..];
      ExecConcat(m, xs + [ys[0]], ys[1..]);
      ExecSnoc(m, xs, ys[0]);
    }
  }

  /** `k` steps of the machine execute `k` operations of the program. */
  lemma {:induction false} NextRuns(r: Region, s: State, k: nat)
    requires s.phase.Busy? && s.phase.pc == 0 && k <= 10
    ensures var t := Run(r, s, seq(k, i => Next));
            && t.m == ExecAll(s.m, AllocOps(r, s.phase.o, s.phase.next)[..k])
            && t.objs == s.objs && t.phase == s.phase.(pc := k)
    decreases k
  {
    var ops := AllocOps(r, s.phase.o, s.phase.next);
    if k > 0 {
      NextRuns(r, s, k - 1);
      assert seq(k, i => Next) == seq(k - 1, i => Next) + [Next];
      RunSnoc(r, s, seq(k - 1, i => Next), Next);
      assert ops[..k] == ops[..k - 1] + [ops[k - 1]];
      ExecSnoc(s.m, ops[..k - 1], ops[k - 1]);
    }
  }

  lemma {:induction false} RunSnoc(r: Region, s: State, es: seq<Event>, e: Event)
    ensures Run(r, s, es + [e]) == Apply(r, Run(r, s, es), e)
    decreases |es|
  {
    if es == [] {
      assert es + [e] == [e];
    } else {
      assert (es + [e])[1..] == es[1..] + [e];
      RunSnoc(r, Apply(r, s, es[0]), es[1..], e);
    }
  }

  /** Without evictions or crashes, the program takes the old list to the new one. */
  lemma AllocIsRun(r: Region, m: Nvm, objs: seq<Obj>, n: nat)
    requires Holds(m.cache, r, objs) && Holds(m.durable, r, objs)
    requires Obj(objs[0].NextHdr(), objs[0].id + 1, n).EndPage() <= r.base / 4096 + r.pages
    ensures var o := Obj(objs[0].NextHdr(), objs[0].id + 1, n);
            var m' := ExecAll(m, AllocOps(r, o, objs[0].hdr));
            && Chain(r, [o] + objs)
            && Holds(m'.cache, r, [o] + objs) && Holds(m'.durable, r, [o] + objs)
  {
    var o := Obj(objs[0].NextHdr(), objs[0].id + 1, n);
    BeginState(r, m, objs, n);
    StepsFinish(r, State(m, objs, Busy(0, o, objs[0].hdr)));
  }

  lemma BeginState(r: Region, m: Nvm, objs: seq<Obj>, n: nat)
    requires Holds(m.cache, r, objs) && Holds(m.durable, r, objs)
    requires Obj(objs[0].NextHdr(), objs[0].id + 1, n).EndPage() <= r.base / 4096 + r.pages
    ensures var o := Obj(objs[0].NextHdr(), objs[0].id + 1, n);
            Inv(r, State(m, objs, Busy(0, o, objs[0].hdr)))
  {
    Placement(m.cache, r, objs, n);
    BeginOk(r, State(m, objs, Idle), n);
  }

  lemma StepsFinish(r: Region, b: State)
    requires Inv(r, b) && b.phase.Busy? && b.phase.pc == 0
    ensures var m' := ExecAll(b.m, AllocOps(r, b.phase.o, b.phase.next));
            Holds(m'.cache, r, [b.phase.o] + b.objs) && Holds(m'.durable, r, [b.phase.o] + b.objs)
  {
    var ops := AllocOps(r, b.phase.o, b.phase.next);
    NextRuns(r, b, 10);
    var t := Run(r, b, seq(10, i => Next));
    RunOk(r, b, seq(10, i => Next));
    NextOk(r, t);
    assert Apply(r, t, Next) == State(Exec(t.m, ops[10]), [b.phase.o] + b.objs, Idle);
    assert ops == ops[..10] + [ops[10]];
    ExecSnoc(b.m, ops[..10], ops[10]);
  }
}
