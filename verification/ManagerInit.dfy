/** Setting up the manager of the persistent region: the same cache, and the question what a
    crash in the middle leaves. */
module ManagerInit {
  import opened Basics
  import opened PersistentObjects

  const MANAGER_SIGNATURE: nat := 0x4D50_534F_6D75_696C
  const BAD_MANAGER_SIGNATURE: nat := 0xB2AF_ACB0_928A_9693

  /** `PersistentMemoryManager::IsValid`: what the kernel looks at after a restart. */
  predicate IsValid(w: Words, r: Region) {
    Get(w, r.base + 64) == MANAGER_SIGNATURE && Get(w, r.Head()) != 0
  }

  function SentinelObj(r: Region): Obj { Obj(r.Sentinel(), 0, 0) }

  /** `PersistentMemoryManager::Init`, store by store. The manager fills one cache line and the
      signature starts the next. */
  function InitOps(r: Region): (ops: seq<Op>)
    ensures |ops| == 17
  {
    var s := r.Sentinel();
    [ Store(r.base + 64, BAD_MANAGER_SIGNATURE),
      Store(r.base, r.base / 4096), Store(r.base + 8, r.pages), Store(r.Head(), 0), Store(r.base + 24, 0),
      Store(r.base + 64, MANAGER_SIGNATURE), Flush(r.base), Flush(r.base + 64),
      Store(s, BAD_SIGNATURE), Flush(s), Store(s + 8, 0), Store(s + 16, 0), Store(s + 24, 0),
      Store(s, SIGNATURE), Flush(s),
      Store(r.Head(), s), Flush(r.Head()) ]
  }

  datatype InitState = InitState(m: Nvm, pc: nat)

  datatype InitEvent = Do | WriteOut(line: nat)

  function Step(r: Region, s: InitState, e: InitEvent): InitState {
    match e
    case Do => if s.pc < 17 then InitState(Exec(s.m, InitOps(r)[s.pc]), s.pc + 1) else s
    case WriteOut(line) => s.(m := Exec(s.m, Evict(line)))
  }

  function Steps(r: Region, s: InitState, es: seq<InitEvent>): InitState {
    if es == [] then s else Step(r, Steps(r, s, es[..|es| - 1]), es[|es| - 1])
  }

  /** The machine starts after a boot: what loads see is what was durable. */
  function Booted(w: Words): InitState { InitState(Nvm(w, w), 0) }

  // ----- Which words matter -----

  ghost predicate SameOutside(w: Words, w0: Words, r: Region) {
    forall a: nat | !(r.base <= a < r.base + 128) :: Get(w, a) == Get(w0, a)
  }

  /** The manager's words that the list depends on. */
  predicate SameList(w: Words, w0: Words, r: Region) {
    && Get(w, r.Head()) == Get(w0, r.Head())
    && Get(w, r.Sentinel()) == Get(w0, r.Sentinel())
    && Get(w, r.Sentinel() + 8) == Get(w0, r.Sentinel() + 8)
    && Get(w, r.Sentinel() + 16) == Get(w0, r.Sentinel() + 16)
    && Get(w, r.Sentinel() + 24) == Get(w0, r.Sentinel() + 24)
  }

  /** Headers other than the sentinel lie behind the manager's lines. */
  lemma HeadersBehind(r: Region, objs: seq<Obj>, i: nat)
    requires Chain(r, objs) && i < |objs| - 1
    ensures objs[i].hdr >= r.base + 128
  {
    assert FollowsAt(objs, i);
    ChainDescends(r, objs, i + 1, |objs| - 1);
  }

  lemma HoldsTransfers(w: Words, w0: Words, r: Region, objs: seq<Obj>)
    requires SameOutside(w, w0, r) && SameList(w, w0, r) && Holds(w0, r, objs)
    ensures Holds(w, r, objs)
  {
    forall i | 0 <= i < |objs| ensures HeaderOk(w, objs, i) {
      assert HeaderOk(w0, objs, i);
      if i < |objs| - 1 {
        HeadersBehind(r, objs, i);
      }
    }
  }

  lemma EmptyHolds(w: Words, r: Region)
    requires r.base % 4096 == 0 && Get(w, r.Head()) == r.Sentinel() && HeaderAt(w, SentinelObj(r), 0)
    ensures Holds(w, r, [SentinelObj(r)])
  {
    assert HeaderOk(w, [SentinelObj(r)], 0);
  }

  // ----- The invariant -----

  /** What the cache holds once `pc` operations have been made. */
  predicate CacheOk(w: Words, w0: Words, r: Region, pc: nat) {
    && (pc <= 3 ==> SameList(w, w0, r))
    && (3 < pc <= 15 ==> Get(w, r.Head()) == 0)
    && (pc >= 6 ==> Get(w, r.base + 64) == MANAGER_SIGNATURE)
    && (pc >= 11 ==> Get(w, r.Sentinel() + 8) == 0)
    && (pc >= 12 ==> Get(w, r.Sentinel() + 16) == 0)
    && (pc >= 13 ==> Get(w, r.Sentinel() + 24) == 0)
    && (pc >= 14 ==> Get(w, r.Sentinel()) == SIGNATURE)
    && (pc >= 16 ==> Get(w, r.Head()) == r.Sentinel())
  }

  /** The durable list words are the old ones, or lead nowhere, or are the new ones. */
  predicate DurableOk(w: Words, w0: Words, r: Region, pc: nat) {
    && ( || (pc <= 6 && SameList(w, w0, r))
         || (pc <= 16 && Get(w, r.Head()) == 0)
         || (pc >= 16 && Get(w, r.Head()) == r.Sentinel() && HeaderAt(w, SentinelObj(r), 0)))
    && (pc >= 8 ==> Get(w, r.base + 64) == MANAGER_SIGNATURE)
  }

  ghost predicate Inv(r: Region, w0: Words, s: InitState) {
    && r.base % 4096 == 0 && s.pc <= 17
    && SameOutside(s.m.cache, w0, r) && SameOutside(s.m.durable, w0, r)
    && CacheOk(s.m.cache, w0, r, s.pc) && DurableOk(s.m.durable, w0, r, s.pc)
  }

  lemma WriteBackWord(m: Nvm, line: nat, a: nat)
    ensures Get(WriteBack(m, line), a) == if a / 64 == line then Get(m.cache, a) else Get(m.durable, a)
  {
  }

  lemma FirstLine(r: Region, k: nat)
    requires r.base % 4096 == 0 && k < 64
    ensures (r.base + k) / 64 == r.base / 64 && (r.base + 64) / 64 == r.base / 64 + 1
  {
    var first := r.base / 4096;
    assert r.base == first * 4096 == first * 64 * 64;
    DivUnique(r.base, 64, first * 64, 0);
    DivUnique(r.base + k, 64, first * 64, k);
    DivUnique(r.base + 64, 64, first * 64 + 1, 0);
  }

  /** A word of the manager's first line is written back with that line. */
  lemma WriteBackFirst(m: Nvm, r: Region, line: nat, k: nat)
    requires r.base % 4096 == 0 && k < 64
    ensures var from := if line == r.base / 64 then m.cache else m.durable;
            Get(WriteBack(m, line), r.base + k) == Get(from, r.base + k)
  {
    FirstLine(r, k);
    WriteBackWord(m, line, r.base + k);
  }

  /** Writing back a line takes the list words, or the signature, or neither. */
  lemma WriteBackManager(m: Nvm, r: Region, line: nat)
    requires r.base % 4096 == 0
    ensures var w := WriteBack(m, line);
            && (if line == r.base / 64 then SameList(w, m.cache, r) else SameList(w, m.durable, r))
            && Get(w, r.base + 64) == Get(if line == r.base / 64 + 1 then m.cache else m.durable, r.base + 64)
  {
    WriteBackFirst(m, r, line, 16);
    WriteBackFirst(m, r, line, 32);
    WriteBackFirst(m, r, line, 40);
    WriteBackFirst(m, r, line, 48);
    WriteBackFirst(m, r, line, 56);
    FirstLine(r, 0);
    WriteBackWord(m, line, r.base + 64);
  }

  lemma WriteBackOutside(m: Nvm, w0: Words, r: Region, line: nat)
    requires SameOutside(m.cache, w0, r) && SameOutside(m.durable, w0, r)
    ensures SameOutside(WriteBack(m, line), w0, r)
  {
    forall a: nat | !(r.base <= a < r.base + 128) ensures Get(WriteBack(m, line), a) == Get(w0, a) {
      WriteBackWord(m, line, a);
    }
  }

  lemma SpillInv(r: Region, w0: Words, s: InitState, line: nat)
    requires Inv(r, w0, s)
    ensures Inv(r, w0, s.(m := Exec(s.m, Evict(line))))
  {
    WriteBackManager(s.m, r, line);
    WriteBackOutside(s.m, w0, r, line);
  }

  /** Only the flush of the signature is not of the first line. */
  lemma FlushLine(r: Region, pc: nat)
    requires r.base % 4096 == 0 && pc < 17 && InitOps(r)[pc].Flush?
    ensures InitOps(r)[pc].addr / 64 == if pc == 7 then r.base / 64 + 1 else r.base / 64
  {
    FirstLine(r, 16);
    FirstLine(r, 32);
  }

  /** A flush that moves the program on. */
  lemma FlushInv(r: Region, w0: Words, s: InitState)
    requires Inv(r, w0, s) && s.pc < 17 && InitOps(r)[s.pc].Flush?
    ensures Inv(r, w0, Step(r, s, Do))
  {
    var line := if s.pc == 7 then r.base / 64 + 1 else r.base / 64;
    FlushLine(r, s.pc);
    WriteBackManager(s.m, r, line);
    WriteBackOutside(s.m, w0, r, line);
    FlushedOk(s.m, w0, r, s.pc, line);
  }

  /** What the line written back does to the durable words. */
  lemma FlushedOk(m: Nvm, w0: Words, r: Region, pc: nat, line: nat)
    requires pc == 6 || pc == 7 || pc == 9 || pc == 14 || pc == 16
    requires line == if pc == 7 then r.base / 64 + 1 else r.base / 64
    requires CacheOk(m.cache, w0, r, pc) && DurableOk(m.durable, w0, r, pc)
    requires var w := WriteBack(m, line);
             && (if line == r.base / 64 then SameList(w, m.cache, r) else SameList(w, m.durable, r))
             && Get(w, r.base + 64) == Get(if line == r.base / 64 + 1 then m.cache else m.durable, r.base + 64)
    ensures CacheOk(m.cache, w0, r, pc + 1) && DurableOk(WriteBack(m, line), w0, r, pc + 1)
  {
  }

  lemma NextInv(r: Region, w0: Words, s: InitState)
    requires Inv(r, w0, s)
    ensures Inv(r, w0, Step(r, s, Do))
  {
    if s.pc < 17 {
      match InitOps(r)[s.pc]
      case Store(a, v) =>
        assert r.base <= a < r.base + 128;
      case Flush(a) =>
        FlushInv(r, w0, s);
    }
  }

  lemma {:induction false} StepsInv(r: Region, w0: Words, es: seq<InitEvent>)
    requires r.base % 4096 == 0
    ensures Inv(r, w0, Steps(r, Booted(w0), es))
  {
    if es != [] {
      var s := Steps(r, Booted(w0), es[..|es| - 1]);
      StepsInv(r, w0, es[..|es| - 1]);
      match es[|es| - 1] {
        case Do => NextInv(r, w0, s);
        case WriteOut(line) => SpillInv(r, w0, s, line);
      }
    }
  }

  /** At every moment of `Init`, whatever was evicted, a durable image that looks valid holds the
      old list or the empty one, if the old head word is null or leads to a list. */
  lemma InitAtomic(r: Region, w0: Words, objs: seq<Obj>, es: seq<InitEvent>)
    requires r.base % 4096 == 0 && (Get(w0, r.Head()) == 0 || Holds(w0, r, objs))
    ensures var d := Steps(r, Booted(w0), es).m.durable;
            IsValid(d, r) ==> Holds(d, r, objs) || Holds(d, r, [SentinelObj(r)])
  {
    StepsInv(r, w0, es);
    var d := Steps(r, Booted(w0), es).m.durable;
    if IsValid(d, r) {
      if SameList(d, w0, r) && Holds(w0, r, objs) {
        HoldsTransfers(d, w0, r, objs);
      } else {
        EmptyHolds(d, r);
      }
    }
  }

  /** The first six operations only store. */
  lemma {:induction false} OnlyStores(r: Region, w0: Words, k: nat)
    requires r.base % 4096 == 0 && k <= 6
    ensures var s := Steps(r, Booted(w0), seq(k, _ => Do)); s.pc == k && s.m.durable == w0
  {
    if k > 0 {
      var es := seq(k, _ => Do);
      assert es[..k - 1] == seq(k - 1, _ => Do);
      OnlyStores(r, w0, k - 1);
    }
  }

  /** Old contents whose head word leads nowhere look valid if the line with the signature is
      written back before the line with the head. */
  lemma LineTwoFirst(r: Region, w0: Words)
    requires r.base % 4096 == 0 && Get(w0, r.Head()) != 0
    ensures var d := Steps(r, Booted(w0), seq(6, _ => Do) + [WriteOut(r.base / 64 + 1)]).m.durable;
            IsValid(d, r) && SameOutside(d, w0, r) && SameList(d, w0, r)
  {
    var es := seq(6, _ => Do);
    var s := Steps(r, Booted(w0), es);
    OnlyStores(r, w0, 6);
    StepsInv(r, w0, es);
    assert (es + [WriteOut(r.base / 64 + 1)])[..6] == es;
    WriteBackManager(s.m, r, r.base / 64 + 1);
    WriteBackOutside(s.m, w0, r, r.base / 64 + 1);
  }

  /** Such contents are possible: nothing but a head word that points nowhere. */
  lemma NoListExample(r: Region)
    ensures Get(map[r.Head() := 1], r.Head()) != 0
    ensures forall objs :: !Holds(map[r.Head() := 1], r, objs)
  {
    var w0: Words := map[r.Head() := 1];
    forall objs ensures !Holds(w0, r, objs) {
      assert objs != [] ==> !HeaderOk(w0, objs, 0);
    }
  }

  /** Exactly then: `Init` can be interrupted anywhere if and only if the old head word is null
      or leads to a list. */
  lemma InitAtomicIff(r: Region, w0: Words)
    requires r.base % 4096 == 0
    ensures (forall es :: var d := Steps(r, Booted(w0), es).m.durable; IsValid(d, r) ==> exists objs :: Holds(d, r, objs))
            <==> Get(w0, r.Head()) == 0 || exists objs :: Holds(w0, r, objs)
  {
    if Get(w0, r.Head()) == 0 || exists objs :: Holds(w0, r, objs) {
      var objs :| Get(w0, r.Head()) == 0 || Holds(w0, r, objs);
      forall es ensures var d := Steps(r, Booted(w0), es).m.durable; IsValid(d, r) ==> exists l :: Holds(d, r, l) {
        InitAtomic(r, w0, objs, es);
      }
    } else {
      var es := seq(6, _ => Do) + [WriteOut(r.base / 64 + 1)];
      var d := Steps(r, Booted(w0), es).m.durable;
      LineTwoFirst(r, w0);
      forall objs ensures !Holds(d, r, objs) {
        if Holds(d, r, objs) {
          HoldsTransfers(w0, d, r, objs);
        }
      }
    }
  }

  // ----- The code -----

  lemma {:induction false} NextsRun(r: Region, w0: Words, k: nat)
    requires k <= 17
    ensures var s := Steps(r, Booted(w0), seq(k, _ => Do)); s.pc == k && s.m == ExecAll(Nvm(w0, w0), InitOps(r)[..k])
  {
    if k > 0 {
      var es := seq(k, _ => Do);
      assert es[..k - 1] == seq(k - 1, _ => Do);
      NextsRun(r, w0, k - 1);
      assert InitOps(r)[..k] == InitOps(r)[..k - 1] + [InitOps(r)[k - 1]];
      ExecSnoc(Nvm(w0, w0), InitOps(r)[..k - 1], InitOps(r)[k - 1]);
    }
  }

  // ----- The fields of the manager -----

  /** First page, size and the pointer to the last process, once the stores are made and once the
      first line is flushed. */
  ghost predicate FieldsAre(w: Words, r: Region, k: nat) {
    && (k >= 2 ==> Get(w, r.base) == r.base / 4096)
    && (k >= 3 ==> Get(w, r.base + 8) == r.pages)
    && (k >= 5 ==> Get(w, r.base + 24) == 0)
  }

  ghost predicate FieldsOk(r: Region, s: InitState) {
    s.pc <= 17 && FieldsAre(s.m.cache, r, s.pc) && (s.pc >= 7 ==> FieldsAre(s.m.durable, r, 5))
  }

  lemma WriteBackFields(m: Nvm, r: Region, line: nat)
    requires r.base % 4096 == 0
    ensures var w := WriteBack(m, line);
            && (line == r.base / 64 && FieldsAre(m.cache, r, 5) ==> FieldsAre(w, r, 5))
            && (line != r.base / 64 && FieldsAre(m.durable, r, 5) ==> FieldsAre(w, r, 5))
  {
    WriteBackFirst(m, r, line, 0);
    WriteBackFirst(m, r, line, 8);
    WriteBackFirst(m, r, line, 24);
  }

  lemma FieldsStore(r: Region, s: InitState)
    requires FieldsOk(r, s) && s.pc < 17 && InitOps(r)[s.pc].Store?
    ensures FieldsOk(r, Step(r, s, Do))
  {
  }

  lemma FieldsStep(r: Region, s: InitState, e: InitEvent)
    requires r.base % 4096 == 0 && FieldsOk(r, s)
    ensures FieldsOk(r, Step(r, s, e))
  {
    if e.Do? {
      if s.pc < 17 {
        if InitOps(r)[s.pc].Store? {
          FieldsStore(r, s);
        } else {
          FlushLine(r, s.pc);
          WriteBackFields(s.m, r, InitOps(r)[s.pc].addr / 64);
        }
      }
    } else {
      WriteBackFields(s.m, r, e.line);
    }
  }

  /** Whatever is evicted, from the flush of the first line on the fields are durable. */
  lemma {:induction false} StepsFields(r: Region, w0: Words, es: seq<InitEvent>)
    requires r.base % 4096 == 0
    ensures FieldsOk(r, Steps(r, Booted(w0), es))
  {
    if es != [] {
      StepsFields(r, w0, es[..|es| - 1]);
      FieldsStep(r, Steps(r, Booted(w0), es[..|es| - 1]), es[|es| - 1]);
    }
  }

  /** The manager after `Init`, word by word: first page, size, head, no last process, the sentinel,
      and the signature on the next line. */
  ghost predicate ManagerWords(w: Words, r: Region) {
    && Get(w, r.base) == r.base / 4096 && Get(w, r.base + 8) == r.pages
    && Get(w, r.base + 16) == r.base + 32 && Get(w, r.base + 24) == 0
    && Get(w, r.base + 32) == 0x4F50_534F_6D75_696C
    && Get(w, r.base + 40) == 0 && Get(w, r.base + 48) == 0 && Get(w, r.base + 56) == 0
    && Get(w, r.base + 64) == 0x4D50_534F_6D75_696C
  }

  lemma InitLeaves(r: Region, w0: Words)
    requires r.base % 4096 == 0
    ensures ManagerWords(ExecAll(Nvm(w0, w0), InitOps(r)).durable, r)
  {
    InitFinishes(r, w0);
    FieldsFinish(r, w0);
    WordsTogether(ExecAll(Nvm(w0, w0), InitOps(r)).durable, r);
  }

  lemma FieldsFinish(r: Region, w0: Words)
    requires r.base % 4096 == 0
    ensures FieldsAre(ExecAll(Nvm(w0, w0), InitOps(r)).durable, r, 5)
  {
    NextsRun(r, w0, 17);
    assert InitOps(r)[..17] == InitOps(r);
    StepsFields(r, w0, seq(17, _ => Do));
  }

  lemma WordsTogether(w: Words, r: Region)
    requires Holds(w, r, [SentinelObj(r)]) && IsValid(w, r) && FieldsAre(w, r, 5)
    ensures ManagerWords(w, r)
  {
    assert HeaderOk(w, [SentinelObj(r)], 0);
  }

  /** Undisturbed, `Init` leaves a valid manager with the empty list, in the cache and durably. */
  lemma InitFinishes(r: Region, w0: Words)
    requires r.base % 4096 == 0
    ensures var m := ExecAll(Nvm(w0, w0), InitOps(r));
            && Holds(m.cache, r, [SentinelObj(r)]) && Holds(m.durable, r, [SentinelObj(r)])
            && IsValid(m.durable, r)
  {
    NextsRun(r, w0, 17);
    StepsInv(r, w0, seq(17, _ => Do));
    assert InitOps(r)[..17] == InitOps(r);
    var m := ExecAll(Nvm(w0, w0), InitOps(r));
    EmptyHolds(m.cache, r);
    EmptyHolds(m.durable, r);
  }

  /** The operations on the manager's own fields. */
  function FieldOps(r: Region): seq<Op> { InitOps(r)[..8] }

  method InitFields(p: PersistentMemoryManager)
    requires p.Valid()
    modifies p
    ensures p.Valid() && p.log == old(p.log) + FieldOps(p.region)
  {
    var base := p.region.base;
    p.StoreWord(base + 64, BAD_MANAGER_SIGNATURE);
    p.StoreWord(base, base / 4096);
    p.StoreWord(base + 8, p.region.pages);
    p.StoreWord(p.region.Head(), 0);
    p.StoreWord(base + 24, 0);
    p.StoreWord(base + 64, MANAGER_SIGNATURE);
    p.ClFlush(base);
    p.ClFlush(base + 64);
  }

  /** `PersistentMemoryManager::Init`, once its range is found in the firmware tables. */
  method Init(p: PersistentMemoryManager)
    requires p.Valid() && p.region.base % 4096 == 0 && p.nvm.cache == p.nvm.durable
    modifies p
    ensures p.Valid() && p.log == old(p.log) + InitOps(p.region)
    ensures Holds(p.nvm.cache, p.region, [SentinelObj(p.region)])
    ensures Holds(p.nvm.durable, p.region, [SentinelObj(p.region)]) && IsValid(p.nvm.durable, p.region)
    ensures ManagerWords(p.nvm.durable, p.region)
  {
    ghost var log0, m0 := p.log, p.nvm;
    InitFields(p);
    p.InitHeader(p.region.Sentinel(), 0, 0);
    p.SetHead(p.region.Sentinel());
    assert p.log == log0 + InitOps(p.region);
    ExecConcat(p.start, log0, InitOps(p.region));
    InitFinishes(p.region, m0.cache);
    InitLeaves(p.region, m0.cache);
  }
}
