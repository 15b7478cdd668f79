/** Two-slot checkpoints of a persistent process. One execution context is valid, the other
    is the one the process runs on; `SwitchContext` flips the index and copies the new valid
    context over the other. Stores are taken to be durable in program order, so a crash
    leaves exactly the stores made so far. */
module Checkpoint {

  /** The saved CPU context: page table root first, then the registers word by word. */
  datatype Cpu = Cpu(cr3: nat, regs: seq<int>)

  /** What a checkpoint is about: registers, and the data and stack bytes of the process. */
  datatype Snapshot = Snapshot(regs: seq<int>, mem: seq<int>)

  /** Program points. `Saving(k)` has stored `k` words of the live context; `Copying(k, keep)`
      has made `k` stores of `CopyContextFrom`, whose local variable holds `keep`. */
  datatype Phase =
    | Running(live: Cpu)
    | Saving(k: nat, live: Cpu)
    | Flipping(live: Cpu)
    | Copying(k: nat, keep: nat)

  /** Sizes and the two page tables: `tables[i]` maps the segments to the frames of context `i`. */
  datatype Shape = Shape(nregs: nat, nbytes: nat, table0: nat, table1: nat)
  {
    function Table(i: nat): nat { if i == 0 then table0 else table1 }

    /** The frames user stores reach under a page table. */
    function FramesOf(cr3: nat): nat { if cr3 == table0 then 0 else 1 }
  }

  /** `mem[i]` is the data segment followed by the stack segment of context `i`. */
  datatype State = State(ctx: seq<Cpu>, mem: seq<seq<int>>, valid: nat, phase: Phase, saved: Snapshot)
  {
    function Working(): nat
      requires valid <= 1
    {
      1 - valid
    }
  }

  datatype Event =
    | Execute(regs: seq<int>)             // an instruction that changes registers
    | UserStore(ofs: nat, val: int)       // an instruction that stores to memory
    | Interrupt                           // the process is about to be switched out
    | Tick                                // the kernel makes its next store
    | Crash                               // power is lost; restoring begins

  ghost predicate Shaped(p: Shape, s: State) {
    && s.valid <= 1 && |s.ctx| == 2 && |s.mem| == 2
    && p.table0 != p.table1
    && (forall i | 0 <= i < 2 :: |s.ctx[i].regs| == p.nregs && |s.mem[i]| == p.nbytes)
    && match s.phase
       case Running(live) => |live.regs| == p.nregs
       case Saving(k, live) => |live.regs| == p.nregs && k <= p.nregs + 1
       case Flipping(live) => |live.regs| == p.nregs
       case Copying(k, keep) => k <= p.nregs + 2 + p.nbytes
  }

  function StoreReg(s: State, i: nat, j: nat, val: int): State
    requires i < |s.ctx| && j < |s.ctx[i].regs|
  {
    s.(ctx := s.ctx[i := s.ctx[i].(regs := s.ctx[i].regs[j := val])])
  }

  function StoreCr3(s: State, i: nat, val: nat): State
    requires i < |s.ctx|
  {
    s.(ctx := s.ctx[i := s.ctx[i].(cr3 := val)])
  }

  function StoreMem(s: State, i: nat, j: nat, val: int): State
    requires i < |s.mem| && j < |s.mem[i]|
  {
    s.(mem := s.mem[i := s.mem[i][j := val]])
  }

  /** One store of the kernel while it saves and copies. */
  ghost function KernelStep(p: Shape, s: State): (t: State)
    requires Shaped(p, s)
    ensures Shaped(p, t)
  {
    var w, v := s.Working(), s.valid;
    match s.phase
    case Running(_) => s
    case Saving(k, live) =>
      if k == 0 then StoreCr3(s, w, live.cr3).(phase := Saving(1, live))
      else if k <= p.nregs then StoreReg(s, w, k - 1, live.regs[k - 1]).(phase := Saving(k + 1, live))
      else s.(phase := Flipping(live))
    case Flipping(live) =>
      // `SetValidContextIndex`; from here on this save is the one to restore.
      s.(valid := w, phase := Copying(0, s.ctx[v].cr3), saved := Snapshot(live.regs, s.mem[p.FramesOf(live.cr3)]))
    case Copying(k, keep) =>
      var next := Copying(k + 1, keep);
      if k == 0 then StoreCr3(s, w, s.ctx[v].cr3).(phase := next)
      else if k <= p.nregs then StoreReg(s, w, k - 1, s.ctx[v].regs[k - 1]).(phase := next)
      else if k == p.nregs + 1 then StoreCr3(s, w, keep).(phase := next)
      else if k < p.nregs + 2 + p.nbytes then StoreMem(s, w, k - p.nregs - 2, s.mem[v][k - p.nregs - 2]).(phase := next)
      else s.(phase := Running(s.ctx[w]))
  }

  ghost function Apply(p: Shape, s: State, e: Event): (t: State)
    requires Shaped(p, s)
    ensures Shaped(p, t)
  {
    match e
    case Execute(regs) =>
      if s.phase.Running? && |regs| == p.nregs then s.(phase := Running(s.phase.live.(regs := regs))) else s
    case UserStore(ofs, val) =>
      if s.phase.Running? && ofs < p.nbytes then StoreMem(s, p.FramesOf(s.phase.live.cr3), ofs, val) else s
    case Interrupt =>
      if s.phase.Running? then s.(phase := Saving(0, s.phase.live)) else s
    case Tick => KernelStep(p, s)
    case Crash => s.(phase := Copying(0, s.ctx[s.Working()].cr3))
  }

  /** The valid context is the process as of the last save. */
  ghost predicate Safe(s: State)
    requires s.valid < |s.ctx| && s.valid < |s.mem|
  {
    s.ctx[s.valid].regs == s.saved.regs && s.mem[s.valid] == s.saved.mem
  }

  /** The two stores between which the working context carries the page table of the other. */
  predicate InWindow(p: Shape, s: State) {
    s.phase.Copying? && 1 <= s.phase.k <= p.nregs + 1
  }

  ghost predicate Inv(p: Shape, s: State) {
    && Shaped(p, s) && Safe(s)
    && var w, v := s.Working(), s.valid;
    && s.ctx[v].cr3 == p.Table(v)
    && s.ctx[w].cr3 == (if InWindow(p, s) then p.Table(v) else p.Table(w))
    && match s.phase
       case Running(live) => live.cr3 == p.Table(w)
       case Saving(k, live) => live.cr3 == p.Table(w) && forall j | 0 <= j < k - 1 :: s.ctx[w].regs[j] == live.regs[j]
       case Flipping(live) => live == s.ctx[w]
       case Copying(k, keep) =>
         && keep == p.Table(w)
         && (forall j | 0 <= j < k - 1 && j < p.nregs :: s.ctx[w].regs[j] == s.ctx[v].regs[j])
         && (forall j | 0 <= j < k - p.nregs - 2 :: s.mem[w][j] == s.mem[v][j])
  }

  lemma KernelStepSafe(p: Shape, s: State)
    requires Inv(p, s)
    ensures Inv(p, KernelStep(p, s))
  {
    var t := KernelStep(p, s);
    if s.phase.Saving? && s.phase.k == p.nregs + 1 {
      assert s.ctx[s.Working()].regs == s.phase.live.regs;
    }
  }

  /** Every store of the kernel, and every instruction of the process, keeps the checkpoint. */
  lemma StepSafe(p: Shape, s: State, e: Event)
    requires Inv(p, s) && (e.Crash? ==> !InWindow(p, s))
    ensures Inv(p, Apply(p, s, e))
  {
    if e.Tick? {
      KernelStepSafe(p, s);
    }
  }

  // ----- Whole runs -----

  ghost function Run(p: Shape, s: State, es: seq<Event>): (t: State)
    requires Shaped(p, s)
    ensures Shaped(p, t)
    decreases |es|
  {
    if es == [] then s else Run(p, Apply(p, s, es[0]), es[1..])
  }

  /** No crash of the run falls into the window. */
  ghost predicate AvoidsWindow(p: Shape, s: State, es: seq<Event>)
    requires Shaped(p, s)
    decreases |es|
  {
    es == [] || ((es[0].Crash? ==> !InWindow(p, s)) && AvoidsWindow(p, Apply(p, s, es[0]), es[1..]))
  }

  /** Checkpoint safety: at the end of every such run, and so at each of its steps, the valid
      context is the process as of the latest save whose index flip has happened. */
  lemma {:induction false} RunSafe(p: Shape, s: State, es: seq<Event>)
    requires Inv(p, s) && AvoidsWindow(p, s, es)
    ensures Inv(p, Run(p, s, es)) && Safe(Run(p, s, es))
    decreases |es|
  {
    if es != [] {
      StepSafe(p, s, es[0]);
      RunSafe(p, Apply(p, s, es[0]), es[1..]);
    }
  }

  /** When copying ends the process runs with the saved registers, and its page table leads
      to the saved memory: both a normal switch and a restore resume the saved state. */
  lemma ResumesSaved(p: Shape, s: State)
    requires Inv(p, s) && s.phase.Copying? && KernelStep(p, s).phase.Running?
    ensures var t := KernelStep(p, s);
            t.phase.live.regs == t.saved.regs && t.mem[p.FramesOf(t.phase.live.cr3)] == t.saved.mem
  {
    var w, v := s.Working(), s.valid;
    assert s.ctx[w].regs == s.ctx[v].regs;
    assert s.mem[w] == s.mem[v];
  }

  // ----- The window -----

  ghost function Ticks(p: Shape, s: State, n: nat): (t: State)
    requires Shaped(p, s)
    ensures Shaped(p, t)
  {
    if n == 0 then s else KernelStep(p, Ticks(p, s, n - 1))
  }

  /** `k` words of `live` are saved, and nothing else has changed. */
  ghost predicate SavedSoFar(p: Shape, s: State, k: nat, live: Cpu, v: nat, mem: seq<seq<int>>) {
    Inv(p, s) && s.phase == Saving(k, live) && s.valid == v && s.mem == mem
  }

  lemma SaveStep(p: Shape, s: State, k: nat, live: Cpu)
    requires SavedSoFar(p, s, k, live, s.valid, s.mem) && k <= p.nregs
    ensures SavedSoFar(p, KernelStep(p, s), k + 1, live, s.valid, s.mem)
  {
    KernelStepSafe(p, s);
  }

  lemma {:induction false} SaveProceeds(p: Shape, s: State, n: nat, live: Cpu)
    requires SavedSoFar(p, s, 0, live, s.valid, s.mem) && n <= p.nregs + 1
    ensures SavedSoFar(p, Ticks(p, s, n), n, live, s.valid, s.mem)
    decreases n
  {
    if n > 0 {
      SaveProceeds(p, s, n - 1, live);
      SaveStep(p, Ticks(p, s, n - 1), n - 1, live);
    }
  }

  /** From the interrupt to the flip: the checkpoint becomes the registers and the memory the
      process had when it was interrupted. */
  lemma SaveRecords(p: Shape, s: State)
    requires Inv(p, s) && s.phase.Running?
    ensures var t := Ticks(p, Apply(p, s, Interrupt), p.nregs + 3);
            && t.saved == Snapshot(s.phase.live.regs, s.mem[p.FramesOf(s.phase.live.cr3)])
            && t.valid == 1 - s.valid && Inv(p, t) && t.phase.Copying? && t.phase.k == 0
  {
    var u := Apply(p, s, Interrupt);
    SaveProceeds(p, u, p.nregs + 1, s.phase.live);
    var saved := Ticks(p, u, p.nregs + 1);
    var flipping := KernelStep(p, saved);
    assert Ticks(p, u, p.nregs + 2) == flipping;
    assert Ticks(p, u, p.nregs + 3) == KernelStep(p, flipping);
    KernelStepSafe(p, saved);
    KernelStepSafe(p, flipping);
  }

  /** Copying with the page table of the valid context in both contexts. */
  ghost predicate WrongTable(p: Shape, s: State, k: nat, v: nat, saved: Snapshot) {
    && Shaped(p, s) && Safe(s) && s.valid == v && s.saved == saved && s.phase == Copying(k, p.Table(v))
    && s.ctx[v].cr3 == p.Table(v) && s.ctx[1 - v].cr3 == p.Table(v)
  }

  lemma WrongTableStays(p: Shape, s: State, k: nat)
    requires s.valid <= 1 && WrongTable(p, s, k, s.valid, s.saved) && k < p.nregs + 2 + p.nbytes
    ensures WrongTable(p, KernelStep(p, s), k + 1, s.valid, s.saved)
  {
  }

  /** A restore that starts with the page table of the valid context in the working one. */
  lemma {:induction false} RestoreKeepsWrongTable(p: Shape, s: State, n: nat)
    requires s.valid <= 1 && WrongTable(p, s, 0, s.valid, s.saved) && n <= p.nregs + 2 + p.nbytes
    ensures WrongTable(p, Ticks(p, s, n), n, s.valid, s.saved)
    decreases n
  {
    if n > 0 {
      RestoreKeepsWrongTable(p, s, n - 1);
      WrongTableStays(p, Ticks(p, s, n - 1), n - 1);
    }
  }

  /** After a crash inside the window the process runs on the frames of its own checkpoint,
      and its first store to memory destroys it. */
  lemma WindowCrashBreaks(p: Shape, s: State)
    requires Inv(p, s) && InWindow(p, s) && p.nbytes > 0
    ensures var t := Ticks(p, Apply(p, s, Crash), p.nregs + 3 + p.nbytes);
            && t.phase.Running? && Safe(t)
            && !Safe(Apply(p, t, UserStore(0, t.saved.mem[0] + 1)))
  {
    RestoreKeepsWrongTable(p, Apply(p, s, Crash), p.nregs + 2 + p.nbytes);
  }

  lemma {:induction false} TicksThen(p: Shape, s: State, n: nat, e: Event)
    requires Shaped(p, s) && !e.Crash?
    ensures var es := seq(n, i => Tick) + [e];
            Run(p, s, es) == Apply(p, Ticks(p, s, n), e) && AvoidsWindow(p, s, es)
    decreases n
  {
    var es := seq(n, i => Tick) + [e];
    if n == 0 {
      assert es == [e];
      assert Run(p, Apply(p, s, e), []) == Apply(p, s, e);
    } else {
      assert es[0] == Tick && es[1..] == seq(n - 1, i => Tick) + [e];
      TicksThen(p, KernelStep(p, s), n - 1, e);
      TicksShift(p, s, n - 1);
    }
  }

  lemma {:induction false} TicksShift(p: Shape, s: State, n: nat)
    requires Shaped(p, s)
    ensures Ticks(p, KernelStep(p, s), n) == Ticks(p, s, n + 1)
    decreases n
  {
    if n > 0 {
      TicksShift(p, s, n - 1);
    }
  }

  /** A crash can be survived exactly when it does not fall into the window: then, and only
      then, every continuation that avoids the window keeps the checkpoint. */
  lemma CrashSurvivable(p: Shape, s: State)
    requires Inv(p, s) && p.nbytes > 0
    ensures !InWindow(p, s) <==>
            forall es | AvoidsWindow(p, Apply(p, s, Crash), es) :: Safe(Run(p, Apply(p, s, Crash), es))
  {
    var c := Apply(p, s, Crash);
    if InWindow(p, s) {
      var n := p.nregs + 3 + p.nbytes;
      WindowCrashBreaks(p, s);
      var e := UserStore(0, Ticks(p, c, n).saved.mem[0] + 1);
      TicksThen(p, c, n, e);
      assert !Safe(Run(p, c, seq(n, i => Tick) + [e]));
    } else {
      forall es | AvoidsWindow(p, c, es) ensures Safe(Run(p, c, es)) {
        StepSafe(p, s, Crash);
        RunSafe(p, c, es);
      }
    }
  }

  /** `k` stores of the copy are made, and the checkpoint is as it was. */
  ghost predicate CopiedSoFar(p: Shape, s: State, k: nat, keep: nat, v: nat, ctx: Cpu, mem: seq<int>) {
    Inv(p, s) && s.phase == Copying(k, keep) && s.valid == v && s.ctx[v] == ctx && s.mem[v] == mem
  }

  lemma CopyStep(p: Shape, s: State, k: nat, keep: nat, ctx: Cpu, mem: seq<int>)
    requires CopiedSoFar(p, s, k, keep, s.valid, ctx, mem) && k < p.nregs + 2 + p.nbytes
    ensures CopiedSoFar(p, KernelStep(p, s), k + 1, keep, s.valid, ctx, mem)
  {
    KernelStepSafe(p, s);
  }

  lemma {:induction false} CopyProceeds(p: Shape, s: State, n: nat, keep: nat, ctx: Cpu, mem: seq<int>)
    requires CopiedSoFar(p, s, 0, keep, s.valid, ctx, mem) && n <= p.nregs + 2 + p.nbytes
    ensures CopiedSoFar(p, Ticks(p, s, n), n, keep, s.valid, ctx, mem)
    decreases n
  {
    if n > 0 {
      CopyProceeds(p, s, n - 1, keep, ctx, mem);
      CopyStep(p, Ticks(p, s, n - 1), n - 1, keep, ctx, mem);
    }
  }

  /** Flip and copy, store by store, end where `SwitchContext` below ends. */
  lemma SwitchCompletes(p: Shape, s: State)
    requires Inv(p, s) && s.phase.Flipping?
    ensures var t := Ticks(p, KernelStep(p, s), p.nregs + 2 + p.nbytes);
            && t.valid == 1 - s.valid
            && t.ctx[t.valid] == s.ctx[t.valid] && t.mem[t.valid] == s.mem[t.valid]
            && t.ctx[1 - t.valid].regs == t.ctx[t.valid].regs && t.mem[1 - t.valid] == t.mem[t.valid]
            && t.ctx[1 - t.valid].cr3 == s.ctx[1 - t.valid].cr3
  {
    KernelStepSafe(p, s);
    var f := KernelStep(p, s);
    CopyProceeds(p, f, p.nregs + 2 + p.nbytes, f.phase.keep, f.ctx[f.valid], f.mem[f.valid]);
    var t := Ticks(p, KernelStep(p, s), p.nregs + 2 + p.nbytes);
    assert t.ctx[1 - t.valid].regs == t.ctx[t.valid].regs;
    assert t.mem[1 - t.valid] == t.mem[t.valid];
  }

  /** Copying, after a flip or after a crash outside the window, ends with the process running
      the saved registers on the saved memory, in the working context. */
  lemma CopyResumes(p: Shape, s: State)
    requires Inv(p, s) && s.phase.Copying? && s.phase.k == 0
    ensures var t := Ticks(p, s, p.nregs + p.nbytes + 3);
            && t.phase.Running? && t.valid == s.valid && t.phase.live.cr3 == p.Table(1 - s.valid)
            && t.phase.live.regs == s.saved.regs && t.mem[1 - s.valid] == s.saved.mem
  {
    CopyProceeds(p, s, p.nregs + 2 + p.nbytes, s.phase.keep, s.ctx[s.valid], s.mem[s.valid]);
    var c := Ticks(p, s, p.nregs + 2 + p.nbytes);
    assert c.ctx[1 - c.valid].regs == c.ctx[c.valid].regs;
    assert c.mem[1 - c.valid] == c.mem[c.valid];
  }

  /** A whole switch, from the interrupt to the return: the process goes on with the registers
      and the memory it had, on the frames of the other context. */
  lemma SwitchResumes(p: Shape, s: State)
    requires Inv(p, s) && s.phase.Running?
    ensures var t := Ticks(p, Ticks(p, Apply(p, s, Interrupt), p.nregs + 3), p.nregs + p.nbytes + 3);
            && t.phase.Running? && t.phase.live.regs == s.phase.live.regs
            && t.phase.live.cr3 == p.Table(s.valid)
            && t.mem[s.valid] == s.mem[1 - s.valid]
  {
    SaveRecords(p, s);
    CopyResumes(p, Ticks(p, Apply(p, s, Interrupt), p.nregs + 3));
  }

  // ----- The code, run to completion -----

  class PersistentProcessInfo {
    var ctx: seq<Cpu>
    var mem: seq<seq<int>>
    var valid: nat
    const shape: Shape

    ghost predicate Valid()
      reads this
    {
      && valid <= 1 && |ctx| == 2 && |mem| == 2
      && (forall i | 0 <= i < 2 :: |ctx[i].regs| == shape.nregs && |mem[i]| == shape.nbytes)
    }

    constructor (shape: Shape, ctx: seq<Cpu>, mem: seq<seq<int>>, valid: nat)
      requires valid <= 1 && |ctx| == 2 && |mem| == 2
      requires forall i | 0 <= i < 2 :: |ctx[i].regs| == shape.nregs && |mem[i]| == shape.nbytes
      ensures Valid() && this.shape == shape && this.ctx == ctx && this.mem == mem && this.valid == valid
    {
      this.shape, this.ctx, this.mem, this.valid := shape, ctx, mem, valid;
    }

    /** `CopyContextFrom`: registers and bytes of `v` over those of `w`, page table kept. */
    method CopyContextFrom(w: nat, v: nat, stat0: nat) returns (stat: nat)
      requires Valid() && w <= 1 && v <= 1 && w != v
      modifies this
      ensures Valid() && valid == old(valid) && stat == stat0 + shape.nbytes
      ensures ctx == old(ctx)[w := old(ctx)[v].(cr3 := old(ctx)[w].cr3)]
      ensures mem == old(mem)[w := old(mem)[v]]
    {
      var cr3 := ctx[w].cr3;
      ctx := ctx[w := ctx[w].(cr3 := ctx[v].cr3)];
      var k := 0;
      while k < shape.nregs
        invariant 0 <= k <= shape.nregs && Valid() && valid == old(valid) && mem == old(mem)
        invariant ctx[v] == old(ctx)[v] && ctx[w].cr3 == ctx[v].cr3
        invariant forall j | 0 <= j < k :: ctx[w].regs[j] == ctx[v].regs[j]
      {
        ctx := ctx[w := ctx[w].(regs := ctx[w].regs[k := ctx[v].regs[k]])];
        k := k + 1;
      }
      assert ctx[w].regs == ctx[v].regs;
      ctx := ctx[w := ctx[w].(cr3 := cr3)];
      k := 0;
      while k < shape.nbytes
        invariant 0 <= k <= shape.nbytes && Valid() && valid == old(valid)
        invariant ctx == old(ctx)[w := old(ctx)[v].(cr3 := old(ctx)[w].cr3)]
        invariant mem[v] == old(mem)[v]
        invariant forall j | 0 <= j < k :: mem[w][j] == mem[v][j]
      {
        mem := mem[w := mem[w][k := mem[v][k]]];
        k := k + 1;
      }
      assert mem[w] == mem[v];
      stat := stat0 + shape.nbytes;
    }

    /** `SwitchContext`: the working context becomes the checkpoint, and the process goes on
        from an equal copy of it in the other slot. */
    method SwitchContext(stat0: nat) returns (stat: nat)
      requires Valid()
      modifies this
      ensures Valid() && valid == 1 - old(valid) && stat == stat0 + shape.nbytes
      ensures ctx[valid] == old(ctx)[valid] && mem[valid] == old(mem)[valid]
      ensures ctx[1 - valid].regs == ctx[valid].regs && mem[1 - valid] == mem[valid]
      ensures ctx[1 - valid].cr3 == old(ctx)[1 - valid].cr3
    {
      valid := 1 - valid;
      stat := CopyContextFrom(1 - valid, valid, stat0);
    }

    /** `RestoreFromPersistentProcessInfo`: the checkpoint stays, the working context follows. */
    method Restore() returns (stat: nat)
      requires Valid()
      modifies this
      ensures Valid() && valid == old(valid) && stat == shape.nbytes
      ensures ctx[valid] == old(ctx)[valid] && mem[valid] == old(mem)[valid]
      ensures ctx[1 - valid].regs == ctx[valid].regs && mem[1 - valid] == mem[valid]
      ensures ctx[1 - valid].cr3 == old(ctx)[1 - valid].cr3
    {
      stat := CopyContextFrom(1 - valid, valid, 0);
    }
  }
}
