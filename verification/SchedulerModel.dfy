/** The round-robin scheduler: a table of at most 256 processes whose slots are reused once
    their process has stopped. */
module SchedulerModel {
  import opened Basics

  datatype Status = NotInitialized | NotScheduled | Sleeping | Running | Stopping | Stopped

  /** `Process::Kill`. */
  function Killed(st: Status): Status {
    match st
    case Sleeping => Stopped
    case Running => Stopping
    case _ => st
  }

  // ----- The table as a value -----

  datatype Slot = Slot(pid: nat, status: Status)

  datatype Table = Table(slots: seq<Slot>, cur: nat)

  datatype Event = Register(pid: nat) | Switch | Kill(pid: nat) | KillCurrent

  /** First slot from `i` on with a status; the length when there is none. */
  function FirstWith(slots: seq<Slot>, st: Status, i: nat): (k: nat)
    requires i <= |slots|
    ensures i <= k <= |slots|
    ensures k < |slots| ==> slots[k].status == st
    ensures forall j | i <= j < k :: slots[j].status != st
    decreases |slots| - i
  {
    if i == |slots| || slots[i].status == st then i else FirstWith(slots, st, i + 1)
  }

  function FirstPid(slots: seq<Slot>, pid: nat, i: nat): (k: nat)
    requires i <= |slots|
    ensures i <= k <= |slots|
    ensures k < |slots| ==> slots[k].pid == pid
    ensures forall j | i <= j < k :: slots[j].pid != pid
    decreases |slots| - i
  {
    if i == |slots| || slots[i].pid == pid then i else FirstPid(slots, pid, i + 1)
  }

  /** Smallest distance from `i` on at which a sleeping process sits; `n` when there is none. */
  function NextSleeping(slots: seq<Slot>, base: nat, i: nat): (k: nat)
    requires base < |slots| && 1 <= i <= |slots|
    ensures i <= k <= |slots|
    ensures k < |slots| ==> slots[Wrap(base, k, |slots|)].status == Sleeping
    ensures forall j | i <= j < k :: slots[Wrap(base, j, |slots|)].status != Sleeping
    decreases |slots| - i
  {
    if i == |slots| || slots[Wrap(base, i, |slots|)].status == Sleeping then i else NextSleeping(slots, base, i + 1)
  }

  /** What the process being left becomes. */
  function Left(st: Status): Status {
    match st
    case Running => Sleeping
    case Stopping => Stopped
    case _ => st
  }

  function Apply(t: Table, e: Event): Table
    requires t.cur < |t.slots|
  {
    match e
    case Register(pid) =>
      var k := FirstWith(t.slots, Stopped, 0);
      if |t.slots| >= 256 then t                       // the assertion on the table size
      else if k < |t.slots| then t.(slots := t.slots[k := Slot(pid, Sleeping)])
      else t.(slots := t.slots + [Slot(pid, Sleeping)])
    case Switch =>
      var d := NextSleeping(t.slots, t.cur, 1);
      if d == |t.slots| then t
      else
        var k := Wrap(t.cur, d, |t.slots|);
        var left := t.slots[t.cur].(status := Left(t.slots[t.cur].status));
        Table(t.slots[t.cur := left][k := t.slots[k].(status := Running)], k)
    case Kill(pid) =>
      var k := FirstPid(t.slots, pid, 0);
      if k == |t.slots| then t else t.(slots := t.slots[k := t.slots[k].(status := Killed(t.slots[k].status))])
    case KillCurrent =>
      t.(slots := t.slots[t.cur := t.slots[t.cur].(status := Killed(t.slots[t.cur].status))])
  }

  /** Only the current process is running or stopping; all others sleep or have stopped. */
  ghost predicate Inv(t: Table) {
    && t.cur < |t.slots| <= 256
    && (t.slots[t.cur].status == Running || t.slots[t.cur].status == Stopping)
    && (forall i | 0 <= i < |t.slots| && i != t.cur :: t.slots[i].status == Sleeping || t.slots[i].status == Stopped)
  }

  lemma StepKeepsInv(t: Table, e: Event)
    requires Inv(t)
    ensures Inv(Apply(t, e))
  {
  }

  /** A process that has stopped stays stopped: its slot keeps it until another process is
      registered there, and never makes it current. A sleeping or current process never
      loses its slot. */
  lemma StoppedForGood(t: Table, e: Event, i: nat)
    requires Inv(t) && i < |t.slots|
    ensures var t' := Apply(t, e);
            && i < |t'.slots|
            && (t.slots[i].status == Stopped ==> t'.slots[i] == t.slots[i] || (e.Register? && t'.slots[i] == Slot(e.pid, Sleeping)))
            && (t.slots[i].status == Stopped ==> t'.cur != i)
            && (t.slots[i].status != Stopped ==> t'.slots[i].pid == t.slots[i].pid)
  {
  }

  /** A new process takes the first slot whose process has stopped; the table only grows when there
      is none, and never beyond 256. */
  lemma RegisterPlaces(t: Table, pid: nat, k: nat)
    requires Inv(t) && k <= |t.slots| && forall j | 0 <= j < k :: t.slots[j].status != Stopped
    requires k < |t.slots| ==> t.slots[k].status == Stopped
    ensures var u := Apply(t, Register(pid));
            && u.cur == t.cur
            && u.slots == if |t.slots| == 256 then t.slots
                          else if k < |t.slots| then t.slots[k := Slot(pid, Sleeping)]
                          else t.slots + [Slot(pid, Sleeping)]
  {
    assert FirstWith(t.slots, Stopped, 0) == k;
  }

  // ----- Whole runs -----

  function Run(t: Table, es: seq<Event>): (r: Table)
    requires t.cur < |t.slots|
    ensures r.cur < |r.slots|
    decreases |es|
  {
    if es == [] then t else Run(Apply(t, es[0]), es[1..])
  }

  /** The table `Scheduler`'s constructor leaves. */
  function Initial(pid: nat): Table { Table([Slot(pid, Running)], 0) }

  lemma {:induction false} RunKeepsInv(t: Table, es: seq<Event>)
    requires Inv(t)
    ensures Inv(Run(t, es))
    decreases |es|
  {
    if es != [] {
      StepKeepsInv(t, es[0]);
      RunKeepsInv(Apply(t, es[0]), es[1..]);
    }
  }

  /** Every slot that names the process says it has stopped. */
  ghost predicate Gone(t: Table, pid: nat) {
    forall i | 0 <= i < |t.slots| && t.slots[i].pid == pid :: t.slots[i].status == Stopped
  }

  /** Unless it is registered anew, a process that has stopped is never current again. */
  lemma {:induction false} NeverRunsAgain(t: Table, es: seq<Event>, pid: nat)
    requires Inv(t) && Gone(t, pid)
    requires forall j | 0 <= j < |es| :: es[j] != Register(pid)
    ensures var r := Run(t, es); Gone(r, pid) && r.slots[r.cur].pid != pid
    decreases |es|
  {
    if es != [] {
      StepKeepsInv(t, es[0]);
      NeverRunsAgain(Apply(t, es[0]), es[1..], pid);
    }
  }

  // ----- Killing -----

  /** No two slots name the same process; ids are handed out by counting up. */
  ghost predicate Distinct(t: Table) {
    forall i, j | 0 <= i < j < |t.slots| :: t.slots[i].pid != t.slots[j].pid
  }

  /** The process is on its way out: it is current and will stop when it is left. */
  ghost predicate Leaving(t: Table, pid: nat) {
    && Inv(t) && t.slots[t.cur] == Slot(pid, Stopping)
    && forall i | 0 <= i < |t.slots| && i != t.cur && t.slots[i].pid == pid :: t.slots[i].status == Stopped
  }

  ghost predicate SomeoneSleeps(t: Table) {
    exists i | 0 <= i < |t.slots| :: t.slots[i].status == Sleeping
  }

  /** Killing by id: a sleeping process has stopped, the current one is on its way out. */
  lemma KillStops(t: Table, pid: nat, i: nat)
    requires Inv(t) && Distinct(t) && i < |t.slots| && t.slots[i].pid == pid
    ensures var u := Apply(t, Kill(pid)); if i == t.cur then Leaving(u, pid) else Inv(u) && Gone(u, pid)
  {
    assert FirstPid(t.slots, pid, 0) == i;
  }

  lemma KillCurrentStops(t: Table)
    requires Inv(t) && Distinct(t)
    ensures Leaving(Apply(t, KillCurrent), t.slots[t.cur].pid)
  {
  }

  /** As long as no switch finds a sleeping process, nothing changes for it; the first that does
      stops it. */
  lemma LeavingStep(t: Table, e: Event, pid: nat)
    requires Leaving(t, pid) && e != Register(pid)
    ensures var u := Apply(t, e);
            if e.Switch? && SomeoneSleeps(t) then Inv(u) && Gone(u, pid) else Leaving(u, pid)
  {
    var u := Apply(t, e);
    if e.Switch? {
      var d := NextSleeping(t.slots, t.cur, 1);
      if SomeoneSleeps(t) {
        var i :| 0 <= i < |t.slots| && t.slots[i].status == Sleeping;
        assert Wrap(t.cur, Distance(t, i), |t.slots|) == i && 1 <= Distance(t, i) < |t.slots|;
      }
    }
  }

  lemma {:induction false} LeavingRun(t: Table, es: seq<Event>, pid: nat)
    requires Leaving(t, pid) && forall j | 0 <= j < |es| :: es[j] != Register(pid)
    ensures var r := Run(t, es); Leaving(r, pid) || (Inv(r) && Gone(r, pid))
    decreases |es|
  {
    if es != [] {
      var u := Apply(t, es[0]);
      LeavingStep(t, es[0], pid);
      if Leaving(u, pid) {
        LeavingRun(u, es[1..], pid);
      } else {
        NeverRunsAgain(u, es[1..], pid);
        RunKeepsInv(u, es[1..]);
      }
    }
  }

  lemma {:induction false} RunConcat(t: Table, xs: seq<Event>, ys: seq<Event>)
    requires t.cur < |t.slots|
    ensures Run(t, xs + ys) == Run(Run(t, xs), ys)
    decreases |xs|
  {
    if xs == [] {
      assert xs + ys == ys;
    } else {
      assert (xs + ys)[1..] == xs[1..] + ys;
      RunConcat(Apply(t, xs[0]), xs[1..], ys);
    }
  }

  /** Once a switch, the `k`-th event, has found a sleeping process, a process that was on its way
      out has stopped for good. */
  lemma LeftForGood(t: Table, es: seq<Event>, k: nat, pid: nat)
    requires Leaving(t, pid) && k < |es| && es[k].Switch? && SomeoneSleeps(Run(t, es[..k]))
    requires forall j | 0 <= j < |es| :: es[j] != Register(pid)
    ensures var r := Run(t, es); Gone(r, pid) && r.slots[r.cur].pid != pid
  {
    var a, b := es[..k], es[k..];
    assert es == a + b && b[0] == es[k];
    RunConcat(t, a, b);
    LeavingRun(t, a, pid);
    var u := Run(t, a);
    if Leaving(u, pid) {
      LeavingStep(u, b[0], pid);
      NeverRunsAgain(Apply(u, b[0]), b[1..], pid);
    } else {
      NeverRunsAgain(u, b, pid);
    }
  }

  /** A process that is killed, whichever way, never runs again: at once when it was not the current
      one, else from the first switch on that finds a sleeping process. */
  lemma KilledForGood(t: Table, e: Event, es: seq<Event>, i: nat, k: nat)
    requires Inv(t) && Distinct(t) && i < |t.slots|
    requires e == Kill(t.slots[i].pid) || (e == KillCurrent && i == t.cur)
    requires forall j | 0 <= j < |es| :: es[j] != Register(t.slots[i].pid)
    requires i == t.cur ==> k < |es| && es[k].Switch? && SomeoneSleeps(Run(Apply(t, e), es[..k]))
    ensures var r := Run(Apply(t, e), es); Gone(r, t.slots[i].pid) && r.slots[r.cur].pid != t.slots[i].pid
  {
    var pid := t.slots[i].pid;
    if e.Kill? {
      KillStops(t, pid, i);
    } else {
      KillCurrentStops(t);
    }
    if i == t.cur {
      LeftForGood(Apply(t, e), es, k, pid);
    } else {
      NeverRunsAgain(Apply(t, e), es, pid);
    }
  }

  /** Slot `i` holds a live process: running if it is current, else sleeping. */
  ghost predicate Alive(t: Table, i: nat, pid: nat) {
    Inv(t) && i < |t.slots| && t.slots[i] == Slot(pid, if i == t.cur then Running else Sleeping)
  }

  /** Nobody stops unasked: a process that is not killed, by its id or while it is current, keeps
      its slot and stays alive. */
  lemma {:induction false} StaysAlive(t: Table, es: seq<Event>, i: nat, pid: nat)
    requires Alive(t, i, pid) && Spares(es, pid)
    requires forall k | 0 <= k < |es| && es[k].KillCurrent? :: Run(t, es[..k]).cur != i
    ensures Alive(Run(t, es), i, pid)
    decreases |es|
  {
    if es != [] {
      assert Run(t, es[..0]) == t;
      StepKeepsInv(t, es[0]);
      var u := Apply(t, es[0]);
      forall k | 0 <= k < |es[1..]| && es[1..][k].KillCurrent? ensures Run(u, es[1..][..k]).cur != i {
        assert es[..k + 1][1..] == es[1..][..k];
        assert Run(t, es[..k + 1]).cur != i;
      }
      StaysAlive(u, es[1..], i, pid);
    }
  }

  // ----- Nobody starves -----

  /** How many slots the turn still has to pass before it reaches slot `i`. */
  function Distance(t: Table, i: nat): nat
    requires t.cur < |t.slots| && i < |t.slots|
  {
    if i >= t.cur then i - t.cur else |t.slots| - t.cur + i
  }

  /** Distance plus the registrations that may still lengthen the way. */
  function Waiting(t: Table, i: nat): int
    requires t.cur < |t.slots| && i < |t.slots|
  {
    Distance(t, i) + 256 - |t.slots|
  }

  function Switches(es: seq<Event>): nat {
    if es == [] then 0 else (if es[0].Switch? then 1 else 0) + Switches(es[1..])
  }

  predicate Spares(es: seq<Event>, pid: nat) {
    forall j | 0 <= j < |es| :: es[j] != Kill(pid)
  }

  /** A switch makes the waiting process current or brings the turn closer to it. */
  lemma SwitchProgresses(t: Table, i: nat)
    requires Inv(t) && i < |t.slots| && t.slots[i].status == Sleeping
    ensures var t' := Apply(t, Switch);
            && i < |t'.slots| && t'.slots[i].pid == t.slots[i].pid
            && (t'.cur == i || (t'.slots[i] == t.slots[i] && Waiting(t', i) < Waiting(t, i)))
  {
    var d := Distance(t, i);
    assert Wrap(t.cur, d, |t.slots|) == i;
    assert NextSleeping(t.slots, t.cur, 1) <= d;
  }

  /** Anything else that does not kill the process leaves it waiting no longer than before. */
  lemma OthersDoNotDelay(t: Table, e: Event, i: nat)
    requires Inv(t) && i < |t.slots| && t.slots[i].status == Sleeping
    requires !e.Switch? && e != Kill(t.slots[i].pid)
    ensures var t' := Apply(t, e);
            i < |t'.slots| && t'.slots[i] == t.slots[i] && t'.cur == t.cur && Waiting(t', i) <= Waiting(t, i)
  {
  }

  /** Starvation freedom: whatever else is registered or killed meanwhile, a sleeping process
      that is not killed is made current within `Waiting` switches, and so within 255. */
  lemma {:induction false} BecomesCurrent(t: Table, es: seq<Event>, i: nat)
    requires Inv(t) && i < |t.slots| && t.slots[i].status == Sleeping
    requires Spares(es, t.slots[i].pid) && Switches(es) >= Waiting(t, i)
    ensures exists k | 0 <= k <= |es| :: var r := Run(t, es[..k]); r.cur == i && r.slots[i].pid == t.slots[i].pid
    decreases |es|
  {
    assert Waiting(t, i) > 0;
    var t' := Apply(t, es[0]);
    StepKeepsInv(t, es[0]);
    if es[0].Switch? {
      SwitchProgresses(t, i);
    } else {
      OthersDoNotDelay(t, es[0], i);
    }
    if t'.cur == i {
      assert es[..1][0] == es[0] && es[..1][1..] == [];
      assert Run(t, es[..1]) == t';
    } else {
      BecomesCurrent(t', es[1..], i);
      var k :| 0 <= k <= |es[1..]| && var r := Run(t', es[1..][..k]); r.cur == i && r.slots[i].pid == t.slots[i].pid;
      assert es[..k + 1][1..] == es[1..][..k];
      assert Run(t, es[..k + 1]) == Run(t', es[1..][..k]);
    }
  }

  lemma WithinOneRound(t: Table, es: seq<Event>, i: nat)
    requires Inv(t) && i < |t.slots| && t.slots[i].status == Sleeping
    requires Spares(es, t.slots[i].pid) && Switches(es) >= 255
    ensures exists k | 0 <= k <= |es| :: var r := Run(t, es[..k]); r.cur == i && r.slots[i].pid == t.slots[i].pid
  {
    BecomesCurrent(t, es, i);
  }

  // ----- The code -----

  class Process {
    const pid: nat
    var status: Status
    var index: nat

    constructor (pid: nat)
      ensures this.pid == pid && status == NotInitialized
    {
      this.pid := pid;
      status := NotInitialized;
      index := 0;
    }

    /** `InitAsEphemeralProcess` and `InitAsPersistentProcess`, as far as the status goes. */
    method Init()
      requires status == NotInitialized
      modifies this
      ensures status == NotScheduled && index == old(index)
    {
      status := NotScheduled;
    }

    method Kill()
      modifies this`status
      ensures status == Killed(old(status))
      ensures old(status) == Sleeping ==> status == Stopped
      ensures old(status) == Running ==> status == Stopping
      ensures old(status) != Sleeping && old(status) != Running ==> status == old(status)
    {
      match status {
        case NotInitialized | NotScheduled =>
        case Sleeping => status := Stopped;
        case Running => status := Stopping;
        case Stopping | Stopped =>
      }
    }
  }

  class Scheduler {
    const process: array<Process?>
    var number: nat
    var current: Process
    ghost var table: Table

    /** The processes in the table. */
    ghost function Procs(): set<Process>
      reads this, process
    {
      set i | 0 <= i < process.Length && process[i] != null :: process[i]
    }

    /** Slot `i` holds a process that knows its slot and is as the table says. */
    ghost predicate SlotOk(i: nat)
      reads this, process, Procs()
      requires i < process.Length && i < |table.slots|
    {
      process[i] != null && process[i].index == i && table.slots[i] == Slot(process[i].pid, process[i].status)
    }

    ghost predicate Valid()
      reads this, process, Procs()
    {
      && process.Length == 256 && number == |table.slots|
      && Inv(table)
      && (forall i | 0 <= i < number :: SlotOk(i))
      && process[table.cur] == current
    }

    lemma EachSlot()
      requires Valid()
      ensures forall j | 0 <= j < number ::
                && process[j] != null && process[j].index == j && process[j] in Procs()
                && table.slots[j] == Slot(process[j].pid, process[j].status)
    {
      forall j | 0 <= j < number
        ensures process[j] != null && process[j].index == j && process[j] in Procs()
        ensures table.slots[j] == Slot(process[j].pid, process[j].status)
      {
        assert SlotOk(j);
      }
    }

    constructor (root: Process)
      requires root.status == NotScheduled
      modifies root
      ensures Valid() && fresh(process) && table == Initial(root.pid) && current == root
    {
      process := new Process?[256](i => null);
      number := 0;
      current := root;
      table := Initial(root.pid);
      new;
      process[0] := root;
      root.index := 0;
      number := 1;
      root.status := Running;
    }

    /** `RegisterProcess`: into the first slot whose process has stopped, else a new slot. */
    method RegisterProcess(proc: Process)
      requires Valid() && number < 256 && proc.status == NotScheduled
      modifies this, process, proc
      ensures Valid() && table == Apply(old(table), Register(proc.pid))
      ensures proc.status == Sleeping && proc.index < number && process[proc.index] == proc && current == old(current)
    {
      EachSlot();
      var i := 0;
      while i < number && process[i].status != Stopped
        invariant 0 <= i <= number && unchanged(this) && unchanged(process) && unchanged(proc)
        invariant forall j | 0 <= j < i :: table.slots[j].status != Stopped
      {
        i := i + 1;
      }
      ghost var t := table;
      assert FirstWith(t.slots, Stopped, 0) == i;
      process[i] := proc;
      proc.index := i;
      proc.status := Sleeping;
      if i == number {
        number := number + 1;
      }
      table := Apply(t, Register(proc.pid));
      StepKeepsInv(t, Register(proc.pid));
      forall j | 0 <= j < number ensures SlotOk(j) {
      }
    }

    /** The process `d` slots further, the next sleeping one, takes over. */
    method TakeOver(proc: Process, ghost d: nat)
      requires Valid() && 1 <= d < number && NextSleeping(table.slots, table.cur, 1) == d
      requires proc == process[Wrap(table.cur, d, number)]
      modifies this, Procs()
      ensures Valid() && table == Apply(old(table), Switch) && current == proc
    {
      EachSlot();
      ghost var t := table;
      if current.status == Running {
        current.status := Sleeping;
      } else if current.status == Stopping {
        current.status := Stopped;
      }
      proc.status := Running;
      current := proc;
      table := Apply(t, Switch);
      StepKeepsInv(t, Switch);
      forall j | 0 <= j < number ensures SlotOk(j) {
      }
    }

    /** `SwitchProcess`: the next sleeping process in the table takes over; null when there is
        none, and then the current process goes on. */
    method SwitchProcess() returns (next: Process?)
      requires Valid()
      modifies this, Procs()
      ensures Valid() && table == Apply(old(table), Switch)
      ensures next == null <==> forall i | 0 <= i < number :: old(table).slots[i].status != Sleeping
      ensures current == if next == null then old(current) else next
    {
      EachSlot();
      ghost var t := table;
      var base := current.index;
      var i := 1;
      while i < number
        invariant 1 <= i <= number && unchanged(this) && unchanged(Procs())
        invariant forall j | 1 <= j < i :: t.slots[Wrap(base, j, number)].status != Sleeping
      {
        var k := (base + i) % number;
        WrapIsMod(base, i, number);
        var proc := process[k];
        if proc.status == Sleeping {
          TakeOver(proc, i);
          return proc;
        }
        i := i + 1;
      }
      assert NextSleeping(t.slots, base, 1) == number;
      NoneSleeping(t);
      return null;
    }

    /** `Kill`: the first process with that id. */
    method Kill(pid: nat)
      requires Valid()
      modifies this, Procs()
      ensures Valid() && table == Apply(old(table), Event.Kill(pid)) && current == old(current)
    {
      EachSlot();
      ghost var t := table;
      var i := 0;
      while i < number
        invariant 0 <= i <= number && unchanged(this) && unchanged(Procs())
        invariant forall j | 0 <= j < i :: t.slots[j].pid != pid
      {
        var proc := process[i];
        if proc.pid == pid {
          assert FirstPid(t.slots, pid, 0) == i;
          proc.Kill();
          table := Apply(t, Event.Kill(pid));
          StepKeepsInv(t, Event.Kill(pid));
          forall j | 0 <= j < number ensures SlotOk(j) {
          }
          return;
        }
        i := i + 1;
      }
      assert FirstPid(t.slots, pid, 0) == number;
    }

    method KillCurrentProcess()
      requires Valid()
      modifies this, Procs()
      ensures Valid() && table == Apply(old(table), KillCurrent) && current == old(current)
    {
      EachSlot();
      ghost var t := table;
      current.Kill();
      table := Apply(t, KillCurrent);
      StepKeepsInv(t, KillCurrent);
      forall j | 0 <= j < number ensures SlotOk(j) {
      }
    }
  }

  /** When the round finds nobody, nobody sleeps anywhere. */
  lemma NoneSleeping(t: Table)
    requires Inv(t) && NextSleeping(t.slots, t.cur, 1) == |t.slots|
    ensures forall i | 0 <= i < |t.slots| :: t.slots[i].status != Sleeping
  {
    forall i | 0 <= i < |t.slots| ensures t.slots[i].status != Sleeping {
      if i != t.cur {
        var d := Distance(t, i);
        assert Wrap(t.cur, d, |t.slots|) == i;
      }
    }
  }
}
