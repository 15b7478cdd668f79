/** The ring of transfer request blocks shared with the USB host controller. Software fills
    the next entry and hands it over by writing its cycle bit; entry N is a link that sends
    the controller back to the start and toggles the cycle state it expects. */
module TransferRing {
  import opened Basics
  import opened Trbs

  /** Entries 0 to N, the next entry to fill, and the cycle bit to hand over with. */
  datatype Ring = Ring(entry: seq<Trb>, next: nat, cycle: nat)
  {
    function N(): int { |entry| - 1 }
  }

  /** The controller: the entry it looks at and the cycle state it expects. */
  datatype Controller = Controller(index: nat, cycle: nat)

  // ----- The producer -----

  predicate RingOk(r: Ring) {
    |r.entry| >= 2 && r.next < r.N() && r.cycle <= 1
  }

  /** Fill the next entry and `Push`. */
  function Push(r: Ring, p: int): Ring
    requires RingOk(r)
  {
    var e := r.entry[r.next := Trb(p, r.cycle)];
    if r.next + 1 == r.N() then
      Ring(e[r.N() := e[r.N()].(cycle := r.cycle)], 0, 1 - r.cycle)
    else Ring(e, r.next + 1, r.cycle)
  }

  // ----- The consumer, as the xHCI specification has it -----

  predicate CanAdvance(r: Ring, c: Controller)
    requires c.index < |r.entry|
  {
    r.entry[c.index].cycle == c.cycle
  }

  /** One step: stop on a cycle mismatch, follow the link, or consume a request. */
  function Poll(r: Ring, c: Controller): (Controller, Option<int>)
    requires c.index < |r.entry| && c.cycle <= 1
  {
    if !CanAdvance(r, c) then (c, None)
    else if c.index == r.N() then (Controller(0, 1 - c.cycle), None)
    else (Controller(c.index + 1, c.cycle), Some(r.entry[c.index].payload))
  }

  // ----- Both together -----

  datatype Sys = Sys(ring: Ring, ctrl: Controller, pushed: seq<int>, consumed: seq<int>)

  datatype Event = Enqueue(p: int) | Step

  /** Requests handed over and not yet consumed, read off the ring. */
  function Outstanding(r: Ring, c: Controller): seq<int>
    requires RingOk(r) && c.index <= r.N()
  {
    if c.cycle == r.cycle
    then if c.index <= r.next then Payloads(r.entry[c.index..r.next]) else []
    else Payloads(r.entry[c.index..r.N()]) + Payloads(r.entry[..r.next])
  }

  /** Entries filled in this round carry the current cycle bit, all others the other one; the
      controller is behind the producer in the same round, or ahead of it a round earlier. */
  ghost predicate InStep(r: Ring, c: Controller) {
    && RingOk(r) && c.index <= r.N() && c.cycle <= 1
    && (forall i | 0 <= i < r.next :: r.entry[i].cycle == r.cycle)
    && (forall i | r.next <= i <= r.N() :: r.entry[i].cycle == 1 - r.cycle)
    && (if c.cycle == r.cycle then c.index <= r.next else r.next <= c.index)
  }

  /** What was pushed is what was consumed followed by what is outstanding. */
  ghost predicate Inv(s: Sys) {
    InStep(s.ring, s.ctrl) && s.consumed + Outstanding(s.ring, s.ctrl) == s.pushed
  }

  /** There is room, and the link is not rewritten while the controller is still on it. */
  predicate MayPush(r: Ring, c: Controller)
    requires RingOk(r) && c.index <= r.N()
  {
    |Outstanding(r, c)| < r.N() && !(c.index == r.N() && r.next == r.N() - 1)
  }

  /** With fewer than N requests outstanding after it, a push is always allowed. */
  lemma RoomSuffices(s: Sys)
    requires Inv(s) && |Outstanding(s.ring, s.ctrl)| + 1 < s.ring.N()
    ensures MayPush(s.ring, s.ctrl)
  {
  }

  function Apply(s: Sys, e: Event): Sys
    requires RingOk(s.ring) && s.ctrl.index <= s.ring.N() && s.ctrl.cycle <= 1
  {
    match e
    case Enqueue(p) => if MayPush(s.ring, s.ctrl) then s.(ring := Push(s.ring, p), pushed := s.pushed + [p]) else s
    case Step =>
      var (c, out) := Poll(s.ring, s.ctrl);
      s.(ctrl := c, consumed := if out.Some? then s.consumed + [out.value] else s.consumed)
  }

  lemma PushInStep(r: Ring, c: Controller, p: int)
    requires InStep(r, c) && MayPush(r, c)
    ensures InStep(Push(r, p), c)
  {
  }

  lemma PushAppends(r: Ring, c: Controller, p: int)
    requires InStep(r, c) && MayPush(r, c)
    ensures RingOk(Push(r, p)) && c.index <= Push(r, p).N()
    ensures Outstanding(Push(r, p), c) == Outstanding(r, c) + [p]
  {
    var r' := Push(r, p);
    if c.cycle == r.cycle {
      assert r'.entry[c.index..r.next + 1] == r.entry[c.index..r.next] + [Trb(p, r.cycle)];
      PayloadsAppend(r.entry[c.index..r.next], Trb(p, r.cycle));
    } else {
      assert r'.entry[..r.next + 1] == r.entry[..r.next] + [Trb(p, r.cycle)];
      assert r'.entry[c.index..r.N()] == r.entry[c.index..r.N()];
      PayloadsAppend(r.entry[..r.next], Trb(p, r.cycle));
      Regroup(Payloads(r.entry[c.index..r.N()]), Payloads(r.entry[..r.next]), [p]);
    }
  }

  lemma EnqueueOk(s: Sys, p: int)
    requires Inv(s) && MayPush(s.ring, s.ctrl)
    ensures Inv(Apply(s, Enqueue(p)))
  {
    PushInStep(s.ring, s.ctrl, p);
    PushAppends(s.ring, s.ctrl, p);
    Regroup(s.consumed, Outstanding(s.ring, s.ctrl), [p]);
  }

  lemma PollTakes(r: Ring, c: Controller)
    requires InStep(r, c)
    ensures var (c', out) := Poll(r, c);
            && InStep(r, c')
            && Outstanding(r, c) == (if out.Some? then [out.value] else []) + Outstanding(r, c')
  {
  }

  lemma StepOk(s: Sys)
    requires Inv(s)
    ensures Inv(Apply(s, Step))
  {
    var (c, out) := Poll(s.ring, s.ctrl);
    var taken := if out.Some? then [out.value] else [];
    PollTakes(s.ring, s.ctrl);
    Regroup(s.consumed, taken, Outstanding(s.ring, c));
    assert Apply(s, Step).consumed == s.consumed + taken;
  }

  /** The controller is never stuck on handed-over requests, and stops when there are none. */
  lemma AdvancesWhileOutstanding(s: Sys)
    requires Inv(s)
    ensures Outstanding(s.ring, s.ctrl) != [] ==> CanAdvance(s.ring, s.ctrl)
    ensures Outstanding(s.ring, s.ctrl) == [] && s.ctrl.index < s.ring.N() ==> !CanAdvance(s.ring, s.ctrl)
  {
  }

  /** A push into a ring with room is right exactly when it does not rewrite the link under
      the controller: otherwise the controller stops there, with N requests waiting. */
  lemma LinkMustBePassed(s: Sys, p: int)
    requires Inv(s) && |Outstanding(s.ring, s.ctrl)| < s.ring.N()
    ensures MayPush(s.ring, s.ctrl) <==> CanAdvance(Push(s.ring, p), s.ctrl)
  {
    if MayPush(s.ring, s.ctrl) {
      PushAppends(s.ring, s.ctrl, p);
      EnqueueOk(s, p);
      AdvancesWhileOutstanding(Apply(s, Enqueue(p)));
    }
  }

  // ----- Whole runs -----

  /** The state after `Init`: every cycle bit clear, the controller expecting 1 at entry 0. */
  function Start(entry: seq<Trb>): Sys {
    Sys(Ring(entry, 0, 1), Controller(0, 1), [], [])
  }

  lemma ApplyOk(s: Sys, e: Event)
    requires Inv(s)
    ensures Inv(Apply(s, e))
  {
    if e.Step? {
      StepOk(s);
    } else if MayPush(s.ring, s.ctrl) {
      EnqueueOk(s, e.p);
    }
  }

  ghost function Run(s: Sys, es: seq<Event>): (t: Sys)
    requires Inv(s)
    ensures Inv(t)
    decreases |es|
  {
    if es == [] then s
    else
      ApplyOk(s, es[0]);
      Run(Apply(s, es[0]), es[1..])
  }

  /** Over every run, for every ring size, the controller consumes the pushed requests, each
      once and in order, and exactly the outstanding ones are still in the ring. */
  lemma {:induction false} ConsumesInOrder(entry: seq<Trb>, es: seq<Event>)
    requires |entry| >= 2 && forall i | 0 <= i < |entry| :: entry[i].cycle == 0
    ensures Inv(Start(entry))
    ensures var t := Run(Start(entry), es);
            t.consumed <= t.pushed && t.pushed[|t.consumed|..] == Outstanding(t.ring, t.ctrl)
  {
    var t := Run(Start(entry), es);
    assert Inv(t);
    assert t.pushed == t.consumed + Outstanding(t.ring, t.ctrl);
  }

  /** The case to avoid is real: in a ring of one entry, push and consume one request, and the
      controller stands on the link with nothing outstanding; the next push stops it there. */
  lemma StuckOnLink(p: int, q: int)
    ensures var start := Start([Trb(0, 0), Trb(0, 0)]);
            && Inv(start)
            && var s := Run(start, [Enqueue(p), Step]);
            Outstanding(s.ring, s.ctrl) == [] && !CanAdvance(Push(s.ring, q), s.ctrl)
  {
    var start := Start([Trb(0, 0), Trb(0, 0)]);
    var s1 := PushedOne(start, p);
    assert [Enqueue(p), Step][1..] == [Step] && [Step][1..] == [];
    var s2 := Apply(s1, Step);
    assert s2.ctrl == Controller(1, 1);
    assert Run(s1, [Step]) == Run(s2, []) == s2;
  }

  lemma PushedOne(start: Sys, p: int) returns (s1: Sys)
    requires start == Start([Trb(0, 0), Trb(0, 0)])
    ensures Inv(start) && s1 == Apply(start, Enqueue(p)) && Inv(s1)
    ensures s1.ring == Ring([Trb(p, 1), Trb(0, 1)], 0, 0) && s1.ctrl == start.ctrl
  {
    s1 := Apply(start, Enqueue(p));
    ApplyOk(start, Enqueue(p));
  }

  // ----- The code -----

  class TransferRequestBlockRing {
    const n: nat
    const entry: array<Trb>
    var next: nat
    var cycle: nat

    ghost function Abs(): Ring
      reads this, entry
    {
      Ring(entry[..], next, cycle)
    }

    ghost predicate Valid()
      reads this, entry
    {
      n >= 1 && entry.Length == n + 1 && RingOk(Abs())
    }

    /** `AdvanceEnqueueIndexAndUpdateCycleBit`. */
    method Advance()
      requires entry.Length == n + 1 && next <= n
      modifies this`next, entry
      ensures next == old(next) + 1
      ensures entry[..] == old(entry[..])[old(next) := old(entry[next]).(cycle := cycle)]
    {
      entry[next] := entry[next].(cycle := cycle);
      next := next + 1;
    }

    /** `Push` of an entry already filled. */
    method PushEntry() returns (consumerCycle: nat)
      requires Valid()
      modifies this, entry
      ensures Valid() && consumerCycle == old(cycle)
      ensures Abs() == Push(old(Abs()), old(entry[next].payload))
    {
      consumerCycle := cycle;
      Advance();
      if next == n {
        Advance();
        next := 0;
        cycle := 1 - cycle;
      }
    }

    method Enqueue(p: int) returns (consumerCycle: nat)
      requires Valid()
      modifies this, entry
      ensures Valid() && consumerCycle == old(cycle) && Abs() == Push(old(Abs()), p)
    {
      entry[next] := entry[next].(payload := p);
      consumerCycle := PushEntry();
    }

    /** `Init`: one full round of pushes leaves every cycle bit clear and the cycle state 1. */
    constructor (n: nat, entry: array<Trb>)
      requires n >= 1 && entry.Length == n + 1
      modifies entry
      ensures Valid() && this.n == n && this.entry == entry && next == 0 && cycle == 1
      ensures forall i | 0 <= i <= n :: entry[i].cycle == 0
      ensures Inv(Start(entry[..]))
    {
      this.n := n;
      this.entry := entry;
      next := 0;
      cycle := 0;
      new;
      entry[n] := entry[n].(cycle := 0);
      var i := 0;
      while i < n
        invariant 0 <= i <= n && Valid()
        invariant if i < n then next == i && cycle == 0 else next == 0 && cycle == 1
        invariant forall j | 0 <= j < i :: entry[j].cycle == 0
        invariant entry[n].cycle == 0
      {
        var _ := PushEntry();
        i := i + 1;
      }
    }
  }
}
