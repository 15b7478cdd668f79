/** The event ring: the host controller posts, software consumes. There is no link entry; both
    sides wrap by themselves and toggle their cycle bit. The controller sees how far software
    has come only through the dequeue pointer, which software sets to the event it is just
    about to leave, one behind its own index. */
module EventRing {
  import opened Trbs

  /** Memory, the software side, the hardware side, and what went in and out. */
  datatype Sys = Sys(trbs: seq<Trb>, index: nat, cycle: nat, erdp: nat, enq: nat, pcs: nat, posted: seq<int>, popped: seq<int>)
  {
    function N(): nat { |trbs| }

    predicate Shaped() {
      N() > 0 && index < N() && enq < N() && erdp < N() && cycle <= 1 && pcs <= 1
    }
  }

  function Next(i: nat, n: nat): nat { if i + 1 == n then 0 else i + 1 }

  function Prev(i: nat, n: nat): nat
    requires n > 0
  {
    if i == 0 then n - 1 else i - 1
  }

  datatype Event = Post(p: int) | Pop

  /** The controller treats the ring as full when its next entry is the dequeue pointer. */
  predicate Full(s: Sys) { Next(s.enq, s.N()) == s.erdp }

  predicate HasNextEvent(s: Sys)
    requires s.Shaped()
  {
    s.trbs[s.index].cycle == s.cycle
  }

  function Apply(s: Sys, e: Event): Sys
    requires s.Shaped()
  {
    match e
    case Post(p) =>
      if Full(s) then s
      else s.(trbs := s.trbs[s.enq := Trb(p, s.pcs)], enq := Next(s.enq, s.N()),
              pcs := if s.enq + 1 == s.N() then 1 - s.pcs else s.pcs, posted := s.posted + [p])
    case Pop =>
      if !HasNextEvent(s) then s
      else s.(erdp := s.index, index := Next(s.index, s.N()),
              cycle := if s.index + 1 == s.N() then 1 - s.cycle else s.cycle,
              popped := s.popped + [s.trbs[s.index].payload])
  }

  /** Events posted and not yet popped, read off the ring. */
  function Pending(s: Sys): seq<int>
    requires s.Shaped()
  {
    if s.cycle == s.pcs
    then if s.index <= s.enq then Payloads(s.trbs[s.index..s.enq]) else []
    else Payloads(s.trbs[s.index..]) + Payloads(s.trbs[..s.enq])
  }

  /** Bits, positions, the lagging dequeue pointer, and room for at least one entry. */
  ghost predicate InStep(s: Sys) {
    && s.Shaped()
    && (forall i | 0 <= i < s.enq :: s.trbs[i].cycle == s.pcs)
    && (forall i | s.enq <= i < s.N() :: s.trbs[i].cycle == 1 - s.pcs)
    && (if s.cycle == s.pcs then s.index <= s.enq else s.enq < s.index)
    && (if s.popped == [] then s.erdp == s.index == 0 else s.erdp == Prev(s.index, s.N()))
    && |Pending(s)| + (if s.popped == [] then 0 else 1) < s.N()
  }

  ghost predicate Inv(s: Sys) {
    InStep(s) && s.popped + Pending(s) == s.posted
  }

  /** Although software reports its position one event late, a controller that stops at the
      dequeue pointer never overwrites an event that was not popped. */
  lemma PostInStep(s: Sys, p: int)
    requires InStep(s) && !Full(s)
    ensures InStep(Apply(s, Post(p)))
  {
  }

  lemma PostAppends(s: Sys, p: int)
    requires InStep(s) && !Full(s)
    ensures Apply(s, Post(p)).Shaped() && Pending(Apply(s, Post(p))) == Pending(s) + [p]
  {
    var t := Apply(s, Post(p));
    if s.cycle == s.pcs {
      assert t.trbs[s.index..s.enq + 1] == s.trbs[s.index..s.enq] + [Trb(p, s.pcs)];
    } else {
      assert t.trbs[..s.enq + 1] == s.trbs[..s.enq] + [Trb(p, s.pcs)];
      assert t.trbs[s.index..] == s.trbs[s.index..];
    }
  }

  /** Software finds an event exactly when one is pending, and it is the oldest. */
  lemma FindsOldest(s: Sys)
    requires InStep(s)
    ensures HasNextEvent(s) <==> Pending(s) != []
    ensures HasNextEvent(s) ==> Pending(s)[0] == s.trbs[s.index].payload
  {
  }

  /** In the second round the pending events are the rest of the ring and its start. */
  lemma PopPendingWrapped(trbs: seq<Trb>, index: nat, enq: nat)
    requires enq <= index < |trbs|
    ensures Payloads(trbs[index..]) + Payloads(trbs[..enq])
         == [trbs[index].payload] + (Payloads(trbs[index + 1..]) + Payloads(trbs[..enq]))
  {
    SliceFirst(trbs, index, |trbs|);
    assert trbs[index..|trbs|] == trbs[index..] && trbs[index + 1..|trbs|] == trbs[index + 1..];
    Regroup([trbs[index].payload], Payloads(trbs[index + 1..]), Payloads(trbs[..enq]));
  }

  /** Where the consumer stands, as far as the pending events are concerned. */
  predicate HasRoom(s: Sys) {
    s.Shaped() && if s.cycle == s.pcs then s.index < s.enq else s.enq <= s.index
  }

  lemma FindsRoom(s: Sys)
    requires InStep(s) && HasNextEvent(s)
    ensures HasRoom(s)
  {
  }

  lemma PopPendingStraight(s: Sys)
    requires HasRoom(s) && s.cycle == s.pcs && HasNextEvent(s)
    ensures Apply(s, Pop).Shaped() && Pending(s) == [s.trbs[s.index].payload] + Pending(Apply(s, Pop))
  {
    SliceFirst(s.trbs, s.index, s.enq);
  }

  lemma PopPendingEnd(s: Sys)
    requires HasRoom(s) && s.cycle != s.pcs && HasNextEvent(s) && s.index + 1 == s.N()
    ensures Apply(s, Pop).Shaped() && Pending(s) == [s.trbs[s.index].payload] + Pending(Apply(s, Pop))
  {
    PopPendingWrapped(s.trbs, s.index, s.enq);
    assert s.trbs[0..s.enq] == s.trbs[..s.enq] && s.trbs[s.N()..] == [];
    assert Payloads([]) + Payloads(s.trbs[..s.enq]) == Payloads(s.trbs[..s.enq]);
  }

  lemma PopPendingMiddle(s: Sys, t: Sys)
    requires HasRoom(s) && s.cycle != s.pcs && s.index + 1 < s.N()
    requires t.Shaped() && t.trbs == s.trbs && t.index == s.index + 1
    requires t.cycle == s.cycle && t.pcs == s.pcs && t.enq == s.enq
    ensures Pending(s) == [s.trbs[s.index].payload] + Pending(t)
  {
    PopPendingWrapped(s.trbs, s.index, s.enq);
  }

  lemma PopPending(s: Sys)
    requires HasRoom(s) && HasNextEvent(s)
    ensures Apply(s, Pop).Shaped() && Pending(s) == [s.trbs[s.index].payload] + Pending(Apply(s, Pop))
  {
    if s.cycle == s.pcs {
      PopPendingStraight(s);
    } else if s.index + 1 == s.N() {
      PopPendingEnd(s);
    } else {
      PopPendingMiddle(s, Apply(s, Pop));
    }
  }

  lemma PopTakes(s: Sys)
    requires InStep(s) && HasNextEvent(s)
    ensures InStep(Apply(s, Pop)) && Pending(s) == [s.trbs[s.index].payload] + Pending(Apply(s, Pop))
  {
    FindsRoom(s);
    PopPending(s);
    assert |Pending(Apply(s, Pop))| == |Pending(s)| - 1;
  }

  lemma ApplyOk(s: Sys, e: Event)
    requires Inv(s)
    ensures Inv(Apply(s, e))
  {
    if e.Post? && !Full(s) {
      PostInStep(s, e.p);
      PostAppends(s, e.p);
      Regroup(s.popped, Pending(s), [e.p]);
    } else if e.Pop? && HasNextEvent(s) {
      PopTakes(s);
      Regroup(s.popped, [s.trbs[s.index].payload], Pending(Apply(s, Pop)));
    }
  }

  // ----- Whole runs -----

  /** A zeroed ring, software expecting cycle 1, the controller posting with cycle 1. */
  function Start(trbs: seq<Trb>): Sys { Sys(trbs, 0, 1, 0, 0, 1, [], []) }

  ghost function Run(s: Sys, es: seq<Event>): (t: Sys)
    requires Inv(s)
    ensures Inv(t)
    decreases |es|
  {
    if es == [] then s
    else
      ApplyOk(s, es[0]);
      Run(Apply(s, es[0]), es[1..])
  }

  /** Over every run and for every ring size, software pops the posted events, each once and in
      order, and sees an event whenever one is waiting. */
  lemma PopsInOrder(trbs: seq<Trb>, es: seq<Event>)
    requires |trbs| > 0 && forall i | 0 <= i < |trbs| :: trbs[i].cycle == 0
    ensures Inv(Start(trbs))
    ensures var t := Run(Start(trbs), es);
            && t.popped <= t.posted
            && (HasNextEvent(t) <==> |t.popped| < |t.posted|)
            && (HasNextEvent(t) ==> t.trbs[t.index].payload == t.posted[|t.popped|])
  {
    assert Pending(Start(trbs)) == [];
    var t := Run(Start(trbs), es);
    assert Inv(t);
    FindsOldest(t);
  }

  // ----- The code -----

  class SoftwareRing {
    const n: nat
    const trbs: array<Trb>
    var index: nat
    var cycle: nat
    var erdp: nat
    /** The hardware side and the history, for the specification. */
    ghost var sys: Sys

    ghost predicate Valid()
      reads this, trbs
    {
      && trbs.Length == n && sys.Shaped()
      && sys.trbs == trbs[..] && sys.index == index && sys.cycle == cycle && sys.erdp == erdp
    }

    constructor (n: nat)
      requires n > 0
      ensures Valid() && this.n == n && fresh(trbs) && Inv(sys) && sys == Start(trbs[..])
    {
      this.n := n;
      trbs := new Trb[n](i => Trb(0, 0));
      index, cycle, erdp := 0, 1, 0;
      new;
      sys := Start(trbs[..]);
      assert Pending(sys) == [];
    }

    method HasNext() returns (b: bool)
      requires Valid()
      ensures b == HasNextEvent(sys)
    {
      b := trbs[index].cycle == cycle;
    }

    /** `PeekEvent` followed by `PopEvent`. */
    method PopEvent() returns (p: int)
      requires Valid() && HasNextEvent(sys)
      modifies this
      ensures Valid() && sys == Apply(old(sys), Pop) && p == old(trbs[index].payload)
    {
      p := trbs[index].payload;
      erdp := index;
      index := index + 1;
      if index == n {
        cycle := 1 - cycle;
        index := 0;
      }
      sys := Apply(sys, Pop);
    }
  }
}
