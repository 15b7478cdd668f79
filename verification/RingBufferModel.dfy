/** The ring buffer between an interrupt handler that pushes and a task that pops. Neither
    takes a lock; each reads the other's index once per call. */
module RingBufferModel {
  import opened Basics

  // ----- Interleaved steps -----

  /** Where a `Push` stands: between calls, past its test of `readp_`, past its store. */
  datatype Producer = Ready | Tested(value: int) | Stored(value: int)

  /** Where a `Pop` stands: between calls, past its test of `writep_`, past its load. */
  datatype Consumer = Waiting | Found | Loaded(value: int)

  /** Shared memory, both program counters, and the values that went in and came out. */
  datatype State = State(elements: seq<int>, readp: nat, writep: nat, prod: Producer, cons: Consumer,
                         accepted: seq<int>, popped: seq<int>)
  {
    function N(): nat { |elements| }
  }

  /** Each event is one access to shared memory. */
  datatype Event = PushTest(value: int) | PushStore | PushPublish | PopTest | PopLoad | PopRelease

  predicate Shaped(s: State) { s.readp < s.N() && s.writep < s.N() }

  /** `Push` gives up when the slot after the next one is the reader's. */
  predicate LooksFull(s: State)
    requires Shaped(s)
  {
    Wrap(s.writep, 1, s.N()) == s.readp
  }

  function Apply(s: State, e: Event): State
    requires Shaped(s)
  {
    match e
    case PushTest(v) =>
      if s.prod.Ready? && !LooksFull(s) then s.(prod := Tested(v), accepted := s.accepted + [v]) else s
    case PushStore =>
      if s.prod.Tested? then s.(elements := s.elements[s.writep := s.prod.value], prod := Stored(s.prod.value)) else s
    case PushPublish =>
      if s.prod.Stored? then s.(writep := Wrap(s.writep, 1, s.N()), prod := Ready) else s
    case PopTest =>
      if s.cons.Waiting? && s.readp != s.writep then s.(cons := Found) else s
    case PopLoad =>
      if s.cons.Found? then s.(cons := Loaded(s.elements[s.readp])) else s
    case PopRelease =>
      if s.cons.Loaded? then s.(readp := Wrap(s.readp, 1, s.N()), cons := Waiting, popped := s.popped + [s.cons.value]) else s
  }

  /** Number of published elements. */
  function Count(s: State): nat
    requires Shaped(s)
  {
    if s.readp <= s.writep then s.writep - s.readp else s.N() - s.readp + s.writep
  }

  /** Value `j` in line sits `j` places after the reader. */
  predicate InLine(s: State, j: nat)
    requires Shaped(s) && |s.popped| + j < |s.accepted| && j < s.N()
  {
    s.elements[Wrap(s.readp, j, s.N())] == s.accepted[|s.popped| + j]
  }

  ghost predicate Inv(s: State) {
    && Shaped(s)
    && |s.accepted| == |s.popped| + Count(s) + (if s.prod.Ready? then 0 else 1)
    && s.popped <= s.accepted
    && (forall j | 0 <= j < Count(s) :: InLine(s, j))
    && (!s.prod.Ready? ==> Count(s) + 2 <= s.N() && s.accepted[|s.accepted| - 1] == s.prod.value)
    && (s.prod.Stored? ==> s.elements[s.writep] == s.prod.value)
    && (!s.cons.Waiting? ==> Count(s) > 0)
    && (s.cons.Loaded? ==> s.cons.value == s.accepted[|s.popped|])
  }

  lemma PushOk(s: State, e: Event)
    requires Inv(s) && (e.PushTest? || e.PushStore? || e.PushPublish?)
    ensures Inv(Apply(s, e))
  {
    var t := Apply(s, e);
    forall j | 0 <= j < Count(t) ensures InLine(t, j) {
      assert j < Count(s) ==> InLine(s, j);
    }
  }

  /** Releasing a slot moves everybody in line one place forward. */
  lemma ReleaseOk(s: State)
    requires Inv(s) && s.cons.Loaded?
    ensures Inv(Apply(s, PopRelease))
  {
    var t := Apply(s, PopRelease);
    assert Count(t) == Count(s) - 1;
    forall j | 0 <= j < Count(t) ensures InLine(t, j) {
      assert InLine(s, j + 1);
      assert Wrap(t.readp, j, s.N()) == Wrap(s.readp, j + 1, s.N());
    }
  }

  lemma PopOk(s: State, e: Event)
    requires Inv(s) && (e.PopTest? || e.PopLoad? || e.PopRelease?)
    ensures Inv(Apply(s, e))
  {
    if e.PopRelease? && s.cons.Loaded? {
      ReleaseOk(s);
    } else {
      assert Count(s) > 0 ==> InLine(s, 0);
      forall j | 0 <= j < Count(s) ensures InLine(Apply(s, e), j) {
        assert InLine(s, j);
      }
    }
  }

  lemma ApplyOk(s: State, e: Event)
    requires Inv(s)
    ensures Inv(Apply(s, e))
  {
    if e.PushTest? || e.PushStore? || e.PushPublish? {
      PushOk(s, e);
    } else {
      PopOk(s, e);
    }
  }

  /** The store of a push and the load of a pop that may come next in either order never
      touch the same slot. */
  lemma NoSharedSlot(s: State)
    requires Inv(s) && s.prod.Tested? && s.cons.Found?
    ensures s.writep != s.readp
  {
  }

  /** A push is refused exactly when n-1 published elements were there as it looked. */
  lemma RefusedIffFull(s: State)
    requires Inv(s) && s.prod.Ready?
    ensures LooksFull(s) <==> Count(s) == s.N() - 1
  {
  }

  // ----- Whole runs -----

  function Start(elements: seq<int>): State { State(elements, 0, 0, Ready, Waiting, [], []) }

  ghost function Run(s: State, es: seq<Event>): (t: State)
    requires Inv(s)
    ensures Inv(t)
    decreases |es|
  {
    if es == [] then s
    else
      ApplyOk(s, es[0]);
      Run(Apply(s, es[0]), es[1..])
  }

  /** Every interleaving: what was popped is a prefix of what was accepted. */
  lemma PopsArePrefix(elements: seq<int>, es: seq<Event>)
    requires |elements| > 0
    ensures Inv(Start(elements))
    ensures Run(Start(elements), es).popped <= Run(Start(elements), es).accepted
  {
    var t := Run(Start(elements), es);
    assert Inv(t);
  }

  // ----- The code, one call at a time -----

  class RingBuffer {
    const n: nat
    const elements: array<int>
    var readp: nat
    var writep: nat
    ghost var queue: seq<int>

    ghost predicate Valid()
      reads this, elements
    {
      && elements.Length == n > 0 && readp < n && writep < n
      && |queue| < n && writep == Wrap(readp, |queue|, n)
      && (forall j | 0 <= j < |queue| :: queue[j] == elements[Wrap(readp, j, n)])
    }

    constructor (n: nat)
      requires n > 0
      ensures Valid() && this.n == n && queue == [] && fresh(elements)
    {
      this.n := n;
      elements := new int[n];
      readp, writep := 0, 0;
      queue := [];
    }

    method IsEmpty() returns (b: bool)
      requires Valid()
      ensures b <==> queue == []
    {
      b := readp == writep;
    }

    /** The oldest element, or zero when there is none. */
    method Pop() returns (v: int)
      requires Valid()
      modifies this
      ensures Valid()
      ensures if old(queue) == [] then v == 0 && queue == [] else v == old(queue)[0] && queue == old(queue)[1..]
    {
      var empty := IsEmpty();
      if empty {
        return 0;
      }
      WrapIsMod(readp, 1, n);
      v := elements[readp];
      assert v == queue[0];
      ghost var r, q := readp, queue;
      readp := (readp + 1) % n;
      queue := queue[1..];
      forall j | 0 <= j < |queue| ensures queue[j] == elements[Wrap(readp, j, n)] {
        assert q[j + 1] == elements[Wrap(r, j + 1, n)];
      }
    }

    /** Dropped when n-1 elements are there. */
    method Push(value: int)
      requires Valid()
      modifies this, elements
      ensures Valid()
      ensures queue == if |old(queue)| == n - 1 then old(queue) else old(queue) + [value]
    {
      var nextp := (writep + 1) % n;
      WrapIsMod(writep, 1, n);
      if nextp == readp {
        return;
      }
      elements[writep] := value;
      writep := nextp;
      queue := queue + [value];
    }
  }
}
