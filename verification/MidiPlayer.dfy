/** The merge loop of the MIDI player: several tracks, each a list of events with the time
    since the event before it, played in one global order. */
module MidiPlayer {
  import opened Basics
  import opened MidiStream

  /** The events of a track; `delta` is the time since the event before, in ticks. */
  type Track = seq<Event>

  /** Event `index` of `track` was handled at `tick`. */
  datatype Handled = Handled(tick: nat, track: nat, index: nat)

  /** Global time of the end of the first `k` events: the sum of their deltas. */
  function TimeOf(t: Track, k: nat): nat
    requires k <= |t|
  {
    if k == 0 then 0 else TimeOf(t, k - 1) + t[k - 1].delta
  }

  /** The part of the log about one track. */
  function Only(log: seq<Handled>, i: nat): seq<Handled> {
    if log == [] then []
    else Only(log[..|log| - 1], i) + if log[|log| - 1].track == i then [log[|log| - 1]] else []
  }

  /** The first `k` events of the track, each at the tick its deltas add up to. */
  function Schedule(t: Track, i: nat, k: nat): (s: seq<Handled>)
    requires k <= |t|
    ensures |s| == k
  {
    if k == 0 then [] else Schedule(t, i, k - 1) + [Handled(TimeOf(t, k), i, k - 1)]
  }

  /** Earlier tick first, and at the same tick the lower track first. */
  predicate NotAfter(a: Handled, b: Handled) {
    a.tick < b.tick || (a.tick == b.tick && a.track <= b.track)
  }

  ghost predicate Ordered(log: seq<Handled>) {
    forall a, b | 0 <= a < b < |log| :: NotAfter(log[a], log[b])
  }

  /** One track between events: `pos` handled, `used` of the next delta already waited. */
  predicate TrackOk(t: Track, now: nat, pos: nat, used: nat) {
    pos <= |t| && now == TimeOf(t, pos) + used && (pos < |t| ==> used <= t[pos].delta)
  }

  lemma OnlySnoc(log: seq<Handled>, h: Handled, i: nat)
    ensures Only(log + [h], i) == Only(log, i) + if h.track == i then [h] else []
  {
    assert (log + [h])[..|log|] == log;
  }

  /** Nothing in the log is later than tick `now`, track `i`. */
  ghost predicate UpTo(log: seq<Handled>, now: nat, i: nat) {
    forall a | 0 <= a < |log| :: NotAfter(log[a], Handled(now, i, 0))
  }

  /** What the stream will still return once event `pos` of the track is at hand. */
  ghost predicate Feeds(st: TrackStream, t: Track, pos: nat, next: Option<Event>)
    reads st
  {
    && pos <= |t| && next == (if pos < |t| then Some(t[pos]) else None)
    && (pos < |t| ==> st.Rest() == t[pos + 1..] && st.MovesOn())
  }

  /** The next event of a track that has one at hand. */
  method Fetch(st: TrackStream, ghost t: Track, ghost pos: nat) returns (next: Option<Event>)
    requires pos < |t| && st.Rest() == t[pos + 1..] && st.MovesOn()
    modifies st
    ensures Feeds(st, t, pos + 1, next)
  {
    next := st.GetNextEvent();
    assert pos + 1 < |t| ==> t[pos + 1..] == [t[pos + 1]] + t[pos + 2..];
  }

  lemma LogNext(log: seq<Handled>, h: Handled)
    ensures forall j: nat :: Only(log + [h], j) == Only(log, j) + if h.track == j then [h] else []
  {
    forall j: nat ensures Only(log + [h], j) == Only(log, j) + if h.track == j then [h] else [] {
      OnlySnoc(log, h, j);
    }
  }

  /** The log was `log0` and has gone on with events of track `i`, of which `pos` are handled. */
  ghost predicate LogFor(log0: seq<Handled>, log: seq<Handled>, t: Track, i: nat, pos: nat, now: nat)
    requires pos <= |t|
  {
    && Only(log, i) == Schedule(t, i, pos) && Ordered(log) && UpTo(log, now, i)
    && (forall j: nat | j != i :: Only(log, j) == Only(log0, j))
    && log0 <= log && (forall a | |log0| <= a < |log| :: log[a].track == i)
  }

  lemma LogStep(log0: seq<Handled>, log: seq<Handled>, t: Track, i: nat, pos: nat, now: nat)
    requires pos < |t| && LogFor(log0, log, t, i, pos, now) && TimeOf(t, pos + 1) == now
    ensures LogFor(log0, log + [Handled(now, i, pos)], t, i, pos + 1, now)
  {
    LogNext(log, Handled(now, i, pos));
  }

  /** The inner loop: handle every event of track `i` that is due. */
  method HandleDue(st: TrackStream, ghost t: Track, i: nat, now: nat, next0: Option<Event>, pos0: nat, used0: nat, log0: seq<Handled>)
    returns (next: Option<Event>, pos: nat, used: nat, log: seq<Handled>)
    requires Feeds(st, t, pos0, next0) && TrackOk(t, now, pos0, used0) && LogFor(log0, log0, t, i, pos0, now)
    modifies st
    ensures Feeds(st, t, pos, next) && TrackOk(t, now, pos, used) && LogFor(log0, log, t, i, pos, now)
    ensures pos < |t| ==> used < t[pos].delta
    ensures pos0 <= pos && (pos0 < |t| && used0 == t[pos0].delta ==> pos0 < pos)
  {
    next, pos, used, log := next0, pos0, used0, log0;
    while next.Some? && next.value.delta - used <= 0
      invariant Feeds(st, t, pos, next) && TrackOk(t, now, pos, used) && LogFor(log0, log, t, i, pos, now)
      invariant pos0 <= pos && (pos == pos0 ==> used == used0)
      decreases |t| - pos
    {
      LogStep(log0, log, t, i, pos, now);
      log := log + [Handled(now, i, pos)];
      next := Fetch(st, t, pos);
      pos, used := pos + 1, 0;
    }
  }

  // ----- All tracks -----

  /** Track `i` has handled its first `pos[i]` events, each when it was due. */
  ghost predicate OnTime(tracks: seq<Track>, now: nat, pos: seq<nat>, used: seq<nat>, log: seq<Handled>, i: nat)
    requires i < |tracks| == |pos| == |used|
  {
    TrackOk(tracks[i], now, pos[i], used[i]) && Only(log, i) == Schedule(tracks[i], i, pos[i])
  }

  ghost predicate AllOnTime(tracks: seq<Track>, now: nat, pos: seq<nat>, used: seq<nat>, log: seq<Handled>) {
    && |tracks| == |pos| == |used| && Ordered(log)
    && (forall a | 0 <= a < |log| :: log[a].track < |tracks|)
    && (forall i | 0 <= i < |tracks| :: OnTime(tracks, now, pos, used, log, i))
  }

  /** An event of track `i` is due now. */
  predicate Due(tracks: seq<Track>, pos: seq<nat>, used: seq<nat>, i: nat)
    requires i < |tracks| == |pos| == |used|
  {
    pos[i] < |tracks[i]| && tracks[i][pos[i]].delta <= used[i]
  }

  /** The streams are different objects and feed their tracks. */
  ghost predicate AllFeed(streams: seq<TrackStream>, tracks: seq<Track>, pos: seq<nat>, next: seq<Option<Event>>)
    reads streams
  {
    && |streams| == |tracks| == |pos| == |next|
    && (forall i, j | 0 <= i < j < |streams| :: streams[i] != streams[j])
    && (forall i | 0 <= i < |streams| :: Feeds(streams[i], tracks[i], pos[i], next[i]))
  }

  function Remaining(tracks: seq<Track>, pos: seq<nat>, k: nat): int
    requires k <= |tracks| == |pos|
  {
    if k == 0 then 0 else Remaining(tracks, pos, k - 1) + |tracks[k - 1]| - pos[k - 1]
  }

  lemma {:induction false} RemainingShrinks(tracks: seq<Track>, pos: seq<nat>, pos': seq<nat>, k: nat)
    requires k <= |tracks| == |pos| == |pos'|
    requires forall i | 0 <= i < |tracks| :: pos[i] <= pos'[i]
    ensures Remaining(tracks, pos', k) <= Remaining(tracks, pos, k)
    ensures (exists i | 0 <= i < k :: pos[i] < pos'[i]) ==> Remaining(tracks, pos', k) < Remaining(tracks, pos, k)
    decreases k
  {
    if k > 0 {
      RemainingShrinks(tracks, pos, pos', k - 1);
    }
  }

  lemma {:induction false} RemainingNonNegative(tracks: seq<Track>, pos: seq<nat>, k: nat)
    requires k <= |tracks| == |pos| && forall i | 0 <= i < |tracks| :: pos[i] <= |tracks[i]|
    ensures Remaining(tracks, pos, k) >= 0
    decreases k
  {
    if k > 0 {
      RemainingNonNegative(tracks, pos, k - 1);
    }
  }

  /** A pass got from `pos0` to `pos`: nothing is due any more, and what was due has moved on. */
  ghost predicate Passed(tracks: seq<Track>, pos0: seq<nat>, used0: seq<nat>, pos: seq<nat>, used: seq<nat>, k: nat)
    requires k <= |tracks| == |pos0| == |used0| == |pos| == |used|
  {
    && (forall j | 0 <= j < |tracks| :: pos0[j] <= pos[j])
    && (forall j | 0 <= j < k :: !Due(tracks, pos, used, j))
    && (forall j | 0 <= j < k && Due(tracks, pos0, used0, j) :: pos0[j] < pos[j])
    && (forall j | k <= j < |tracks| :: pos[j] == pos0[j] && used[j] == used0[j])
  }

  lemma PassNext(tracks: seq<Track>, pos0: seq<nat>, used0: seq<nat>, pos: seq<nat>, used: seq<nat>, k: nat, p: nat, u: nat)
    requires k < |tracks| == |pos0| == |used0| == |pos| == |used| && Passed(tracks, pos0, used0, pos, used, k)
    requires pos[k] <= p && (p < |tracks[k]| ==> u < tracks[k][p].delta)
    requires pos[k] < |tracks[k]| && tracks[k][pos[k]].delta <= used[k] ==> pos[k] < p
    ensures Passed(tracks, pos0, used0, pos[k := p], used[k := u], k + 1)
  {
    var pos', used' := pos[k := p], used[k := u];
    forall j | 0 <= j < k + 1 ensures !Due(tracks, pos', used', j) {
      assert j < k ==> !Due(tracks, pos, used, j);
    }
  }

  /** One pass over the tracks at tick `now`. */
  method Pass(streams: seq<TrackStream>, ghost tracks: seq<Track>, now: nat, next0: seq<Option<Event>>, pos0: seq<nat>, used0: seq<nat>,
              log0: seq<Handled>)
    returns (next: seq<Option<Event>>, pos: seq<nat>, used: seq<nat>, log: seq<Handled>)
    requires AllFeed(streams, tracks, pos0, next0)
    requires AllOnTime(tracks, now, pos0, used0, log0) && UpTo(log0, now, 0)
    modifies streams
    ensures AllFeed(streams, tracks, pos, next)
    ensures AllOnTime(tracks, now, pos, used, log) && UpTo(log, now, |tracks|)
    ensures Passed(tracks, pos0, used0, pos, used, |tracks|)
  {
    next, pos, used, log := next0, pos0, used0, log0;
    var i := 0;
    while i < |streams|
      invariant 0 <= i <= |streams| && AllFeed(streams, tracks, pos, next)
      invariant AllOnTime(tracks, now, pos, used, log) && UpTo(log, now, i)
      invariant Passed(tracks, pos0, used0, pos, used, i)
    {
      ghost var pos1, used1, log1 := pos, used, log;
      assert OnTime(tracks, now, pos1, used1, log1, i) && Feeds(streams[i], tracks[i], pos[i], next[i]);
      var x, p, u;
      x, p, u, log := HandleDue(streams[i], tracks[i], i, now, next[i], pos[i], used[i], log);
      PassNext(tracks, pos0, used0, pos, used, i, p, u);
      next, pos, used := next[i := x], pos[i := p], used[i := u];
      PassKeepsTime(tracks, now, pos1, used1, log1, pos, used, log, i);
      i := i + 1;
    }
  }

  lemma PassKeepsTime(tracks: seq<Track>, now: nat, pos: seq<nat>, used: seq<nat>, log: seq<Handled>,
                      pos': seq<nat>, used': seq<nat>, log': seq<Handled>, i: nat)
    requires AllOnTime(tracks, now, pos, used, log) && i < |tracks|
    requires |pos'| == |pos| && |used'| == |used| && pos' == pos[i := pos'[i]] && used' == used[i := used'[i]]
    requires OnTime(tracks, now, pos', used', log', i) && Ordered(log')
    requires forall j: nat | j != i :: Only(log', j) == Only(log, j)
    requires log <= log' && forall a | |log| <= a < |log'| :: log'[a].track == i
    ensures AllOnTime(tracks, now, pos', used', log')
  {
    assert forall a | 0 <= a < |log| :: log'[a] == log[a];
    forall j | 0 <= j < |tracks| ensures OnTime(tracks, now, pos', used', log', j) {
      assert OnTime(tracks, now, pos, used, log, j);
    }
  }

  /** The smallest wait until the next event of any track. */
  method MinDelta(next: seq<Option<Event>>, used: seq<nat>) returns (more: bool, min: nat)
    requires |next| == |used| && forall i | 0 <= i < |next| && next[i].Some? :: used[i] < next[i].value.delta
    ensures more <==> exists i | 0 <= i < |next| :: next[i].Some?
    ensures if more then min > 0 else min == 0
    ensures forall i | 0 <= i < |next| && next[i].Some? :: min <= next[i].value.delta - used[i]
    ensures more ==> exists i | 0 <= i < |next| :: next[i].Some? && min == next[i].value.delta - used[i]
  {
    more, min := false, 0;
    var i := 0;
    while i < |next|
      invariant 0 <= i <= |next|
      invariant more <==> exists j | 0 <= j < i :: next[j].Some?
      invariant if more then min > 0 else min == 0
      invariant forall j | 0 <= j < i && next[j].Some? :: min <= next[j].value.delta - used[j]
      invariant more ==> exists j | 0 <= j < i :: next[j].Some? && min == next[j].value.delta - used[j]
    {
      if next[i].Some? {
        var d := next[i].value.delta - used[i];
        min := if !more || d < min then d else min;
        more := true;
      }
      i := i + 1;
    }
  }

  function AddAll(used: seq<nat>, d: nat): (r: seq<nat>)
    ensures |r| == |used|
    ensures forall i | 0 <= i < |used| :: r[i] == used[i] + d
  {
    seq(|used|, i requires 0 <= i < |used| => used[i] + d)
  }

  /** Waiting `d` ticks, no longer than any track has to wait, keeps every track on time. */
  lemma WaitKeepsTime(tracks: seq<Track>, now: nat, pos: seq<nat>, used: seq<nat>, log: seq<Handled>, d: nat)
    requires AllOnTime(tracks, now, pos, used, log)
    requires forall i | 0 <= i < |tracks| && pos[i] < |tracks[i]| :: d <= tracks[i][pos[i]].delta - used[i]
    ensures AllOnTime(tracks, now + d, pos, AddAll(used, d), log)
  {
    var used', now' := AddAll(used, d), now + d;
    forall i | 0 <= i < |tracks| ensures OnTime(tracks, now', pos, used', log, i) {
      assert OnTime(tracks, now, pos, used, log, i);
    }
  }

  /** Fetching the first event of every track. */
  method Begin(streams: seq<TrackStream>, ghost tracks: seq<Track>) returns (next: seq<Option<Event>>)
    requires |tracks| == |streams| && forall i, j | 0 <= i < j < |streams| :: streams[i] != streams[j]
    requires forall i | 0 <= i < |streams| :: tracks[i] == streams[i].Rest() && streams[i].MovesOn()
    modifies streams
    ensures AllFeed(streams, tracks, seq(|streams|, _ => 0), next)
  {
    next := [];
    var i := 0;
    while i < |streams|
      invariant 0 <= i <= |streams| && |next| == i
      invariant forall j | 0 <= j < i :: Feeds(streams[j], tracks[j], 0, next[j])
      invariant forall j | i <= j < |streams| :: tracks[j] == streams[j].Rest() && streams[j].MovesOn()
    {
      var x := streams[i].GetNextEvent();
      next := next + [x];
      i := i + 1;
    }
  }

  /** Everything the merge loop keeps between rounds. */
  ghost predicate Playing(streams: seq<TrackStream>, tracks: seq<Track>, now: nat, next: seq<Option<Event>>, pos: seq<nat>,
                          used: seq<nat>, log: seq<Handled>)
    reads streams
  {
    AllFeed(streams, tracks, pos, next) && AllOnTime(tracks, now, pos, used, log)
  }

  /** `next` is the first event of every track that is not handled. */
  ghost predicate AtHand(tracks: seq<Track>, pos: seq<nat>, next: seq<Option<Event>>) {
    && |tracks| == |pos| == |next|
    && (forall i | 0 <= i < |tracks| :: pos[i] <= |tracks[i]| && next[i] == if pos[i] < |tracks[i]| then Some(tracks[i][pos[i]]) else None)
  }

  lemma FeedsAtHand(streams: seq<TrackStream>, tracks: seq<Track>, pos: seq<nat>, next: seq<Option<Event>>)
    requires AllFeed(streams, tracks, pos, next)
    ensures AtHand(tracks, pos, next)
  {
    forall i | 0 <= i < |tracks|
      ensures pos[i] <= |tracks[i]| && next[i] == if pos[i] < |tracks[i]| then Some(tracks[i][pos[i]]) else None
    {
      assert Feeds(streams[i], tracks[i], pos[i], next[i]);
    }
  }

  lemma NoneDue(tracks: seq<Track>, pos0: seq<nat>, used0: seq<nat>, pos: seq<nat>, used: seq<nat>, next: seq<Option<Event>>)
    requires AtHand(tracks, pos, next) && |used| == |tracks| == |pos0| == |used0| && Passed(tracks, pos0, used0, pos, used, |tracks|)
    ensures forall i | 0 <= i < |next| && next[i].Some? :: used[i] < next[i].value.delta
  {
    forall i | 0 <= i < |next| && next[i].Some? ensures used[i] < next[i].value.delta {
      assert !Due(tracks, pos, used, i);
    }
  }

  /** After the wait an event is due, if there is one. */
  lemma Waited(tracks: seq<Track>, pos: seq<nat>, used: seq<nat>, next: seq<Option<Event>>, min: nat)
    requires AtHand(tracks, pos, next) && |used| == |tracks|
    requires exists i | 0 <= i < |next| :: next[i].Some? && min == next[i].value.delta - used[i]
    ensures exists i | 0 <= i < |tracks| :: Due(tracks, pos, AddAll(used, min), i)
  {
    var i :| 0 <= i < |next| && next[i].Some? && min == next[i].value.delta - used[i];
    assert Due(tracks, pos, AddAll(used, min), i);
  }

  lemma PassedShrinks(tracks: seq<Track>, pos0: seq<nat>, used0: seq<nat>, pos: seq<nat>, used: seq<nat>, next: seq<Option<Event>>)
    requires AtHand(tracks, pos, next) && |used| == |tracks| == |pos0| == |used0| && Passed(tracks, pos0, used0, pos, used, |tracks|)
    ensures 0 <= Remaining(tracks, pos, |tracks|) <= Remaining(tracks, pos0, |tracks|)
    ensures (exists i | 0 <= i < |tracks| :: Due(tracks, pos0, used0, i)) ==>
              Remaining(tracks, pos, |tracks|) < Remaining(tracks, pos0, |tracks|)
  {
    RemainingShrinks(tracks, pos0, pos, |tracks|);
    RemainingNonNegative(tracks, pos, |tracks|);
  }

  lemma WaitDone(tracks: seq<Track>, pos: seq<nat>, next: seq<Option<Event>>)
    requires AtHand(tracks, pos, next) && !exists i | 0 <= i < |next| :: next[i].Some?
    ensures forall i | 0 <= i < |tracks| :: pos[i] == |tracks[i]|
  {
  }

  lemma WaitUpTo(log: seq<Handled>, now: nat, k: nat, min: nat)
    requires UpTo(log, now, k) && min > 0
    ensures UpTo(log, now + min, 0)
  {
  }

  /** Waiting until the next event keeps every track on time. */
  lemma WaitForNext(tracks: seq<Track>, now: nat, pos: seq<nat>, used: seq<nat>, log: seq<Handled>, next: seq<Option<Event>>, d: nat)
    requires AllOnTime(tracks, now, pos, used, log) && AtHand(tracks, pos, next)
    requires forall i | 0 <= i < |next| && next[i].Some? :: d <= next[i].value.delta - used[i]
    ensures AllOnTime(tracks, now + d, pos, AddAll(used, d), log)
  {
    WaitKeepsTime(tracks, now, pos, used, log, d);
  }

  /** Find the shortest wait, and wait. */
  method Wait(ghost tracks: seq<Track>, now0: nat, next: seq<Option<Event>>, ghost pos: seq<nat>, used0: seq<nat>, ghost log: seq<Handled>)
    returns (more: bool, now: nat, used: seq<nat>)
    requires AllOnTime(tracks, now0, pos, used0, log) && AtHand(tracks, pos, next) && UpTo(log, now0, |tracks|)
    requires forall i | 0 <= i < |next| && next[i].Some? :: used0[i] < next[i].value.delta
    ensures AllOnTime(tracks, now, pos, used, log)
    ensures more ==> UpTo(log, now, 0) && exists i | 0 <= i < |tracks| :: Due(tracks, pos, used, i)
    ensures !more ==> forall i | 0 <= i < |tracks| :: pos[i] == |tracks[i]|
  {
    var min;
    more, min := MinDelta(next, used0);
    WaitForNext(tracks, now0, pos, used0, log, next, min);
    if more {
      Waited(tracks, pos, used0, next, min);
      WaitUpTo(log, now0, |tracks|, min);
    } else {
      WaitDone(tracks, pos, next);
    }
    now, used := now0 + min, AddAll(used0, min);
  }

  /** One round: handle what is due, then wait. */
  method Round(streams: seq<TrackStream>, ghost tracks: seq<Track>, now0: nat, next0: seq<Option<Event>>, pos0: seq<nat>, used0: seq<nat>,
               log0: seq<Handled>)
    returns (more: bool, now: nat, next: seq<Option<Event>>, pos: seq<nat>, used: seq<nat>, log: seq<Handled>)
    requires Playing(streams, tracks, now0, next0, pos0, used0, log0) && UpTo(log0, now0, 0)
    modifies streams
    ensures Playing(streams, tracks, now, next, pos, used, log)
    ensures more ==> UpTo(log, now, 0) && exists i | 0 <= i < |tracks| :: Due(tracks, pos, used, i)
    ensures !more ==> forall i | 0 <= i < |tracks| :: pos[i] == |tracks[i]|
    ensures 0 <= Remaining(tracks, pos, |tracks|) <= Remaining(tracks, pos0, |tracks|)
    ensures (exists i | 0 <= i < |tracks| :: Due(tracks, pos0, used0, i)) ==>
              Remaining(tracks, pos, |tracks|) < Remaining(tracks, pos0, |tracks|)
  {
    next, pos, used, log := Pass(streams, tracks, now0, next0, pos0, used0, log0);
    FeedsAtHand(streams, tracks, pos, next);
    PassedShrinks(tracks, pos0, used0, pos, used, next);
    NoneDue(tracks, pos0, used0, pos, used, next);
    more, now, used := Wait(tracks, now0, next, pos, used, log);
  }

  /** `PlayMIDI` from the first events on. For streams whose events all have a size, every event
      of every track is handled exactly once, at the tick its deltas add up to; the log is in order
      of ticks and, within a tick, of tracks. It ends when the tracks are used up: every round but
      the first handles at least one event. */
  method Play(streams: seq<TrackStream>) returns (log: seq<Handled>)
    requires forall i, j | 0 <= i < j < |streams| :: streams[i] != streams[j]
    requires forall i | 0 <= i < |streams| :: streams[i].MovesOn()
    modifies streams
    ensures Ordered(log) && forall a | 0 <= a < |log| :: log[a].track < |streams|
    ensures forall i | 0 <= i < |streams| :: var t := old(streams[i].Rest()); Only(log, i) == Schedule(t, i, |t|)
  {
    ghost var tracks := seq(|streams|, i requires 0 <= i < |streams| reads streams => streams[i].Rest());
    var next := Begin(streams, tracks);
    var pos: seq<nat>, used: seq<nat> := seq(|streams|, i => 0), seq(|streams|, i => 0);
    var now: nat := 0;
    log := [];
    forall i | 0 <= i < |tracks| ensures OnTime(tracks, now, pos, used, log, i) {
    }
    var more := true;
    ghost var first := true;
    while more
      invariant Playing(streams, tracks, now, next, pos, used, log)
      invariant more ==> UpTo(log, now, 0) && (first || exists i | 0 <= i < |tracks| :: Due(tracks, pos, used, i))
      invariant !more ==> forall i | 0 <= i < |tracks| :: pos[i] == |tracks[i]|
      decreases first, Remaining(tracks, pos, |tracks|), more
    {
      more, now, next, pos, used, log := Round(streams, tracks, now, next, pos, used, log);
      first := false;
    }
    forall i | 0 <= i < |tracks| ensures Only(log, i) == Schedule(tracks[i], i, |tracks[i]|) {
      assert OnTime(tracks, now, pos, used, log, i);
    }
  }

  // ----- The order is the only one -----

  lemma {:induction false} OnlyMembers(log: seq<Handled>, i: nat, k: nat)
    requires k < |Only(log, i)|
    ensures Only(log, i)[k].track == i && Only(log, i)[k] in log
    decreases |log|
  {
    if log != [] {
      var init := log[..|log| - 1];
      if k < |Only(init, i)| {
        OnlyMembers(init, i, k);
      }
    }
  }

  lemma {:induction false} OnlyEmpty(log: seq<Handled>)
    requires forall i: nat :: Only(log, i) == []
    ensures log == []
  {
    assert log != [] ==> Only(log, log[|log| - 1].track) != [];
  }

  /** The last entry of a log is the last of its own track. */
  lemma LastOfTrack(log: seq<Handled>)
    requires log != []
    ensures var h := log[|log| - 1]; var s := Only(log, h.track); s != [] && s[|s| - 1] == h
  {
  }

  lemma CancelEnd(a: seq<Handled>, b: seq<Handled>, t: seq<Handled>)
    requires a + t == b + t
    ensures a == b
  {
    assert a == (a + t)[..|a|] && b == (b + t)[..|b|];
  }

  lemma SameLast(a: seq<Handled>, b: seq<Handled>)
    requires Ordered(a) && Ordered(b) && a != [] && b != [] && forall i: nat :: Only(a, i) == Only(b, i)
    ensures a[|a| - 1] == b[|b| - 1]
  {
    var x, y := a[|a| - 1], b[|b| - 1];
    LastIsThere(a, b);
    LastIsThere(b, a);
    LastIsLatest(a, y);
    LastIsLatest(b, x);
    SameTrackLast(a, b, x.track);
  }

  lemma SameTrackLast(a: seq<Handled>, b: seq<Handled>, i: nat)
    requires a != [] && b != [] && Only(a, i) == Only(b, i) && a[|a| - 1].track == i == b[|b| - 1].track
    ensures a[|a| - 1] == b[|b| - 1]
  {
    LastOfTrack(a);
    LastOfTrack(b);
  }

  lemma LastIsThere(a: seq<Handled>, b: seq<Handled>)
    requires a != [] && forall i: nat :: Only(a, i) == Only(b, i)
    ensures a[|a| - 1] in b
  {
    var x := a[|a| - 1];
    LastOfTrack(a);
    OnlyMembers(b, x.track, |Only(b, x.track)| - 1);
  }

  lemma LastIsLatest(a: seq<Handled>, y: Handled)
    requires Ordered(a) && y in a
    ensures NotAfter(y, a[|a| - 1])
  {
  }

  /** A log in this order is determined by what it says about each track. */
  lemma {:induction false} OrderDetermined(a: seq<Handled>, b: seq<Handled>)
    requires Ordered(a) && Ordered(b) && forall i: nat :: Only(a, i) == Only(b, i)
    ensures a == b
    decreases |a|
  {
    if a == [] {
      assert forall i: nat :: Only(b, i) == Only(a, i) == [];
      OnlyEmpty(b);
    } else if b == [] {
      assert forall i: nat :: Only(a, i) == Only(b, i) == [];
      OnlyEmpty(a);
    } else {
      SameLast(a, b);
      var x := a[|a| - 1];
      var a', b' := a[..|a| - 1], b[..|b| - 1];
      assert a == a' + [x] && b == b' + [x];
      forall i: nat ensures Only(a', i) == Only(b', i) {
        OnlySnoc(a', x, i);
        OnlySnoc(b', x, i);
        CancelEnd(Only(a', i), Only(b', i), if x.track == i then [x] else []);
      }
      OrderDetermined(a', b');
    }
  }
}
