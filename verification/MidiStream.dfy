/** Reading the events of a MIDI track from bytes. */
module MidiStream {
  import opened Basics

  function At(d: seq<Byte>, i: nat): Byte { if i < |d| then d[i] else 0 }

  // ----- Variable-length quantities -----

  /** The value of the bytes from `ofs + i` on, at most four in all, after `r`. */
  function ValueFrom(d: seq<Byte>, ofs: nat, i: nat, r: nat): (p: (nat, nat))
    requires i <= 4
    ensures ofs < p.1 <= ofs + 4
    decreases 4 - i
  {
    if i == 4 then (r, ofs + 4)
    else
      var b := At(d, ofs + i);
      if b < 128 then (r * 128 + b, ofs + i + 1) else ValueFrom(d, ofs, i + 1, r * 128 + (b - 128))
  }

  /** The value at `ofs` and where it ends. */
  function Value(d: seq<Byte>, ofs: nat): (nat, nat) { ValueFrom(d, ofs, 0, 0) }

  /** `ParseMIDIValue`. */
  method ParseValue(d: seq<Byte>, ofs0: nat) returns (r: nat, ofs: nat)
    ensures (r, ofs) == Value(d, ofs0)
  {
    r := 0;
    var i := 0;
    while i < 4
      invariant 0 <= i <= 4 && ValueFrom(d, ofs0, i, r) == Value(d, ofs0)
    {
      var b := At(d, ofs0 + i);
      assert b % 128 == if b < 128 then b else b - 128;
      r := r * 128 + b % 128;
      i := i + 1;
      if b < 128 {
        return r, ofs0 + i;
      }
    }
    ofs := ofs0 + 4;
  }

  /** The shortest encoding of a value below 2^28. */
  function EncodeValue(v: nat): (s: seq<Byte>)
    requires v < 0x1000_0000
    ensures 1 <= |s| <= 4
  {
    if v < 0x80 then [v]
    else if v < 0x4000 then [v / 0x80 + 128, v % 0x80]
    else if v < 0x20_0000 then [v / 0x4000 + 128, v / 0x80 % 0x80 + 128, v % 0x80]
    else [v / 0x20_0000 + 128, v / 0x4000 % 0x80 + 128, v / 0x80 % 0x80 + 128, v % 0x80]
  }

  /** The bytes of `s` stand in `d` at `ofs`. */
  ghost predicate Stands(d: seq<Byte>, ofs: nat, s: seq<Byte>) {
    ofs + |s| <= |d| && d[ofs..ofs + |s|] == s
  }

  lemma StandsAt(d: seq<Byte>, ofs: nat, s: seq<Byte>, i: nat)
    requires Stands(d, ofs, s) && i < |s|
    ensures At(d, ofs + i) == s[i]
  {
    assert d[ofs..ofs + |s|][i] == d[ofs + i];
  }

  lemma StandsSplit(d: seq<Byte>, ofs: nat, s: seq<Byte>, t: seq<Byte>)
    requires Stands(d, ofs, s + t)
    ensures Stands(d, ofs, s) && Stands(d, ofs + |s|, t)
  {
    assert d[ofs..ofs + |s|] == d[ofs..ofs + |s + t|][..|s|] == s;
    assert d[ofs + |s|..ofs + |s| + |t|] == d[ofs..ofs + |s + t|][|s|..] == t;
  }

  /** Reading one byte of a value. */
  lemma ReadDigit(d: seq<Byte>, ofs: nat, i: nat, r: nat, s: seq<Byte>)
    requires i < 4 && i < |s| && Stands(d, ofs, s)
    ensures ValueFrom(d, ofs, i, r) ==
            if s[i] < 128 then (r * 128 + s[i], ofs + i + 1) else ValueFrom(d, ofs, i + 1, r * 128 + (s[i] - 128))
  {
    StandsAt(d, ofs, s, i);
  }

  lemma TwoDigits(d: seq<Byte>, ofs: nat, a: nat, b: nat)
    requires a < 128 && b < 128 && Stands(d, ofs, [a + 128, b])
    ensures Value(d, ofs) == (a * 128 + b, ofs + 2)
  {
    ReadDigit(d, ofs, 0, 0, [a + 128, b]);
    ReadDigit(d, ofs, 1, a, [a + 128, b]);
  }

  lemma ThreeDigits(d: seq<Byte>, ofs: nat, a: nat, b: nat, c: nat)
    requires a < 128 && b < 128 && c < 128 && Stands(d, ofs, [a + 128, b + 128, c])
    ensures Value(d, ofs) == ((a * 128 + b) * 128 + c, ofs + 3)
  {
    var s: seq<Byte> := [a + 128, b + 128, c];
    ReadDigit(d, ofs, 0, 0, s);
    ReadDigit(d, ofs, 1, a, s);
    ReadDigit(d, ofs, 2, a * 128 + b, s);
  }

  lemma FourDigits(d: seq<Byte>, ofs: nat, a: nat, b: nat, c: nat, e: nat)
    requires a < 128 && b < 128 && c < 128 && e < 128 && Stands(d, ofs, [a + 128, b + 128, c + 128, e])
    ensures Value(d, ofs) == (((a * 128 + b) * 128 + c) * 128 + e, ofs + 4)
  {
    var s: seq<Byte> := [a + 128, b + 128, c + 128, e];
    ReadDigit(d, ofs, 0, 0, s);
    ReadDigit(d, ofs, 1, a, s);
    ReadDigit(d, ofs, 2, a * 128 + b, s);
    ReadDigit(d, ofs, 3, (a * 128 + b) * 128 + c, s);
  }

  /** Seven bits a byte, most significant first, until a byte below 128 or the fourth one. */
  lemma ValueDigits(d: seq<Byte>, ofs: nat)
    ensures var a, b, c, e := At(d, ofs), At(d, ofs + 1), At(d, ofs + 2), At(d, ofs + 3);
            Value(d, ofs) ==
            if a < 128 then (a, ofs + 1)
            else if b < 128 then ((a - 128) * 128 + b, ofs + 2)
            else if c < 128 then ((a - 128) * 16384 + (b - 128) * 128 + c, ofs + 3)
            else ((a - 128) * 0x20_0000 + (b - 128) * 16384 + (c - 128) * 128 + e % 128, ofs + 4)
  {
    var a: int, b: int, c: int, e: int := At(d, ofs), At(d, ofs + 1), At(d, ofs + 2), At(d, ofs + 3);
    if a >= 128 {
      assert Value(d, ofs) == ValueFrom(d, ofs, 1, a - 128);
      if b >= 128 {
        assert Value(d, ofs) == ValueFrom(d, ofs, 2, (a - 128) * 128 + (b - 128));
        if c >= 128 {
          assert Value(d, ofs) == ValueFrom(d, ofs, 3, ((a - 128) * 128 + (b - 128)) * 128 + (c - 128));
          assert e % 128 == if e < 128 then e else e - 128;
        }
      }
    }
  }

  /** The base-128 digits of a value put together again. */
  lemma Digits(v: nat)
    ensures v / 0x80 * 128 + v % 0x80 == v
    ensures v / 0x4000 * 128 + v / 0x80 % 0x80 == v / 0x80
    ensures v / 0x20_0000 * 128 + v / 0x4000 % 0x80 == v / 0x4000
  {
  }

  /** Values read back as written. */
  lemma ValueRoundTrip(d: seq<Byte>, ofs: nat, v: nat)
    requires v < 0x1000_0000 && Stands(d, ofs, EncodeValue(v))
    ensures Value(d, ofs) == (v, ofs + |EncodeValue(v)|)
  {
    Digits(v);
    if v < 0x80 {
      ReadDigit(d, ofs, 0, 0, [v]);
    } else if v < 0x4000 {
      TwoDigits(d, ofs, v / 0x80, v % 0x80);
    } else if v < 0x20_0000 {
      ThreeDigits(d, ofs, v / 0x4000, v / 0x80 % 0x80, v % 0x80);
    } else {
      FourDigits(d, ofs, v / 0x20_0000, v / 0x4000 % 0x80, v / 0x80 % 0x80, v % 0x80);
    }
  }

  /** The bytes `s` read as the value `v` wherever they stand. */
  ghost predicate Denotes(s: seq<Byte>, v: nat) {
    forall d, ofs: nat {:trigger Stands(d, ofs, s)} | Stands(d, ofs, s) :: Value(d, ofs) == (v, ofs + |s|)
  }

  lemma EncodingDenotes(v: nat)
    requires v < 0x1000_0000
    ensures Denotes(EncodeValue(v), v)
  {
    forall d, ofs: nat | Stands(d, ofs, EncodeValue(v)) ensures Value(d, ofs) == (v, ofs + |EncodeValue(v)|) {
      ValueRoundTrip(d, ofs, v);
    }
  }

  // ----- Events -----

  /** A channel message with one or two parameters, or a meta event with its data. */
  datatype Message = Voice(status: Byte, params: seq<Byte>) | Meta(kind: Byte, data: seq<Byte>)

  datatype Event = Event(delta: nat, message: Message)

  /** Parameters a status byte takes; -1 for bytes the player does not know. */
  function NumParams(status: Byte): int {
    match status / 16
    case 8 | 9 | 10 | 11 | 14 => 2
    case 12 | 13 => 1
    case _ => -1
  }

  /** `n` bytes at `ofs`. */
  function Slice(d: seq<Byte>, ofs: nat, n: nat): (s: seq<Byte>)
    ensures |s| == n && forall i | 0 <= i < n :: s[i] == At(d, ofs + i)
  {
    if n == 0 then [] else Slice(d, ofs, n - 1) + [At(d, ofs + n - 1)]
  }

  /** The meta event whose 0xFF stands at `o`, and where it ends; its length is kept in one byte. */
  function MetaAt(d: seq<Byte>, o: nat): (Message, nat) {
    var (len, m) := Value(d, o + 2);
    (Meta(At(d, o + 1), Slice(d, m, len % 256)), m + len % 256)
  }

  /** `MIDIEvent::Init`: the event at `ofs` and its size, which is kept in one byte. */
  function Decode(d: seq<Byte>, ofs: nat): Option<(Event, nat)> {
    var (delta, o) := Value(d, ofs);
    var status := At(d, o);
    if status == 0xFF then
      var (meta, end) := MetaAt(d, o);
      Some((Event(delta, meta), (end - ofs) % 256))
    else if NumParams(status) >= 0 then
      var n := NumParams(status);
      Some((Event(delta, Voice(status, Slice(d, o + 1, n))), (o + 1 + n - ofs) % 256))
    else None
  }

  /** Status bytes by their groups: notes, pressure of a key, controllers and pitch take two bytes,
      program changes and channel pressure one, and nothing else but 0xFF is known. */
  lemma StatusGroups(d: seq<Byte>, ofs: nat)
    ensures var (delta, o) := Value(d, ofs);
            var st := At(d, o);
            && (0x80 <= st < 0xC0 || 0xE0 <= st < 0xF0 ==>
                  Decode(d, ofs) == Some((Event(delta, Voice(st, [At(d, o + 1), At(d, o + 2)])), o + 3 - ofs)))
            && (0xC0 <= st < 0xE0 ==> Decode(d, ofs) == Some((Event(delta, Voice(st, [At(d, o + 1)])), o + 2 - ofs)))
            && (st < 0x80 || 0xF0 <= st < 0xFF ==> Decode(d, ofs) == None)
            && (st == 0xFF ==> Decode(d, ofs).Some? && Decode(d, ofs).value.0.message.Meta?)
  {
    var (delta, o) := Value(d, ofs);
    var st := At(d, o);
    GroupOf(st);
    assert Slice(d, o + 1, 2) == [At(d, o + 1), At(d, o + 2)];
    assert Slice(d, o + 1, 1) == [At(d, o + 1)];
  }

  lemma GroupOf(st: Byte)
    ensures 0x80 <= st < 0xC0 || 0xE0 <= st < 0xF0 ==> NumParams(st) == 2
    ensures 0xC0 <= st < 0xE0 ==> NumParams(st) == 1
    ensures st < 0x80 || 0xF0 <= st ==> NumParams(st) == -1
  {
  }

  /** Events that can be written: known status bytes, and values of at most four bytes. */
  predicate Writable(e: Event) {
    && e.delta < 0x1000_0000
    && match e.message
       case Voice(status, params) => NumParams(status) == |params|
       case Meta(_, data) => |data| < 0x1000_0000
  }

  function Encode(e: Event): seq<Byte>
    requires Writable(e)
  {
    EncodeValue(e.delta) +
    match e.message
    case Voice(status, params) => [status] + params
    case Meta(kind, data) => [0xFF, kind] + (EncodeValue(|data|) + data)
  }

  lemma SliceStands(d: seq<Byte>, ofs: nat, s: seq<Byte>)
    requires Stands(d, ofs, s)
    ensures Slice(d, ofs, |s|) == s
  {
    forall i | 0 <= i < |s| ensures At(d, ofs + i) == s[i] {
      StandsAt(d, ofs, s, i);
    }
  }

  lemma DecodeVoice(d: seq<Byte>, ofs: nat, delta: nat, o: nat, status: Byte, params: seq<Byte>)
    requires Value(d, ofs) == (delta, o) && At(d, o) == status && NumParams(status) == |params|
    requires Slice(d, o + 1, |params|) == params
    ensures Decode(d, ofs) == Some((Event(delta, Voice(status, params)), (o + 1 + |params| - ofs) % 256))
  {
  }

  lemma SlicePrefix(d: seq<Byte>, ofs: nat, s: seq<Byte>, n: nat)
    requires Stands(d, ofs, s) && n <= |s|
    ensures Slice(d, ofs, n) == s[..n]
  {
    forall i | 0 <= i < n ensures At(d, ofs + i) == s[i] {
      StandsAt(d, ofs, s, i);
    }
  }

  lemma MetaAtIs(d: seq<Byte>, o: nat, kind: Byte, m: nat, data: seq<Byte>)
    requires At(d, o + 1) == kind && Value(d, o + 2) == (|data|, m) && Stands(d, m, data)
    ensures MetaAt(d, o) == (Meta(kind, data[..|data| % 256]), m + |data| % 256)
  {
    SlicePrefix(d, m, data, |data| % 256);
  }

  lemma MetaParts(d: seq<Byte>, o: nat, kind: Byte, lv: seq<Byte>, data: seq<Byte>)
    requires Stands(d, o, [0xFF, kind] + (lv + data))
    ensures At(d, o) == 0xFF && At(d, o + 1) == kind
    ensures Stands(d, o + 2, lv) && Stands(d, o + 2 + |lv|, data)
  {
    var head: seq<Byte> := [0xFF, kind];
    StandsSplit(d, o, head, lv + data);
    StandsAt(d, o, head, 0);
    StandsAt(d, o, head, 1);
    StandsSplit(d, o + 2, lv, data);
  }

  lemma MetaStands(d: seq<Byte>, o: nat, kind: Byte, lv: seq<Byte>, data: seq<Byte>)
    requires Denotes(lv, |data|) && Stands(d, o, [0xFF, kind] + (lv + data))
    ensures At(d, o) == 0xFF
    ensures MetaAt(d, o) == (Meta(kind, data[..|data| % 256]), o + 2 + |lv| + |data| % 256)
  {
    MetaParts(d, o, kind, lv, data);
    assert Value(d, o + 2) == (|data|, o + 2 + |lv|);
    MetaAtIs(d, o, kind, o + 2 + |lv|, data);
  }

  lemma DecodeMeta(d: seq<Byte>, ofs: nat, delta: nat, o: nat, meta: Message, end: nat)
    requires Value(d, ofs) == (delta, o) && At(d, o) == 0xFF && MetaAt(d, o) == (meta, end)
    ensures Decode(d, ofs) == Some((Event(delta, meta), (end - ofs) % 256))
  {
  }

  lemma DeltaReads(d: seq<Byte>, ofs: nat, delta: nat, dv: seq<Byte>, rest: seq<Byte>)
    requires Denotes(dv, delta) && Stands(d, ofs, dv + rest)
    ensures Value(d, ofs) == (delta, ofs + |dv|) && Stands(d, ofs + |dv|, rest)
  {
    StandsSplit(d, ofs, dv, rest);
  }

  lemma VoiceWritten(d: seq<Byte>, ofs: nat, delta: nat, dv: seq<Byte>, status: Byte, params: seq<Byte>)
    requires Denotes(dv, delta) && NumParams(status) == |params| && Stands(d, ofs, dv + ([status] + params))
    ensures Decode(d, ofs) == Some((Event(delta, Voice(status, params)), (|dv| + 1 + |params|) % 256))
  {
    var o := ofs + |dv|;
    DeltaReads(d, ofs, delta, dv, [status] + params);
    StandsSplit(d, o, [status], params);
    StandsAt(d, o, [status], 0);
    SliceStands(d, o + 1, params);
    DecodeVoice(d, ofs, delta, o, status, params);
  }

  /** What the player makes of an event: the length of its data is kept in one byte. */
  function Truncated(e: Event): Event {
    match e.message
    case Voice(_, _) => e
    case Meta(kind, data) => e.(message := Meta(kind, data[..|data| % 256]))
  }

  lemma SizeKept(a: nat, b: nat, len: nat)
    ensures (a + 2 + b + len % 256) % 256 == (a + 2 + b + len) % 256
  {
  }

  lemma MetaDecodes(d: seq<Byte>, ofs: nat, delta: nat, a: nat, b: nat, kind: Byte, data: seq<Byte>, cut: seq<Byte>)
    requires Value(d, ofs) == (delta, ofs + a) && At(d, ofs + a) == 0xFF && cut == data[..|data| % 256]
    requires MetaAt(d, ofs + a) == (Meta(kind, cut), ofs + a + 2 + b + |cut|)
    ensures Decode(d, ofs) == Some((Truncated(Event(delta, Meta(kind, data))), (a + 2 + b + |data|) % 256))
  {
    DecodeMeta(d, ofs, delta, ofs + a, Meta(kind, cut), ofs + a + 2 + b + |cut|);
    SizeKept(a, b, |data|);
  }

  lemma MetaReads(d: seq<Byte>, ofs: nat, delta: nat, a: nat, kind: Byte, lv: seq<Byte>, data: seq<Byte>)
    requires Value(d, ofs) == (delta, ofs + a) && Denotes(lv, |data|) && Stands(d, ofs + a, [0xFF, kind] + (lv + data))
    ensures Decode(d, ofs) == Some((Truncated(Event(delta, Meta(kind, data))), (a + 2 + |lv| + |data|) % 256))
  {
    MetaStands(d, ofs + a, kind, lv, data);
    MetaDecodes(d, ofs, delta, a, |lv|, kind, data, data[..|data| % 256]);
  }

  lemma MetaWritten(d: seq<Byte>, ofs: nat, delta: nat, dv: seq<Byte>, kind: Byte, lv: seq<Byte>, data: seq<Byte>)
    requires Denotes(dv, delta) && Denotes(lv, |data|) && Stands(d, ofs, dv + ([0xFF, kind] + (lv + data)))
    ensures Decode(d, ofs) == Some((Truncated(Event(delta, Meta(kind, data))), (|dv| + 2 + |lv| + |data|) % 256))
  {
    DeltaReads(d, ofs, delta, dv, [0xFF, kind] + (lv + data));
    MetaReads(d, ofs, delta, |dv|, kind, lv, data);
  }

  lemma SizeByte(n: nat)
    ensures n % 256 == n <==> n < 256
  {
  }

  lemma VoiceRoundTrip(d: seq<Byte>, ofs: nat, e: Event)
    requires e.message.Voice? && Writable(e) && Stands(d, ofs, Encode(e))
    ensures Decode(d, ofs) == Some((e, |Encode(e)| % 256))
  {
    EncodingDenotes(e.delta);
    VoiceWritten(d, ofs, e.delta, EncodeValue(e.delta), e.message.status, e.message.params);
  }

  lemma MetaRoundTrip(d: seq<Byte>, ofs: nat, e: Event)
    requires e.message.Meta? && Writable(e) && Stands(d, ofs, Encode(e))
    ensures Decode(d, ofs) == Some((Truncated(e), |Encode(e)| % 256))
  {
    var data := e.message.data;
    EncodingDenotes(e.delta);
    EncodingDenotes(|data|);
    MetaWritten(d, ofs, e.delta, EncodeValue(e.delta), e.message.kind, EncodeValue(|data|), data);
  }

  lemma ShortUncut(e: Event)
    requires Writable(e) && |Encode(e)| < 256
    ensures Truncated(e) == e
  {
    if e.message.Meta? {
      var data := e.message.data;
      assert data[..|data| % 256] == data;
    }
  }

  /** An event reads back with its data cut to the length modulo 256 and with its size modulo
      256: it reads back as written, position and all, exactly when it is at most 255 bytes long. */
  lemma EventRoundTrip(d: seq<Byte>, ofs: nat, e: Event)
    requires Writable(e) && Stands(d, ofs, Encode(e))
    ensures Decode(d, ofs) == Some((Truncated(e), |Encode(e)| % 256))
    ensures Decode(d, ofs) == Some((e, |Encode(e)|)) <==> |Encode(e)| < 256
  {
    if e.message.Voice? {
      VoiceRoundTrip(d, ofs, e);
    } else {
      MetaRoundTrip(d, ofs, e);
    }
    if |Encode(e)| < 256 {
      ShortUncut(e);
    }
    SizeByte(|Encode(e)|);
  }

  /** There are events of 256 bytes, and the player would read them for ever. */
  function LongEvent(): (e: Event)
    ensures Writable(e) && |Encode(e)| == 256
  {
    Event(0, Meta(1, seq(251, _ => 0)))
  }

  lemma LongEventStalls(d: seq<Byte>, ofs: nat, e: Event)
    requires Writable(e) && |Encode(e)| == 256 && Stands(d, ofs, Encode(e))
    ensures Decode(d, ofs) == Some((Truncated(e), 0))
  {
    EventRoundTrip(d, ofs, e);
  }

  // ----- Tracks -----

  function Reader(d: seq<Byte>): nat -> Option<(Event, nat)> { o => Decode(d, o) }

  /** What repeated calls of `GetNextEvent` return, given what stands at each position. A size
      of 0, which a 256-byte event would get, is where they would return the same event for
      ever; the list stops there. */
  function ReadAll(next: nat -> Option<(Event, nat)>, ofs: nat, end: nat): seq<Event>
    decreases end - ofs
  {
    if ofs >= end || next(ofs).None? then []
    else
      var (e, size) := next(ofs).value;
      if size == 0 then [e] else [e] + ReadAll(next, ofs + size, end)
  }

  /** Every event met from `ofs` on has a size, so that reading moves on. */
  predicate Moves(next: nat -> Option<(Event, nat)>, ofs: nat, end: nat)
    decreases end - ofs
  {
    ofs >= end || next(ofs).None? || (next(ofs).value.1 > 0 && Moves(next, ofs + next(ofs).value.1, end))
  }

  /** The next `n` reads all return an event. */
  predicate Keeps(next: nat -> Option<(Event, nat)>, ofs: nat, end: nat, n: nat)
    decreases n
  {
    n == 0 || (ofs < end && next(ofs).Some? && Keeps(next, ofs + next(ofs).value.1, end, n - 1))
  }

  lemma {:induction false} StopsReading(next: nat -> Option<(Event, nat)>, ofs: nat, end: nat) returns (n: nat)
    requires Moves(next, ofs, end)
    ensures !Keeps(next, ofs, end, n)
    decreases end - ofs
  {
    if ofs >= end || next(ofs).None? {
      n := 1;
    } else {
      n := StopsReading(next, ofs + next(ofs).value.1, end);
      n := n + 1;
    }
  }

  lemma {:induction false} KeepsReading(next: nat -> Option<(Event, nat)>, ofs: nat, end: nat, n: nat)
    requires !Moves(next, ofs, end)
    ensures Keeps(next, ofs, end, n)
    decreases n
  {
    if n > 0 {
      KeepsReading(next, ofs + next(ofs).value.1, end, n - 1);
    }
  }

  /** Reading a stream comes to an end exactly when every read moves on. */
  lemma ReadingEndsIff(next: nat -> Option<(Event, nat)>, ofs: nat, end: nat)
    ensures Moves(next, ofs, end) <==> exists n: nat :: !Keeps(next, ofs, end, n)
  {
    if Moves(next, ofs, end) {
      var n := StopsReading(next, ofs, end);
    } else {
      forall n: nat ensures Keeps(next, ofs, end, n) {
        KeepsReading(next, ofs, end, n);
      }
    }
  }

  /** `MIDITrackStream`, between its header and its end; `at` is what its data holds at each
      position. */
  class TrackStream {
    const at: nat -> Option<(Event, nat)>
    const end: nat
    var ofs: nat

    constructor (data: seq<Byte>, ofs: nat, end: nat)
      ensures this.at == Reader(data) && this.ofs == ofs && this.end == end
    {
      this.at, this.ofs, this.end := Reader(data), ofs, end;
    }

    /** The events still to come. */
    ghost function Rest(): seq<Event>
      reads this
    {
      ReadAll(at, ofs, end)
    }

    ghost predicate MovesOn()
      reads this
    {
      Moves(at, ofs, end)
    }

    /** `GetNextEvent`: nothing at the end of the track or at a byte it does not know. */
    method GetNextEvent() returns (e: Option<Event>)
      modifies this
      ensures if old(ofs) >= end || at(old(ofs)).None? then e == None && ofs == old(ofs)
              else e == Some(at(old(ofs)).value.0) && ofs == old(ofs) + at(old(ofs)).value.1
      ensures old(Rest()) == if e.None? then [] else if ofs == old(ofs) then [e.value] else [e.value] + Rest()
      ensures old(MovesOn()) && e.Some? ==> ofs > old(ofs) && MovesOn()
    {
      if ofs >= end {
        return None;
      }
      match at(ofs) {
        case None => return None;
        case Some((ev, size)) =>
          ofs := ofs + size;
          return Some(ev);
      }
    }
  }

  /** Event `k` is read at `at[k]` and leads to `at[k + 1]`. */
  predicate LeadsOn(next: nat -> Option<(Event, nat)>, es: seq<Event>, at: seq<nat>, k: nat)
    requires |at| == |es| + 1 && k < |es|
  {
    at[k] < at[k + 1] && next(at[k]) == Some((es[k], at[k + 1] - at[k]))
  }

  predicate AllLeadOn(next: nat -> Option<(Event, nat)>, es: seq<Event>, at: seq<nat>) {
    |at| == |es| + 1 && forall k | 0 <= k < |es| :: LeadsOn(next, es, at, k)
  }

  lemma {:induction false} ReadsOn(next: nat -> Option<(Event, nat)>, es: seq<Event>, at: seq<nat>, k: nat)
    requires AllLeadOn(next, es, at) && k <= |es|
    ensures ReadAll(next, at[k], at[|es|]) == es[k..] && Moves(next, at[k], at[|es|])
    ensures at[k] <= at[|es|]
    decreases |es| - k
  {
    if k < |es| {
      assert LeadsOn(next, es, at, k);
      ReadsOn(next, es, at, k + 1);
      assert es[k..] == [es[k]] + es[k + 1..];
    }
  }

  function Flatten(parts: seq<seq<Byte>>): seq<Byte> {
    if parts == [] then [] else Flatten(parts[..|parts| - 1]) + parts[|parts| - 1]
  }

  /** Where part `k` of a concatenation starts; where the whole ends for the last `k`. */
  function Start(parts: seq<seq<Byte>>, k: nat): nat
    requires k <= |parts|
  {
    |Flatten(parts[..k])|
  }

  lemma StartNext(parts: seq<seq<Byte>>, k: nat)
    requires k < |parts|
    ensures Start(parts, k + 1) == Start(parts, k) + |parts[k]|
  {
    assert parts[..k + 1][..k] == parts[..k];
  }

  lemma {:induction false} PartStands(d: seq<Byte>, ofs: nat, parts: seq<seq<Byte>>, k: nat)
    requires k < |parts| && Stands(d, ofs, Flatten(parts))
    ensures Stands(d, ofs + Start(parts, k), parts[k])
    decreases |parts|
  {
    var init, last := parts[..|parts| - 1], parts[|parts| - 1];
    StandsSplit(d, ofs, Flatten(init), last);
    if k < |parts| - 1 {
      PartStands(d, ofs, init, k);
      assert init[..k] == parts[..k];
    }
  }

  function Positions(parts: seq<seq<Byte>>, ofs: nat, n: nat): (at: seq<nat>)
    requires n <= |parts|
    ensures |at| == n + 1 && forall k | 0 <= k <= n :: at[k] == ofs + Start(parts, k)
  {
    if n == 0 then [ofs + Start(parts, 0)] else Positions(parts, ofs, n - 1) + [ofs + Start(parts, n)]
  }

  /** `s` is how `e` is written, in at most 255 bytes. */
  predicate Spells(e: Event, s: seq<Byte>) { Writable(e) && s == Encode(e) && |s| < 256 }

  lemma PartDecodes(d: seq<Byte>, ofs: nat, e: Event, s: seq<Byte>)
    requires Spells(e, s) && Stands(d, ofs, s)
    ensures Reader(d)(ofs) == Some((e, |s|)) && |s| > 0
  {
    EventRoundTrip(d, ofs, e);
  }

  lemma PartLeadsOn(next: nat -> Option<(Event, nat)>, ofs: nat, es: seq<Event>, parts: seq<seq<Byte>>, k: nat)
    requires k < |es| == |parts| && |parts[k]| > 0
    requires next(ofs + Start(parts, k)) == Some((es[k], |parts[k]|))
    ensures LeadsOn(next, es, Positions(parts, ofs, |parts|), k)
  {
    StartNext(parts, k);
  }

  lemma ReadsTrack(next: nat -> Option<(Event, nat)>, ofs: nat, es: seq<Event>, parts: seq<seq<Byte>>)
    requires |es| == |parts| && AllLeadOn(next, es, Positions(parts, ofs, |parts|))
    ensures ReadAll(next, ofs, ofs + |Flatten(parts)|) == es && Moves(next, ofs, ofs + |Flatten(parts)|)
  {
    assert parts[..|es|] == parts;
    ReadsOn(next, es, Positions(parts, ofs, |parts|), 0);
  }

  lemma OneLeadsOn(d: seq<Byte>, ofs: nat, es: seq<Event>, parts: seq<seq<Byte>>, k: nat)
    requires k < |es| == |parts| && Spells(es[k], parts[k]) && Stands(d, ofs + Start(parts, k), parts[k])
    ensures LeadsOn(Reader(d), es, Positions(parts, ofs, |parts|), k)
  {
    PartDecodes(d, ofs + Start(parts, k), es[k], parts[k]);
    PartLeadsOn(Reader(d), ofs, es, parts, k);
  }

  lemma TrackLeadsOn(d: seq<Byte>, ofs: nat, es: seq<Event>, parts: seq<seq<Byte>>)
    requires |es| == |parts| && forall i | 0 <= i < |es| :: Spells(es[i], parts[i])
    requires Stands(d, ofs, Flatten(parts))
    ensures AllLeadOn(Reader(d), es, Positions(parts, ofs, |parts|))
  {
    forall k | 0 <= k < |es| ensures LeadsOn(Reader(d), es, Positions(parts, ofs, |parts|), k) {
      PartStands(d, ofs, parts, k);
      OneLeadsOn(d, ofs, es, parts, k);
    }
  }

  /** A track written event by event, none longer than 255 bytes, reads back as the same events. */
  lemma TrackRoundTrip(d: seq<Byte>, ofs: nat, es: seq<Event>, parts: seq<seq<Byte>>)
    requires |es| == |parts| && forall i | 0 <= i < |es| :: Spells(es[i], parts[i])
    requires Stands(d, ofs, Flatten(parts))
    ensures ReadAll(Reader(d), ofs, ofs + |Flatten(parts)|) == es && Moves(Reader(d), ofs, ofs + |Flatten(parts)|)
  {
    TrackLeadsOn(d, ofs, es, parts);
    ReadsTrack(Reader(d), ofs, es, parts);
  }
}
