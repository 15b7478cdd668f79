/** Sharing the nine channels of a sound chip between notes that are switched on and off. */
module Voices {

  // ----- Held notes -----

  /** The notes of a multiset. */
  ghost function Notes(held: multiset<int>): set<int> { set n | n in held }

  /** What switching a note on does to the held notes: a tenth note is given up. */
  ghost function On(held: multiset<int>, n: int): multiset<int> {
    if n in held || |Notes(held)| < 9 then held + multiset{n} else held
  }

  /** What switching a note off does; a note that is not held stays off. */
  ghost function Off(held: multiset<int>, n: int): multiset<int> { held - multiset{n} }

  datatype Op = NoteOn(note: int) | NoteOff(note: int)

  ghost function Run(ops: seq<Op>): multiset<int> {
    if ops == [] then multiset{}
    else
      var before := Run(ops[..|ops| - 1]);
      match ops[|ops| - 1] case NoteOn(n) => On(before, n) case NoteOff(n) => Off(before, n)
  }

  /** The same on a chip with a channel for every note. */
  ghost function Ideal(ops: seq<Op>): multiset<int> {
    if ops == [] then multiset{}
    else
      var before := Ideal(ops[..|ops| - 1]);
      match ops[|ops| - 1] case NoteOn(n) => before + multiset{n} case NoteOff(n) => before - multiset{n}
  }

  ghost predicate Agrees(ops: seq<Op>, k: nat)
    requires k <= |ops|
  {
    Run(ops[..k]) == Ideal(ops[..k])
  }

  ghost predicate Fits(ops: seq<Op>, k: nat)
    requires k <= |ops|
  {
    |Notes(Ideal(ops[..k]))| <= 9
  }

  lemma OneMore(held: multiset<int>, n: int)
    ensures Notes(held + multiset{n}) == Notes(held) + {n}
    ensures |Notes(held + multiset{n})| == |Notes(held)| + if n in held then 0 else 1
  {
    assert Notes(held + multiset{n}) == Notes(held) + {n};
    if n in held {
      assert Notes(held) + {n} == Notes(held);
    }
  }

  lemma StillNine(held: multiset<int>, n: int)
    requires |Notes(held)| <= 9
    ensures |Notes(On(held, n))| <= 9
  {
    OneMore(held, n);
  }

  lemma {:induction false} AtMostNine(ops: seq<Op>)
    ensures |Notes(Run(ops))| <= 9
  {
    if ops == [] {
      assert Notes(multiset{}) == {};
    } else {
      var before := Run(ops[..|ops| - 1]);
      AtMostNine(ops[..|ops| - 1]);
      var n := ops[|ops| - 1].note;
      StillNine(before, n);
      SubsetSize(Notes(Off(before, n)), Notes(before));
    }
  }

  lemma SubsetSize(s: set<int>, t: set<int>)
    requires s <= t
    ensures |s| <= |t|
  {
    assert t == s + (t - s);
  }

  /** One operation keeps the chips in agreement if nine channels are enough after it. */
  lemma AgreesNext(ops: seq<Op>, k: nat)
    requires k < |ops| && Agrees(ops, k) && Fits(ops, k + 1)
    ensures Agrees(ops, k + 1)
  {
    var upto := ops[..k + 1];
    assert upto[..k] == ops[..k];
    var before := Run(ops[..k]);
    OneMore(before, ops[k].note);
  }

  lemma {:induction false} AgreesUpTo(ops: seq<Op>, k: nat)
    requires k <= |ops| && forall j | 0 <= j <= |ops| :: Fits(ops, j)
    ensures Agrees(ops, k)
  {
    if k > 0 {
      AgreesUpTo(ops, k - 1);
      AgreesNext(ops, k - 1);
    }
  }

  /** Nine channels do what unlimited ones would, all along a run, exactly when the run never
      asks for more than nine different notes at once. */
  lemma NineSuffice(ops: seq<Op>)
    ensures (forall k | 0 <= k <= |ops| :: Agrees(ops, k)) <==> (forall k | 0 <= k <= |ops| :: Fits(ops, k))
  {
    if forall k | 0 <= k <= |ops| :: Fits(ops, k) {
      forall k | 0 <= k <= |ops| ensures Agrees(ops, k) { AgreesUpTo(ops, k); }
    }
    if forall k | 0 <= k <= |ops| :: Agrees(ops, k) {
      forall k | 0 <= k <= |ops| ensures Fits(ops, k) {
        assert Agrees(ops, k);
        AtMostNine(ops[..k]);
      }
    }
  }

  /** Switching on `k` different notes. */
  function Different(k: nat): seq<Op> { seq(k, i => NoteOn(13 + i)) }

  lemma {:induction false} NineFit(k: nat)
    requires k <= 9
    ensures Run(Different(k)) == Ideal(Different(k)) && |Notes(Run(Different(k)))| == k
    ensures forall n | n in Ideal(Different(k)) :: 13 <= n < 13 + k
  {
    var ops := Different(k);
    if k == 0 {
      assert Notes(multiset{}) == {};
    } else {
      NineFit(k - 1);
      assert ops[..k - 1] == Different(k - 1) && ops[k - 1] == NoteOn(12 + k);
      OneMore(Run(Different(k - 1)), 12 + k);
    }
  }

  /** The tenth of ten notes held together is given up. */
  lemma TenthGivenUp()
    ensures 22 in Ideal(Different(10)) && 22 !in Run(Different(10))
  {
    NineFit(9);
    assert Different(10)[..9] == Different(9) && Different(10)[9] == NoteOn(22);
  }

  // ----- Channels -----

  /** The notes of the first `k` channels. */
  ghost function Playing(note: seq<int>, k: nat): set<int>
    requires k <= |note|
  {
    set c | 0 <= c < k && note[c] != -1 :: note[c]
  }

  ghost function Busy(note: seq<int>, k: nat): nat
    requires k <= |note|
  {
    if k == 0 then 0 else Busy(note, k - 1) + if note[k - 1] == -1 then 0 else 1
  }

  ghost predicate Injective(note: seq<int>) {
    forall c, d | 0 <= c < d < |note| && note[c] != -1 :: note[c] != note[d]
  }

  lemma PlayingNext(note: seq<int>, k: nat)
    requires k < |note| && Injective(note)
    ensures note[k] == -1 ==> Playing(note, k + 1) == Playing(note, k)
    ensures note[k] != -1 ==> Playing(note, k + 1) == Playing(note, k) + {note[k]} && note[k] !in Playing(note, k)
  {
  }

  lemma {:induction false} BusyCounts(note: seq<int>, k: nat)
    requires k <= |note| && Injective(note)
    ensures |Playing(note, k)| == Busy(note, k)
  {
    if k > 0 {
      BusyCounts(note, k - 1);
      PlayingNext(note, k - 1);
    }
  }

  lemma {:induction false} AllBusy(note: seq<int>, k: nat)
    requires k <= |note|
    ensures Busy(note, k) <= k
    ensures Busy(note, k) == k <==> forall c | 0 <= c < k :: note[c] != -1
  {
    if k > 0 {
      AllBusy(note, k - 1);
    }
  }

  // ----- The allocator -----

  /** The tables of the allocator and what the chip plays; -1 is no note and no channel. */
  datatype State = State(count: seq<nat>, ch: seq<int>, note: seq<int>, sound: seq<int>) {
    ghost predicate Shape() { |count| == |ch| == 256 && |note| == |sound| == 9 }

    ghost predicate NoteOk(held: multiset<int>, n: int)
      requires Shape() && 0 <= n < 256
    {
      && held[n] == count[n]
      && (if count[n] == 0 then ch[n] == -1 else 0 <= ch[n] < 9 && note[ch[n]] == n)
    }

    ghost predicate ChannelOk(c: int)
      requires Shape() && 0 <= c < 9
    {
      && sound[c] == note[c]
      && (note[c] != -1 ==> 0 <= note[c] < 256 && ch[note[c]] == c)
    }

    /** Counts are the held notes; held notes and busy channels correspond one to one; the
        chip plays exactly them. */
    ghost predicate Holds(held: multiset<int>) {
      && Shape()
      && (forall n | n in held :: 0 <= n < 256)
      && (forall n | 0 <= n < 256 :: NoteOk(held, n))
      && (forall c | 0 <= c < 9 :: ChannelOk(c))
    }

    /** There is a free channel exactly when fewer than nine notes are held. */
    lemma FreeChannel(held: multiset<int>)
      requires Holds(held)
      ensures |Notes(held)| < 9 <==> exists c | 0 <= c < 9 :: note[c] == -1
    {
      forall c, d | 0 <= c < d < 9 && note[c] != -1 ensures note[c] != note[d] {
        assert ChannelOk(c) && ChannelOk(d);
      }
      forall n | n in held ensures n in Playing(note, 9) {
        assert NoteOk(held, n) && note[ch[n]] == n;
      }
      forall c | 0 <= c < 9 && note[c] != -1 ensures note[c] in held {
        assert ChannelOk(c) && NoteOk(held, note[c]);
      }
      assert Notes(held) == Playing(note, 9);
      BusyCounts(note, 9);
      AllBusy(note, 9);
    }

    /** Every held note is played, by one channel, and nothing else is. */
    lemma PlaysHeld(held: multiset<int>)
      requires Holds(held)
      ensures forall n | n != -1 :: n in held <==> exists c | 0 <= c < 9 :: sound[c] == n
      ensures Injective(sound)
    {
      forall n | n in held ensures exists c | 0 <= c < 9 :: sound[c] == n {
        assert NoteOk(held, n) && ChannelOk(ch[n]) && sound[ch[n]] == n;
      }
      forall c | 0 <= c < 9 && sound[c] != -1 ensures sound[c] in held {
        assert ChannelOk(c) && NoteOk(held, note[c]);
      }
      forall c, d | 0 <= c < d < 9 && sound[c] != -1 ensures sound[c] != sound[d] {
        assert ChannelOk(c) && ChannelOk(d);
      }
    }

    /** Counting a held note once more or less, but not to nothing, keeps the channels. */
    lemma Recounted(held: multiset<int>, n: int, k: nat)
      requires Holds(held) && 0 <= n < 256 && count[n] > 0 && k > 0
      ensures this.(count := count[n := k]).Holds(held[n := k])
    {
      var v := this.(count := count[n := k]);
      var h := held[n := k];
      forall m | 0 <= m < 256 ensures v.NoteOk(h, m) { assert NoteOk(held, m); }
      forall c | 0 <= c < 9 ensures v.ChannelOk(c) { assert ChannelOk(c); }
    }

    lemma Entered(held: multiset<int>, n: int, i: int)
      requires Holds(held) && 0 <= n < 256 && count[n] == 0 && 0 <= i < 9 && note[i] == -1
      ensures State(count[n := 1], ch[n := i], note[i := n], sound[i := n]).Holds(held[n := 1])
    {
      var v := State(count[n := 1], ch[n := i], note[i := n], sound[i := n]);
      var h := held[n := 1];
      forall m | 0 <= m < 256 ensures v.NoteOk(h, m) { assert NoteOk(held, m); }
      forall c | 0 <= c < 9 ensures v.ChannelOk(c) {
        assert ChannelOk(c) && NoteOk(held, n);
      }
    }

    lemma Left(held: multiset<int>, n: int)
      requires Holds(held) && 0 <= n < 256 && count[n] > 0
      ensures 0 <= ch[n] < 9 && sound[ch[n]] == n
      ensures State(count[n := 0], ch[n := -1], note[ch[n] := -1], sound[ch[n] := -1]).Holds(held[n := 0])
    {
      assert NoteOk(held, n) && ChannelOk(ch[n]);
      var v := State(count[n := 0], ch[n := -1], note[ch[n] := -1], sound[ch[n] := -1]);
      var h := held[n := 0];
      forall m | 0 <= m < 256 ensures v.NoteOk(h, m) { assert NoteOk(held, m); }
      forall c | 0 <= c < 9 ensures v.ChannelOk(c) { assert ChannelOk(c); }
    }
  }

  /** The static tables of `Adlib`. */
  class Adlib {
    const noteOnCount: array<nat>
    const chOfNote: array<int>
    const noteOfCh: array<int>
    const sound: array<int>
    ghost var held: multiset<int>

    ghost function Tables(): State
      reads noteOnCount, chOfNote, noteOfCh, sound
    {
      State(noteOnCount[..], chOfNote[..], noteOfCh[..], sound[..])
    }

    ghost predicate Valid()
      reads this, noteOnCount, chOfNote, noteOfCh, sound
    {
      && Tables().Holds(held)
      && chOfNote != noteOfCh && chOfNote != sound && noteOfCh != sound
    }

    constructor ()
      ensures Valid() && held == multiset{}
      ensures fresh(noteOnCount) && fresh(chOfNote) && fresh(noteOfCh) && fresh(sound)
    {
      noteOnCount := new nat[256](_ => 0);
      chOfNote := new int[256](_ => -1);
      noteOfCh := new int[9](_ => -1);
      sound := new int[9](_ => -1);
      held := multiset{};
    }

    method StopSound(c: int)
      requires 0 <= c < sound.Length
      modifies sound
      ensures sound[..] == old(sound[..])[c := -1]
    {
      sound[c] := -1;
    }

    method TurnOffAllNotes()
      requires Valid()
      modifies this, noteOnCount, chOfNote, noteOfCh, sound
      ensures Valid() && held == multiset{}
      ensures forall c | 0 <= c < 9 :: sound[c] == -1
    {
      for i := 0 to 9
        modifies noteOfCh, sound
        invariant forall c | 0 <= c < i :: noteOfCh[c] == sound[c] == -1
      {
        StopSound(i);
        noteOfCh[i] := -1;
      }
      for i := 0 to 256
        modifies noteOnCount, chOfNote
        invariant forall n | 0 <= n < i :: noteOnCount[n] == 0 && chOfNote[n] == -1
      {
        noteOnCount[i] := 0;
        chOfNote[i] := -1;
      }
      held := multiset{};
    }

    method NoteOn(n: int)
      requires Valid() && 13 <= n <= 108
      modifies this, noteOnCount, chOfNote, noteOfCh, sound
      ensures Valid() && held == On(old(held), n)
      ensures forall c | 0 <= c < 9 && old(sound[c]) != -1 :: sound[c] == old(sound[c])
      ensures forall c, d | 0 <= c < d < 9 && old(sound[c]) == sound[c] == -1 :: sound[d] == old(sound[d])
    {
      ghost var was := Tables();
      was.FreeChannel(held);
      assert was.NoteOk(held, n);
      if noteOnCount[n] != 0 {
        was.Recounted(held, n, noteOnCount[n] + 1);
        noteOnCount[n] := noteOnCount[n] + 1;
        held := held[n := noteOnCount[n]];
        assert Tables() == was.(count := was.count[n := noteOnCount[n]]);
        return;
      }
      for i := 0 to 9
        invariant Tables() == was && unchanged(this)
        invariant forall c | 0 <= c < i :: noteOfCh[c] != -1
      {
        if noteOfCh[i] == -1 {
          forall c | 0 <= c <= i ensures was.sound[c] == was.note[c] { assert was.ChannelOk(c); }
          was.Entered(held, n, i);
          noteOfCh[i] := n;
          noteOnCount[n] := 1;
          chOfNote[n] := i;
          sound[i] := n;
          held := held[n := 1];
          assert Tables() == State(was.count[n := 1], was.ch[n := i], was.note[i := n], was.sound[i := n]);
          return;
        }
      }
    }

    method NoteOff(n: int)
      requires Valid() && 13 <= n <= 108
      modifies this, noteOnCount, chOfNote, noteOfCh, sound
      ensures Valid() && held == Off(old(held), n)
      ensures forall c | 0 <= c < 9 && old(sound[c]) != n :: sound[c] == old(sound[c])
    {
      ghost var was := Tables();
      assert was.NoteOk(held, n);
      if noteOnCount[n] == 0 {
        return;
      }
      noteOnCount[n] := noteOnCount[n] - 1;
      held := held[n := noteOnCount[n]];
      if noteOnCount[n] != 0 {
        was.Recounted(old(held), n, noteOnCount[n]);
        assert Tables() == was.(count := was.count[n := noteOnCount[n]]);
        return;
      }
      was.Left(old(held), n);
      var c := chOfNote[n];
      StopSound(c);
      noteOfCh[c] := -1;
      chOfNote[n] := -1;
      assert Tables() == State(was.count[n := 0], was.ch[n := -1], was.note[c := -1], was.sound[c := -1]);
    }
  }
}
