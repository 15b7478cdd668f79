/** The Internet checksum: sections 1 and 2 of RFC 1071. */
module Checksum {
  import opened Basics

  function Word(hi: Byte, lo: Byte): (w: nat)
    ensures w < 0x1_0000
  {
    var h: int := hi;
    h * 256 + lo
  }

  /** A 16-bit word as the two bytes that hold it, high byte first. */
  datatype Csum = Csum(hi: Byte, lo: Byte) {
    function Value(): nat { Word(hi, lo) }
  }

  // ----- One's complement sums -----

  function Sum(ws: seq<nat>): nat { if ws == [] then 0 else Sum(ws[..|ws| - 1]) + ws[|ws| - 1] }

  /** The 16-bit one's complement value of a sum: its residue modulo 65535, where 0 stands for
      the empty sum only. */
  function Residue(s: nat): (r: nat)
    ensures r < 0x1_0000 && (r == 0 <==> s == 0)
  {
    if s == 0 then 0 else (s - 1) % 65535 + 1
  }

  /** The checksum of a list of 16-bit words. */
  function Checksum(ws: seq<nat>): (c: nat)
    ensures c < 0x1_0000
  {
    65535 - Residue(Sum(ws))
  }

  ghost predicate Words16(ws: seq<nat>) { forall i | 0 <= i < |ws| :: ws[i] < 0x1_0000 }

  /** `s` is zero in one's complement. */
  lemma ResidueMax(s: nat)
    ensures Residue(s) == 65535 <==> s > 0 && s % 65535 == 0
  {
    if s > 0 {
      var q, r := s / 65535, s % 65535;
      assert s == 65535 * q + r;
      if r == 0 {
        Quotient(s - 1, q - 1, 65534);
      } else {
        Quotient(s - 1, q, r - 1);
      }
    }
  }

  lemma Quotient(s: int, q: int, r: int)
    requires s == 65535 * q + r && 0 <= r < 65535
    ensures s % 65535 == r && s / 65535 == q
  {
  }

  /** Carrying the upper half into the lower keeps the one's complement value. */
  lemma FoldKeeps(s: nat)
    requires s >= 0x1_0000
    ensures Residue(s % 0x1_0000 + s / 0x1_0000) == Residue(s)
    ensures 0 < s % 0x1_0000 + s / 0x1_0000 < s
  {
    var h, l := s / 0x1_0000, s % 0x1_0000;
    assert s == 0x1_0000 * h + l;
    var q, r := (h + l - 1) / 65535, (h + l - 1) % 65535;
    assert h + l - 1 == 65535 * q + r;
    Quotient(s - 1, q + h, r);
  }

  lemma {:induction false} SumBound(ws: seq<nat>)
    requires Words16(ws)
    ensures Sum(ws) <= 65535 * |ws|
  {
    if ws != [] {
      SumBound(ws[..|ws| - 1]);
    }
  }

  lemma {:induction false} SumAppend(a: seq<nat>, b: seq<nat>)
    ensures Sum(a + b) == Sum(a) + Sum(b)
  {
    if b == [] {
      assert a + b == a;
    } else {
      assert (a + b)[..|a + b| - 1] == a + b[..|b| - 1];
      SumAppend(a, b[..|b| - 1]);
    }
  }

  lemma SumAt(ws: seq<nat>, i: nat, w: nat)
    requires i < |ws|
    ensures Sum(ws[i := w]) == Sum(ws) - ws[i] + w
  {
    var vs := ws[i := w];
    assert ws == ws[..i] + [ws[i]] + ws[i + 1..];
    assert vs == ws[..i] + [w] + ws[i + 1..];
    SumAppend(ws[..i] + [ws[i]], ws[i + 1..]);
    SumAppend(ws[..i], [ws[i]]);
    SumAppend(ws[..i] + [w], ws[i + 1..]);
    SumAppend(ws[..i], [w]);
  }

  /** Storing the checksum of a list with a zero field in that field makes the whole sum to
      one's complement zero. */
  lemma StoredVerifies(ws: seq<nat>, i: nat)
    requires i < |ws| && ws[i] == 0
    ensures Checksum(ws[i := Checksum(ws)]) == 0
  {
    var s, c := Sum(ws), Checksum(ws);
    SumAt(ws, i, c);
    if s > 0 {
      var q := (s - 1) / 65535;
      assert s - 1 == 65535 * q + (s - 1) % 65535;
      assert s + c == 65535 * (q + 1);
      Quotient(s + c, q + 1, 0);
    }
    ResidueMax(s + c);
  }

  /** What a receiver who gets 0 knows: a word can only have been exchanged for the other form
      of zero. */
  lemma DetectsWord(ws: seq<nat>, i: nat, w: nat)
    requires i < |ws| && Words16(ws) && w < 0x1_0000 && Checksum(ws) == 0
    ensures Checksum(ws[i := w]) == 0 <==>
            w == ws[i] || (w == 65535 && ws[i] == 0) || (w == 0 && ws[i] == 65535 && Sum(ws) > 65535)
  {
    SumAt(ws, i, w);
    var s, t := Sum(ws), Sum(ws[i := w]);
    ResidueMax(s);
    ResidueMax(t);
    var q := s / 65535;
    assert s == 65535 * q;
    if w > ws[i] {
      Quotient(t, if w == 65535 && ws[i] == 0 then q + 1 else q, if w == 65535 && ws[i] == 0 then 0 else w - ws[i]);
    } else if w < ws[i] {
      Quotient(t, q - 1, if ws[i] == 65535 && w == 0 then 0 else 65535 + w - ws[i]);
    }
  }

  /** The order of the words does not matter. */
  lemma {:induction false} SumPermuted(a: seq<nat>, b: seq<nat>)
    requires multiset(a) == multiset(b)
    ensures Sum(a) == Sum(b)
    decreases |a|
  {
    assert |a| == |multiset(a)| == |b|;
    if a != [] {
      var init, w := a[..|a| - 1], a[|a| - 1];
      assert a == init + [w];
      assert w in multiset(b);
      var j :| 0 <= j < |b| && b[j] == w;
      var rest := b[..j] + b[j + 1..];
      assert b == b[..j] + [w] + b[j + 1..];
      assert multiset(b) == multiset(rest) + multiset{w};
      assert multiset(a) == multiset(init) + multiset{w};
      assert multiset(init) == multiset(a) - multiset{w} == multiset(rest);
      SumPermuted(init, rest);
      SumAppend(b[..j], b[j + 1..]);
      SumAppend(b[..j] + [w], b[j + 1..]);
      SumAppend(b[..j], [w]);
    }
  }

  lemma ChecksumPermuted(a: seq<nat>, b: seq<nat>)
    requires multiset(a) == multiset(b)
    ensures Checksum(a) == Checksum(b)
  {
    SumPermuted(a, b);
  }

  // ----- Thirty-two bits -----

  /** The sum a 32-bit accumulator ends with. */
  function Wrapped(s: nat): nat { s % 0x1_0000_0000 }

  /** Lists of at most 65537 words do not overflow. */
  lemma NoOverflow(ws: seq<nat>)
    requires Words16(ws) && |ws| <= 65537
    ensures Wrapped(Sum(ws)) == Sum(ws)
  {
    SumBound(ws);
  }

  /** Every overflow loses one, so up to 65535 overflows the checksum is right exactly when
      there was none. */
  lemma RightUnlessOverflow(s: nat)
    requires s < 65535 * 0x1_0000_0000
    ensures Residue(Wrapped(s)) == Residue(s) <==> s < 0x1_0000_0000
  {
    var n, w := s / 0x1_0000_0000, s % 0x1_0000_0000;
    assert s == 0x1_0000_0000 * n + w && 0 <= n < 65535;
    if n > 0 && w > 0 {
      var q, r := (w - 1) / 65535, (w - 1) % 65535;
      assert w - 1 == 65535 * q + r;
      assert s - 1 == 65535 * (65537 * n + q) + (r + n);
      if r + n < 65535 {
        Quotient(s - 1, 65537 * n + q, r + n);
      } else {
        Quotient(s - 1, 65537 * n + q + 1, r + n - 65535);
      }
    }
  }

  // ----- Buffers -----

  /** How many words start before `end`. */
  function Count(start: nat, end: nat): nat { if start >= end then 0 else (end - start + 1) / 2 }

  /** The words of `p` that start at `start`, `start + 2`, ..., before `end`. */
  function WordsOf(p: seq<Byte>, start: nat, end: nat): (ws: seq<nat>)
    requires start + 2 * Count(start, end) <= |p|
    ensures |ws| == Count(start, end)
    ensures forall i | 0 <= i < |ws| :: ws[i] == Word(p[start + 2 * i], p[start + 2 * i + 1])
  {
    seq(Count(start, end), i requires 0 <= i < Count(start, end) => Word(p[start + 2 * i], p[start + 2 * i + 1]))
  }

  lemma WordsAre16(p: seq<Byte>, start: nat, end: nat)
    requires start + 2 * Count(start, end) <= |p|
    ensures Words16(WordsOf(p, start, end))
  {
  }

  lemma SumTake(ws: seq<nat>, k: nat)
    requires k < |ws|
    ensures Sum(ws[..k + 1]) == Sum(ws[..k]) + ws[k]
  {
    assert ws[..k + 1][..k] == ws[..k];
  }

  lemma WrapAdd(s: nat, w: nat)
    ensures (Wrapped(s) + w) % 0x1_0000_0000 == Wrapped(s + w)
  {
  }

  /** A word is left exactly while its first byte is before the end. */
  lemma WordLeft(start: nat, end: nat, k: nat)
    ensures start + 2 * k < end <==> k < Count(start, end)
  {
  }

  lemma SumNext(sum0: nat, ws: seq<nat>, k: nat)
    requires k < |ws|
    ensures (Wrapped(sum0 + Sum(ws[..k])) + ws[k]) % 0x1_0000_0000 == Wrapped(sum0 + Sum(ws[..k + 1]))
  {
    SumTake(ws, k);
    WrapAdd(sum0 + Sum(ws[..k]), ws[k]);
  }

  /** The loop of `InternetChecksum::Calc` over the buffer, from the sum `sum0`. */
  method AddWords(sum0: nat, p: seq<Byte>, start: nat, end: nat) returns (sum: nat)
    requires sum0 < 0x1_0000_0000 && start + 2 * Count(start, end) <= |p|
    ensures sum == Wrapped(sum0 + Sum(WordsOf(p, start, end)))
  {
    sum := sum0;
    var i := start;
    ghost var k := 0;
    ghost var ws := WordsOf(p, start, end);
    while i < end
      invariant i == start + 2 * k && 0 <= k <= |ws|
      invariant sum == Wrapped(sum0 + Sum(ws[..k]))
    {
      WordLeft(start, end, k);
      SumNext(sum0, ws, k);
      sum := (sum + Word(p[i], p[i + 1])) % 0x1_0000_0000;
      i := i + 2;
      k := k + 1;
    }
    WordLeft(start, end, k);
    assert ws[..k] == ws;
  }

  /** Folding, complementing and splitting into bytes. */
  method Finish(sum0: nat) returns (c: Csum)
    ensures c.Value() == 65535 - Residue(sum0)
  {
    var sum: nat := sum0;
    while sum / 0x1_0000 != 0
      invariant Residue(sum) == Residue(sum0)
      decreases sum
    {
      FoldKeeps(sum);
      sum := sum % 0x1_0000 + sum / 0x1_0000;
    }
    assert Residue(sum) == sum;
    c := Csum((65535 - sum) / 256, (65535 - sum) % 256);
  }

  /** `InternetChecksum::Calc`. */
  method Calc(p: seq<Byte>, start: nat, end: nat) returns (c: Csum)
    requires start + 2 * Count(start, end) <= |p|
    ensures c.Value() == 65535 - Residue(Wrapped(Sum(WordsOf(p, start, end))))
    ensures end <= start + 131074 ==> c.Value() == Checksum(WordsOf(p, start, end))
  {
    var sum := AddWords(0, p, start, end);
    c := Finish(sum);
    WordsAre16(p, start, end);
    if end <= start + 131074 {
      NoOverflow(WordsOf(p, start, end));
    }
  }

  lemma {:induction false} SumOfOnes(n: nat)
    ensures Sum(seq(n, _ => 65535)) == 65535 * n
  {
    if n > 0 {
      var ws := seq(n, _ => 65535);
      assert ws[..n - 1] == seq(n - 1, _ => 65535);
      SumOfOnes(n - 1);
    }
  }

  /** One word too many: 131076 bytes of ones get the wrong checksum. */
  lemma OverflowExample()
    ensures var p: seq<Byte> := seq(131076, _ => 255); var ws := WordsOf(p, 0, 131076);
            65535 - Residue(Wrapped(Sum(ws))) != Checksum(ws)
  {
    var p: seq<Byte> := seq(131076, _ => 255);
    assert WordsOf(p, 0, 131076) == seq(65538, _ => 65535);
    SumOfOnes(65538);
    RightUnlessOverflow(65538 * 65535);
  }

  /** The words of a UDP pseudo-header of 12 bytes: the addresses, a zero byte, the protocol and the
      length. */
  lemma PseudoSum(src: seq<Byte>, dst: seq<Byte>, udpLength: seq<Byte>)
    requires |src| == |dst| == 4 && |udpLength| == 2
    ensures var ws := WordsOf(src + dst + [0, 17] + udpLength, 0, 12);
            && Words16(ws) && |ws| == 6
            && Sum(ws) == Word(src[0], src[1]) + Word(src[2], src[3]) + Word(dst[0], dst[1]) + Word(dst[2], dst[3])
                          + Word(udpLength[0], udpLength[1]) + 17
  {
    var h := src + dst + [0, 17] + udpLength;
    var ws := WordsOf(h, 0, 12);
    WordsAre16(h, 0, 12);
    SumSix(ws);
    assert ws[0] == Word(src[0], src[1]) && ws[1] == Word(src[2], src[3]);
    assert ws[2] == Word(dst[0], dst[1]) && ws[3] == Word(dst[2], dst[3]);
    assert ws[4] == Word(0, 17) == 17 && ws[5] == Word(udpLength[0], udpLength[1]);
  }

  lemma SumSix(ws: seq<nat>)
    requires |ws| == 6
    ensures Sum(ws) == ws[0] + ws[1] + ws[2] + ws[3] + ws[4] + ws[5]
  {
    assert ws == [] + [ws[0]] + [ws[1]] + [ws[2]] + [ws[3]] + [ws[4]] + [ws[5]];
    SumAppend([ws[0]] + [ws[1]] + [ws[2]], [ws[3]] + [ws[4]] + [ws[5]]);
    assert ws == ([ws[0]] + [ws[1]] + [ws[2]]) + ([ws[3]] + [ws[4]] + [ws[5]]);
    SumAppend([ws[0]] + [ws[1]], [ws[2]]);
    SumAppend([ws[0]], [ws[1]]);
    SumAppend([ws[3]] + [ws[4]], [ws[5]]);
    SumAppend([ws[3]], [ws[4]]);
  }

  /** `CalcUDPChecksum`: the checksum of the pseudo-header followed by the datagram. */
  method CalcUDPChecksum(p: seq<Byte>, start: nat, end: nat, src: seq<Byte>, dst: seq<Byte>, udpLength: seq<Byte>)
    returns (c: Csum)
    requires start + 2 * Count(start, end) <= |p| && |src| == |dst| == 4 && |udpLength| == 2
    ensures var ws := WordsOf(src + dst + [0, 17] + udpLength, 0, 12) + WordsOf(p, start, end);
            && c.Value() == 65535 - Residue(Wrapped(Sum(ws)))
            && (end <= start + 131062 ==> c.Value() == Checksum(ws))
  {
    var sum := Word(src[0], src[1]);
    sum := sum + Word(src[2], src[3]);
    sum := sum + Word(dst[0], dst[1]);
    sum := sum + Word(dst[2], dst[3]);
    sum := sum + Word(udpLength[0], udpLength[1]);
    sum := sum + 17;
    ghost var head, ws := WordsOf(src + dst + [0, 17] + udpLength, 0, 12), WordsOf(p, start, end);
    PseudoSum(src, dst, udpLength);
    SumAppend(head, ws);
    sum := AddWords(sum, p, start, end);
    c := Finish(sum);
    WordsAre16(p, start, end);
    if end <= start + 131062 {
      NoOverflow(head + ws);
    }
  }

  /** The words before and after a checksum is stored at `f`. */
  lemma StoredWords(p: seq<Byte>, q: seq<Byte>, start: nat, end: nat, f: nat, c: Csum)
    requires start <= f && (f - start) % 2 == 0 && f + 1 < end && start + 2 * Count(start, end) <= |p| == |q|
    requires q == p[f := c.hi][f + 1 := c.lo]
    ensures WordsOf(q, start, end) == WordsOf(p, start, end)[(f - start) / 2 := c.Value()]
  {
    var ws, vs := WordsOf(p, start, end), WordsOf(q, start, end);
    var i := (f - start) / 2;
    forall k | 0 <= k < |vs| ensures vs[k] == ws[i := c.Value()][k] {
    }
  }

  /** Storing the checksum of a buffer into a field that was zero. */
  lemma StoredIsZero(p: seq<Byte>, q: seq<Byte>, start: nat, end: nat, f: nat, c: Csum)
    requires start <= f && (f - start) % 2 == 0 && f + 1 < end && start + 2 * Count(start, end) <= |p| == |q|
    requires p[f] == 0 && p[f + 1] == 0 && q == p[f := c.hi][f + 1 := c.lo] && c.Value() == Checksum(WordsOf(p, start, end))
    ensures Checksum(WordsOf(q, start, end)) == 0
  {
    StoredWords(p, q, start, end, f, c);
    StoredVerifies(WordsOf(p, start, end), (f - start) / 2);
  }

  /** The buffers agree outside the field. */
  ghost predicate SameBut(p: seq<Byte>, q: seq<Byte>, f: nat) {
    |p| == |q| && forall i | 0 <= i < |p| && i != f && i != f + 1 :: q[i] == p[i]
  }

  lemma SameButTwice(p: seq<Byte>, q: seq<Byte>, r: seq<Byte>, f: nat)
    requires SameBut(p, q, f) && SameBut(q, r, f)
    ensures SameBut(p, r, f)
  {
  }

  method StoreField(packet: array<Byte>, f: nat, c: Csum)
    requires f + 1 < packet.Length
    modifies packet
    ensures packet[..] == old(packet[..])[f := c.hi][f + 1 := c.lo] && SameBut(old(packet[..]), packet[..], f)
  {
    packet[f], packet[f + 1] := c.hi, c.lo;
  }

  /** The two steps that fill in a checksum field at an even offset: clear it and store the
      checksum of the whole. Afterwards the whole has checksum 0. */
  method SetChecksum(packet: array<Byte>, start: nat, end: nat, f: nat)
    requires start <= f && (f - start) % 2 == 0 && f + 1 < end <= start + 131074 && start + 2 * Count(start, end) <= packet.Length
    modifies packet
    ensures SameBut(old(packet[..]), packet[..], f)
    ensures Checksum(WordsOf(packet[..], start, end)) == 0
  {
    StoreField(packet, f, Csum(0, 0));
    ghost var cleared := packet[..];
    var c := Calc(packet[..], start, end);
    StoreField(packet, f, c);
    SameButTwice(old(packet[..]), cleared, packet[..], f);
    StoredIsZero(cleared, packet[..], start, end, f, c);
  }

  /** `IPv4Packet::CalcAndSetChecksum`: the header is bytes 14 to 33, its checksum field is at 24. */
  method CalcAndSetChecksum(packet: array<Byte>)
    requires packet.Length >= 34
    modifies packet
    ensures forall i | 0 <= i < packet.Length && i != 24 && i != 25 :: packet[i] == old(packet[i])
    ensures Checksum(WordsOf(packet[..], 14, 34)) == 0
  {
    SetChecksum(packet, 14, 34, 24);
    assert forall i | 0 <= i < packet.Length && i != 24 && i != 25 :: packet[..][i] == old(packet[..])[i];
  }
}
