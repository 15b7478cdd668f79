/** Transfer request blocks as the two USB rings share them. */
module Trbs {

  /** A request or event with its cycle bit. */
  datatype Trb = Trb(payload: int, cycle: nat)

  function Payloads(s: seq<Trb>): (p: seq<int>)
    ensures |p| == |s|
    ensures forall i | 0 <= i < |s| :: p[i] == s[i].payload
  {
    seq(|s|, i requires 0 <= i < |s| => s[i].payload)
  }

  lemma SliceFirst(s: seq<Trb>, i: nat, n: nat)
    requires i < n <= |s|
    ensures Payloads(s[i..n]) == [s[i].payload] + Payloads(s[i + 1..n])
  {
    var p, q := Payloads(s[i..n]), [s[i].payload] + Payloads(s[i + 1..n]);
    forall k | 0 <= k < |p| ensures p[k] == q[k] {
    }
  }

  lemma PayloadsAppend(s: seq<Trb>, t: Trb)
    ensures Payloads(s + [t]) == Payloads(s) + [t.payload]
  {
  }

  lemma Regroup(a: seq<int>, b: seq<int>, c: seq<int>)
    ensures (a + b) + c == a + (b + c)
  {
  }
}
