/** What several modules share. */
module Basics {

  datatype Option<+T> = None | Some(value: T)

  type Byte = b: int | 0 <= b < 256

  /** The place `j` steps after `i` in a ring of `n`. */
  function Wrap(i: nat, j: nat, n: nat): (k: nat)
    requires i < n && j <= n
    ensures k < n
  {
    if i + j < n then i + j else i + j - n
  }

  lemma WrapIsMod(i: nat, j: nat, n: nat)
    requires i < n && j <= n
    ensures Wrap(i, j, n) == (i + j) % n
  {
    var x := i + j;
    var q, r := x / n, x % n;
    assert x == q * n + r && 0 <= r < n;
    assert q >= 2 ==> q * n >= 2 * n;
    assert q < 2;
  }

  lemma DivUnique(x: nat, d: nat, q: nat, r: nat)
    requires d > 0 && x == q * d + r && r < d
    ensures x / d == q && x % d == r
  {
    var q' := x / d;
    assert q' > q ==> q' * d >= (q + 1) * d;
    assert q' < q ==> q * d >= (q' + 1) * d;
  }
}
