/** Natural numbers and their binary digits, lowest digit first. */
module Bits {

  function Power2(n: nat): (p: nat)
    ensures p > 0
  {
    if n == 0 then 1 else 2 * Power2(n - 1)
  }

  /** The lowest `n` binary digits of `v`. */
  function BitsOf(v: nat, n: nat): (b: seq<bool>)
    ensures |b| == n
    decreases n, v
  {
    if n == 0 then [] else [v % 2 == 1] + BitsOf(v / 2, n - 1)
  }

  lemma PowerOf16()
    ensures Power2(16) == 0x10000
  {
    assert Power2(8) == 0x100;
  }

  function NatOf(b: seq<bool>): nat
    decreases |b|
  {
    if b == [] then 0 else (if b[0] then 1 else 0) + 2 * NatOf(b[1..])
  }

  /** Reading the digits back gives the number, as long as it fits. */
  lemma {:induction false} NatOfBits(v: nat, n: nat)
    requires v < Power2(n)
    ensures NatOf(BitsOf(v, n)) == v
    decreases n, v
  {
    if n > 0 {
      NatOfBits(v / 2, n - 1);
      assert BitsOf(v, n)[1..] == BitsOf(v / 2, n - 1);
    }
  }

  lemma {:induction false} BitsOfNat(b: seq<bool>)
    ensures NatOf(b) < Power2(|b|) && BitsOf(NatOf(b), |b|) == b
    decreases |b|
  {
    if b != [] {
      BitsOfNat(b[1..]);
      assert NatOf(b) / 2 == NatOf(b[1..]);
      assert b == [b[0]] + b[1..];
    }
  }

  /** Binary digit `k` of a number; a negative one has those of its two's complement. */
  function Digit(x: int, k: nat): (d: nat)
    ensures d < 2
    decreases k
  {
    if k == 0 then x % 2 else Digit(x / 2, k - 1)
  }

  lemma {:induction false} BitsAreDigits(v: nat, n: nat, k: nat)
    requires k < n
    ensures BitsOf(v, n)[k] <==> Digit(v, k) == 1
    decreases k
  {
    if k > 0 {
      BitsAreDigits(v / 2, n - 1, k - 1);
    }
  }

  /** Dividing by two and then by `m` is dividing by `2 * m`. */
  lemma HalfFirst(x: int, m: nat)
    requires m > 0
    ensures x / 2 / m == x / (2 * m)
  {
    var q, r := x / (2 * m), x % (2 * m);
    assert x == 2 * (q * m) + r;
    assert x / 2 == q * m + r / 2 && r / 2 < m;
    var d := x / 2 / m - q;
    assert x / 2 == (x / 2 / m) * m + x / 2 % m;
    assert d * m == r / 2 - x / 2 % m;
    assert d >= 1 ==> d * m >= m;
    assert d <= -1 ==> d * m + m <= 0;
  }

  /** Half of the remainder is the remainder of the half. */
  lemma HalfOfRest(x: int, m: nat)
    requires m > 0
    ensures x % (2 * m) / 2 == x / 2 % m && x % (2 * m) % 2 == x % 2
  {
    var q := x / (2 * m);
    HalfFirst(x, m);
    assert x == 2 * (q * m) + x % (2 * m);
    assert x / 2 == q * m + x / 2 % m;
  }

  /** The low digits of a number are those of its remainder. */
  lemma {:induction false} RestHasDigits(x: int, n: nat, k: nat)
    requires k < n
    ensures Digit(x % Power2(n), k) == Digit(x, k)
    decreases k
  {
    HalfOfRest(x, Power2(n - 1));
    if k > 0 {
      RestHasDigits(x / 2, n - 1, k - 1);
    }
  }

  /** Dividing by two shifts the digits down. */
  lemma DigitOfHalf(x: int, k: nat)
    ensures Digit(x, k + 1) == Digit(x / 2, k)
  {
  }

  /** Zero has no digits. */
  lemma {:induction false} NoBits(n: nat, i: nat)
    requires i < n
    ensures !BitsOf(0, n)[i]
    decreases n
  {
    if i > 0 {
      NoBits(n - 1, i - 1);
    }
  }
}
