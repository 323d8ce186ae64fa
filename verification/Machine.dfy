/** Machine integers, and division by a positive number. */
module Machine {
  import Bits

  const TWO_TO_THE_31: int := 0x8000_0000
  const TWO_TO_THE_32: int := 0x1_0000_0000

  type Byte = x: int | 0 <= x < 0x100

  /** The value of a 16-bit signed integer that holds `x`. */
  function S16(x: int): (r: int)
    ensures -0x8000 <= r < 0x8000
  {
    (x + 0x8000) % 0x1_0000 - 0x8000
  }

  /** The value of a 32-bit signed integer that holds `x`. */
  function S32(x: int): (r: int)
    ensures -0x8000_0000 <= r < 0x8000_0000
  {
    (x + 0x8000_0000) % 0x1_0000_0000 - 0x8000_0000
  }

  /** The byte with these digits, lowest first. */
  function ByteOf(bits: seq<bool>): Byte
    requires |bits| == 8
  {
    Bits.BitsOfNat(bits);
    assert Bits.Power2(8) == 0x100;
    Bits.NatOf(bits)
  }

  lemma Rest(q: nat, unit: nat, r: nat)
    requires r < unit
    ensures (q * unit + r) % unit == r
  {
    var n := q * unit + r;
    var d := n / unit - q;
    assert n == (n / unit) * unit + n % unit;
    assert d * unit == r - n % unit;
    assert d >= 1 ==> d * unit >= unit;
    assert d <= -1 ==> d * unit + unit <= 0;
  }

  lemma Recompose(n: nat, unit: nat)
    requires unit > 0
    ensures 0 <= n / unit && n / unit * unit + n % unit == n && n / unit * unit <= n
  {
  }

  lemma Positive(d: int, unit: nat)
    requires d * unit > 0
    ensures d >= 1 && d * unit >= unit
  {
    assert d <= 0 ==> d * unit <= 0;
    assert d >= 1 ==> (d - 1) * unit >= 0;
  }

  /** The next multiple of `unit` is not above a greater multiple. */
  lemma NextMultiple(p: nat, q: nat, unit: nat)
    requires p * unit < q * unit
    ensures p * unit + unit == (p + 1) * unit <= q * unit
  {
    assert (q - p) * unit == q * unit - p * unit;
    Positive(q - p, unit);
  }
}
