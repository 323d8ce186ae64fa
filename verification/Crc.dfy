/**
  The benchmark's CRC service functions (`sw/coremark/core_util.c`).

  The reference definition is the bit-reflected CRC-16 shift register with polynomial
  0xA001.  The C loop keeps register and remaining data apart, flips the bits of 0x4002
  before it shifts and forces bit 15 afterwards; it is proved to compute the register.
 */
module Crc {
  import opened RegisterAlgebra

  /** A 16-bit word, lowest bit first. */
  type Word = w: seq<bool> | |w| == 16 witness seq(16, _ => false)

  /** The zero word, from which CRCs start. */
  function Zero(): Word {
    seq(16, _ => false)
  }

  function Xor(a: Word, b: Word): Word {
    seq(16, i requires 0 <= i < 16 => a[i] != b[i])
  }

  /** `w >> n` */
  function ShiftRight(w: Word, n: nat): Word {
    seq(16, i requires 0 <= i < 16 => i + n < 16 && w[i + n])
  }

  function LowByte(w: Word): Word {
    seq(16, i requires 0 <= i < 16 => i < 8 && w[i])
  }

  function HighByte(w: Word): Word {
    seq(16, i requires 0 <= i < 16 => i >= 8 && w[i])
  }

  /** One clock of the shift register: bit 0 goes out and is fed back into bits 15, 13 and 0. */
  function Shift(c: Word): Word {
    seq(16, i requires 0 <= i < 16 => (i < 15 && c[i + 1]) != ((i == 15 || i == 13 || i == 0) && c[0]))
  }

  /** The coefficient of x^p, and that of the generator x^16 + x^15 + x^2 + 1. */
  predicate Coefficient(c: Word, p: nat)
    requires p < 16
  {
    c[15 - p]
  }

  predicate Generator(p: nat) {
    p == 16 || p == 15 || p == 2 || p == 0
  }

  /** A clock multiplies the polynomial by x and reduces it by the generator. */
  lemma ShiftMultiplies(c: Word, p: nat)
    requires p < 16
    ensures Generator(16)
    ensures Coefficient(Shift(c), p) == ((p > 0 && Coefficient(c, p - 1)) != (Coefficient(c, 15) && Generator(p)))
  {
  }

  function Shifts(c: Word, n: nat): Word
    decreases n, c
  {
    if n == 0 then c else Shift(Shifts(c, n - 1))
  }

  /** Eight and sixteen clocks: what a byte and a word already mixed in go through. */
  function Clock8(c: Word): Word {
    Shifts(c, 8)
  }

  function Clock16(c: Word): Word {
    Clock8(Clock8(c))
  }

  /** The CRC of a message of 16-bit words from start value `c`. */
  function Fold(m: seq<Word>, c: Word): Word {
    FoldWith(Xor, Clock16, m, c)
  }

  // ---------------------------------------------------------------------------
  // The C functions
  // ---------------------------------------------------------------------------

  /** `data0` is an `ee_u8`: a word whose upper byte is zero. */
  lemma ShiftedOn(w: Word, n: nat)
    ensures ShiftRight(ShiftRight(w, n), 1) == ShiftRight(w, n + 1)
  {
  }

  /** One turn of the loop in `crcu8`. */
  method CrcBit(data0: Word, crc0: Word) returns (data: Word, crc: Word)
    ensures data == ShiftRight(data0, 1) && Xor(crc, data) == Shift(Xor(crc0, data0))
  {
    var x16 := data0[0] != crc0[0];
    data := ShiftRight(data0, 1);
    crc := crc0;
    var carry;
    if x16 {
      crc := crc[1 := !crc[1]][14 := !crc[14]];
      carry := true;
    } else {
      carry := false;
    }
    crc := ShiftRight(crc, 1);
    if carry {
      crc := crc[15 := true];
    } else {
      crc := crc[15 := false];
    }
    assert Xor(crc, data) == Shift(Xor(crc0, data0));
  }

  method Crcu8(data0: Word, crc0: Word) returns (crc: Word)
    requires data0 == LowByte(data0)
    ensures crc == Clock8(Xor(crc0, data0))
  {
    var data := data0;
    crc := crc0;
    var i := 0;
    while i < 8
      invariant 0 <= i <= 8
      invariant data == ShiftRight(data0, i)
      invariant Xor(crc, data) == Shifts(Xor(crc0, data0), i)
    {
      hide Xor, Shift, ShiftRight;
      ShiftedOn(data0, i);
      data, crc := CrcBit(data, crc);
      i := i + 1;
    }
    assert Xor(crc, data) == crc;
  }

  method Crcu16(newval: Word, crc0: Word) returns (crc: Word)
    ensures crc == Fold([newval], crc0)
  {
    crc := Crcu8(LowByte(newval), crc0);
    crc := Crcu8(LowByte(ShiftRight(newval, 8)), crc);
    TwoBytes(newval, crc0);
  }

  method Crc16(newval: Word, crc0: Word) returns (crc: Word)
    ensures crc == Fold([newval], crc0)
  {
    crc := Crcu16(newval, crc0);
  }

  /** A 32-bit value is fed in as its lower and then its upper word. */
  method Crcu32(lower: Word, upper: Word, crc0: Word) returns (crc: Word)
    ensures crc == Fold([lower, upper], crc0)
  {
    crc := Crc16(lower, crc0);
    crc := Crc16(upper, crc);
    TwoParts([lower], [upper], crc0);
    assert [lower] + [upper] == [lower, upper];
  }

  // ---------------------------------------------------------------------------
  // The register is additive and reversible
  // ---------------------------------------------------------------------------

  lemma XorPairs(a: Word, b: Word, c: Word, d: Word)
    ensures Xor(Xor(a, b), Xor(c, d)) == Xor(Xor(a, c), Xor(b, d))
  {
    var l, r := Xor(Xor(a, b), Xor(c, d)), Xor(Xor(a, c), Xor(b, d));
    forall i | 0 <= i < 16
      ensures l[i] == r[i]
    {
      assert l[i] == ((a[i] != b[i]) != (c[i] != d[i]));
      assert r[i] == ((a[i] != c[i]) != (b[i] != d[i]));
    }
  }

  lemma XorPairsUp()
    ensures PairsUp(Xor)
  {
    forall a, b, c, d
      ensures Xor(Xor(a, b), Xor(c, d)) == Xor(Xor(a, c), Xor(b, d))
    {
      XorPairs(a, b, c, d);
    }
  }

  lemma XorHasZero()
    ensures HasZero(Xor, Zero())
  {
    forall a
      ensures Xor(a, a) == Zero() && Xor(a, Zero()) == a && Xor(Zero(), a) == a
    {
    }
  }

  lemma XorIsXor()
    ensures IsXor(Xor, Zero())
  {
    XorPairsUp();
    XorHasZero();
  }

  lemma {:induction false} ShiftsLinear(a: Word, b: Word, n: nat)
    ensures Shifts(Xor(a, b), n) == Xor(Shifts(a, n), Shifts(b, n))
  {
    if n > 0 {
      ShiftsLinear(a, b, n - 1);
      var a', b' := Shifts(a, n - 1), Shifts(b, n - 1);
      assert Shift(Xor(a', b')) == Xor(Shift(a'), Shift(b'));
    }
  }

  /** A clock can be run backwards: bit 15 tells whether the feedback was taken. */
  lemma ShiftInjective(a: Word, b: Word)
    requires Shift(a) == Shift(b)
    ensures a == b
  {
    assert Shift(a)[15] == a[0] && Shift(b)[15] == b[0];
    forall i | 0 <= i < 16
      ensures a[i] == b[i]
    {
      if i > 0 {
        assert Shift(a)[i - 1] == Shift(b)[i - 1];
      }
    }
  }

  /** Different states stay different: the register permutes its 65536 states. */
  lemma {:induction false} ShiftsInjective(a: Word, b: Word, n: nat)
    requires Shifts(a, n) == Shifts(b, n)
    ensures a == b
  {
    if n > 0 {
      ShiftInjective(Shifts(a, n - 1), Shifts(b, n - 1));
      ShiftsInjective(a, b, n - 1);
    }
  }

  lemma ClocksAdditive()
    ensures Additive(Xor, Clock8) && Additive(Xor, Clock16)
  {
    forall a, b
      ensures Clock8(Xor(a, b)) == Xor(Clock8(a), Clock8(b))
    {
      ShiftsLinear(a, b, 8);
    }
  }

  lemma ClocksInjective()
    ensures Injective(Clock16)
  {
    forall a, b | Clock16(a) == Clock16(b)
      ensures a == b
    {
      ShiftsInjective(Clock8(a), Clock8(b), 8);
      ShiftsInjective(a, b, 8);
    }
  }

  /** As long as only zeros leave the register there is no feedback. */
  lemma {:induction false} ZerosShiftOut(w: Word, n: nat)
    requires n <= 16 && forall i :: 0 <= i < n ==> !w[i]
    ensures Shifts(w, n) == ShiftRight(w, n)
  {
    if n > 0 {
      ZerosShiftOut(w, n - 1);
      assert Shift(ShiftRight(w, n - 1)) == ShiftRight(w, n);
    } else {
      assert ShiftRight(w, 0) == w;
    }
  }

  /** Feeding a word low byte first equals feeding the whole word into the register at once. */
  lemma TwoBytes(w: Word, c: Word)
    ensures Clock8(Xor(Clock8(Xor(c, LowByte(w))), LowByte(ShiftRight(w, 8)))) == Fold([w], c)
  {
    ZerosShiftOut(HighByte(w), 8);
    assert LowByte(ShiftRight(w, 8)) == ShiftRight(HighByte(w), 8);
    assert Xor(Xor(c, LowByte(w)), HighByte(w)) == Xor(c, w);
    ClocksAdditive();
    TwoHalves(Xor, Clock8, Xor(c, LowByte(w)), HighByte(w), LowByte(ShiftRight(w, 8)));
    FoldOne(Xor, Clock16, w, c);
  }

  // ---------------------------------------------------------------------------
  // What the CRC of a message promises
  // ---------------------------------------------------------------------------

  /** The CRC of the word-by-word xor of two messages is the xor of their CRCs. */
  lemma CrcLinear(a: seq<Word>, b: seq<Word>, c: Word, d: Word)
    requires |a| == |b|
    ensures Fold(Zip(Xor, a, b), Xor(c, d)) == Xor(Fold(a, c), Fold(b, d))
  {
    XorIsXor();
    ClocksAdditive();
    FoldLinear(Xor, Zero(), Clock16, a, b, c, d);
  }

  /** A message in two parts. */
  lemma TwoParts(a: seq<Word>, b: seq<Word>, c: Word)
    ensures Fold(a + b, c) == Fold(b, Fold(a, c))
  {
    FoldAppend(Xor, Clock16, a, b, c);
  }

  /** Folding a message's own CRC in after it leaves zero. */
  lemma OwnCrcGivesZero(m: seq<Word>, c: Word)
    ensures Fold(m + [Fold(m, c)], c) == Zero()
  {
    XorIsXor();
    ClocksAdditive();
    OwnValueGivesZero(Xor, Zero(), Clock16, m, c);
  }

  /** For a fixed message, different start values end in different CRCs. */
  lemma CrcInjective(m: seq<Word>, c: Word, d: Word)
    requires c != d
    ensures Fold(m, c) != Fold(m, d)
  {
    XorIsXor();
    ClocksInjective();
    FoldInjective(Xor, Zero(), Clock16, m, c, d);
  }

  /** Messages of equal length that differ in exactly one word never share a CRC. */
  lemma OneWordErrorDetected(a: seq<Word>, b: seq<Word>, k: nat, c: Word)
    requires |a| == |b| && k < |a| && a[k] != b[k]
    requires forall i :: 0 <= i < |a| && i != k ==> a[i] == b[i]
    ensures Fold(a, c) != Fold(b, c)
  {
    XorIsXor();
    ClocksInjective();
    OneWordDifference(Xor, Zero(), Clock16, a, b, k, c);
  }

  /**
    Two messages that may differ in two neighbouring words, and nowhere else, collide
    exactly when the second difference is the first one clocked through the register.
   */
  lemma TwoWordErrorMissedExactly(pre: seq<Word>, x: Word, y: Word, x': Word, y': Word, post: seq<Word>, c: Word)
    ensures Fold(pre + [x, y] + post, c) == Fold(pre + [x', y'] + post, c) <==> Xor(y, y') == Clock16(Xor(x, x'))
  {
    var r := Fold(pre, c);
    var e, e' := Clock16(Xor(r, x)), Clock16(Xor(r, x'));
    FoldTwo(Xor, Clock16, pre, x, y, post, c);
    FoldTwo(Xor, Clock16, pre, x', y', post, c);
    assert Xor(e, e') == Clock16(Xor(x, x')) by {
      XorIsXor();
      ClocksAdditive();
      StepDifference(Xor, Zero(), Clock16, r, x, x');
    }
    assert Xor(e, y) == Xor(e', y') <==> Xor(y, y') == Xor(e, e') by {
      XorIsXor();
      EqualWhenXorEqual(Xor, Zero(), e, y, e', y');
    }
    assert FoldWith(Xor, Clock16, post, Clock16(Xor(e, y))) == FoldWith(Xor, Clock16, post, Clock16(Xor(e', y')))
           <==> Xor(e, y) == Xor(e', y') by {
      XorIsXor();
      ClocksInjective();
      AgreeAfter(Xor, Zero(), Clock16, post, Xor(e, y), Xor(e', y'));
    }
  }
}
