/**
  Printing and reading numbers: `number` of `sw/coremark/barebone-arty-a7/ee_printf.c` (integers)
  and `parseval` of `sw/coremark/core_util.c`.
 */
module NumberFormat {

  import opened Machine

  datatype Option<T> = None | Some(value: T)

  /** The bits of `type`. */
  datatype Flags = Flags(zeropad: bool, sign: bool, plus: bool, space: bool, left: bool, hexPrep: bool, uppercase: bool)

  // ---------------------------------------------------------------------------
  // What `number` prints
  // ---------------------------------------------------------------------------

  const DIGITS: string := "0123456789abcdefghijklmnopqrstuvwxyz"
  const UPPER_DIGITS: string := "0123456789ABCDEFGHIJKLMNOPQRSTUVWXYZ"

  function Digit(d: nat, uppercase: bool): char
    requires d < 36
  {
    if uppercase then UPPER_DIGITS[d] else DIGITS[d]
  }

  /** The digits of `u`, most significant first; nothing for zero. */
  function Digits(u: nat, base: nat, uppercase: bool): string
    requires 2 <= base <= 36
  {
    if u == 0 then "" else
      Quotient(u, base);
      Digits(u / base, base, uppercase) + [Digit(u % base, uppercase)]
  }

  lemma Quotient(u: nat, base: nat)
    requires base >= 2
    ensures 0 <= u / base && 2 * (u / base) <= u
    ensures u > 0 ==> u / base < u
  {
    var q := u / base;
    assert u == q * base + u % base;
    assert q >= 0;
    assert (base - 2) * q >= 0;
  }

  function Repeat(c: char, n: int): string {
    if n <= 0 then "" else seq(n, _ => c)
  }

  function Max(a: int, b: int): int {
    if a > b then a else b
  }

  /** The unsigned value whose digits are printed. */
  function Magnitude(num: int, f: Flags): nat
    requires -TWO_TO_THE_31 <= num < TWO_TO_THE_31
  {
    if num >= 0 then num else if f.sign then -num else num + TWO_TO_THE_32
  }

  function Sign(num: int, f: Flags): string {
    if !f.sign then "" else if num < 0 then "-" else if f.plus then "+" else if f.space then " " else ""
  }

  function Prefix(base: int, f: Flags): string {
    if !f.hexPrep then "" else if base == 16 then "0x" else if base == 8 then "0" else ""
  }

  /** At least one digit, and zeros in front up to the precision. */
  function Body(u: nat, base: nat, precision: int, f: Flags): string
    requires 2 <= base <= 36
  {
    var d := if u == 0 then "0" else Digits(u, base, f.uppercase);
    Repeat('0', precision - |d|) + d
  }

  function Padding(num: int, base: nat, size: int, precision: int, f: Flags): int
    requires 2 <= base <= 36 && -TWO_TO_THE_31 <= num < TWO_TO_THE_31
  {
    Max(0, size - |Sign(num, f)| - |Prefix(base, f)| - |Body(Magnitude(num, f), base, precision, f)|)
  }

  /** Spaces go to the end or to the beginning, zeros between front and body. */
  function Arrange(front: string, body: string, pad: int, f: Flags): string {
    if f.left then front + body + Repeat(' ', pad)
    else if f.zeropad then front + Repeat('0', pad) + body
    else Repeat(' ', pad) + front + body
  }

  /** The whole output. */
  function Text(num: int, base: nat, size: int, precision: int, f: Flags): string
    requires 2 <= base <= 36 && -TWO_TO_THE_31 <= num < TWO_TO_THE_31
  {
    Arrange(Sign(num, f) + Prefix(base, f), Body(Magnitude(num, f), base, precision, f),
            Padding(num, base, size, precision, f), f)
  }

  /** A character that a digit, a prefix or the padding can be. */
  predicate IsPlain(c: char) {
    c != '-' && c != '+'
  }

  lemma {:induction false} DigitsPlain(u: nat, base: nat, uppercase: bool)
    requires 2 <= base <= 36
    ensures forall k :: 0 <= k < |Digits(u, base, uppercase)| ==> IsPlain(Digits(u, base, uppercase)[k])
    decreases u
  {
    if u > 0 {
      Quotient(u, base);
      DigitsPlain(u / base, base, uppercase);
      DigitPlain(u % base, uppercase);
      DigitsStep(u, base, uppercase);
      hide Digit, Digits;
    }
  }

  lemma DigitPlain(d: nat, uppercase: bool)
    requires d < 36
    ensures IsPlain(Digit(d, uppercase))
  {
  }

  /**
    The output shows a minus sign exactly for a negative signed number, and a plus sign exactly for another that
    asks for it.
   */
  lemma {:induction false} SignShows(num: int, base: nat, size: int, precision: int, f: Flags)
    requires 2 <= base <= 36 && -TWO_TO_THE_31 <= num < TWO_TO_THE_31
    ensures '-' in Text(num, base, size, precision, f) <==> f.sign && num < 0
    ensures '+' in Text(num, base, size, precision, f) <==> f.sign && num >= 0 && f.plus
  {
    DigitsPlain(Magnitude(num, f), base, f.uppercase);
    var body, pad := Body(Magnitude(num, f), base, precision, f), Padding(num, base, size, precision, f);
    assert forall k :: 0 <= k < |body| ==> IsPlain(body[k]);
    var front := Sign(num, f) + Prefix(base, f);
    assert forall k :: |Sign(num, f)| <= k < |front| ==> IsPlain(front[k]);
    assert f.sign && num < 0 ==> front[0] == '-';
    assert f.sign && num >= 0 && f.plus ==> front[0] == '+';
    hide Body, Padding, Sign, Prefix, Digits;
    FrontShows(front, body, pad, f);
  }

  lemma FrontShows(front: string, body: string, pad: int, f: Flags)
    requires forall k :: 0 <= k < |body| ==> IsPlain(body[k])
    ensures forall c: char :: !IsPlain(c) ==> (c in Arrange(front, body, pad, f) <==> c in front)
  {
  }

  /** How a left-aligned output starts: with the blank that is asked for, or with the prefix of its base. */
  lemma TextStarts(num: int, base: nat, size: int, precision: int, f: Flags)
    requires 2 <= base <= 36 && -TWO_TO_THE_31 <= num < TWO_TO_THE_31 && f.left
    ensures var t := Text(num, base, size, precision, f);
      && (f.sign && num >= 0 && !f.plus && f.space ==> t != "" && t[0] == ' ')
      && (!f.sign && f.hexPrep && base == 8 ==>
        |t| >= 2 && t[0] == '0' && t[1] == Body(Magnitude(num, f), 8, precision, f)[0])
      && (!f.sign && f.hexPrep && base == 16 ==> |t| >= 2 && t[0] == '0' && t[1] == 'x')
  {
    var body := Body(Magnitude(num, f), base, precision, f);
    assert |body| > 0;
    hide Body, Digits, Repeat, Padding;
  }

  /** The output is as wide as asked, or as its parts need. */
  lemma TextLength(num: int, base: nat, size: int, precision: int, f: Flags)
    requires 2 <= base <= 36 && -TWO_TO_THE_31 <= num < TWO_TO_THE_31
    ensures var u := Magnitude(num, f);
      var digits := if u == 0 then 1 else |Digits(u, base, f.uppercase)|;
      |Text(num, base, size, precision, f)| == Max(size, |Sign(num, f)| + |Prefix(base, f)| + Max(precision, digits))
  {
  }

  lemma {:induction false} FewDigits(u: nat, base: nat, uppercase: bool, bits: nat, limit: nat)
    requires 2 <= base <= 36 && u < limit && limit == Doubled(bits)
    ensures |Digits(u, base, uppercase)| <= bits
    decreases bits
  {
    if u > 0 {
      Quotient(u, base);
      FewDigits(u / base, base, uppercase, bits - 1, Doubled(bits - 1));
    }
  }

  /** `1 << bits` */
  function Doubled(bits: nat): nat
    decreases bits
  {
    if bits == 0 then 1 else 2 * Doubled(bits - 1)
  }

  // ---------------------------------------------------------------------------
  // number
  // ---------------------------------------------------------------------------

  /** `while (n-- > 0) *str++ = c;` */
  method Emit(str0: string, c: char, n0: int) returns (str: string, n: int)
    ensures str == str0 + Repeat(c, n0) && n == (if n0 > 0 then -1 else n0 - 1)
  {
    str, n := str0, n0;
    while n > 0
      invariant n0 > 0 ==> 0 <= n <= n0
      invariant n0 <= 0 ==> n == n0
      invariant str == str0 + Repeat(c, n0 - n)
    {
      str := str + [c];
      n := n - 1;
    }
    n := n - 1;
  }

  lemma DigitsStep(u: nat, base: nat, uppercase: bool)
    requires 2 <= base <= 36
    ensures u == 0 <==> Digits(u, base, uppercase) == ""
    ensures u > 0 ==>
      u / base < u && Digits(u, base, uppercase) == Digits(u / base, base, uppercase) + [Digit(u % base, uppercase)]
  {
    Quotient(u, base);
  }

  /** The digit loop: `tmp` holds the digits, least significant first. */
  method FillDigits(tmp: array<char>, num: nat, base: nat, uppercase: bool) returns (i: nat)
    requires tmp.Length == 66 && 2 <= base <= 36 && num < TWO_TO_THE_32
    modifies tmp
    ensures var d := if num == 0 then "0" else Digits(num, base, uppercase);
      i == |d| <= 33 && forall k :: 0 <= k < i ==> tmp[k] == d[i - 1 - k]
  {
    hide Digit, Digits;
    DigitLimit(num, base, uppercase);
    i := 0;
    if num == 0 {
      tmp[i] := '0';
      i := 1;
    } else {
      var u: nat := num;
      ghost var all := Digits(num, base, uppercase);
      while u != 0
        invariant i <= |all| && Digits(u, base, uppercase) == all[..|all| - i]
        invariant forall k :: 0 <= k < i ==> tmp[k] == all[|all| - 1 - k]
      {
        Quotient(u, base);
        DigitsStep(u, base, uppercase);
        tmp[i] := Digit(u % base, uppercase);
        u := u / base;
        i := i + 1;
      }
      DigitsStep(0, base, uppercase);
    }
  }

  lemma DigitLimit(u: nat, base: nat, uppercase: bool)
    requires 2 <= base <= 36 && u < TWO_TO_THE_32
    ensures |Digits(u, base, uppercase)| <= 33
  {
    assert Doubled(8) == 0x100;
    assert Doubled(16) == 0x1_0000;
    assert Doubled(24) == 0x100_0000;
    assert Doubled(32) == TWO_TO_THE_32;
    FewDigits(u, base, uppercase, 32, Doubled(32));
  }

  /** `while (i-- > 0) *str++ = tmp[i];` */
  method EmitDigits(str0: string, tmp: array<char>, n: nat, ghost d: string) returns (str: string)
    requires n == |d| <= tmp.Length && forall k :: 0 <= k < n ==> tmp[k] == d[n - 1 - k]
    ensures str == str0 + d
  {
    str := str0;
    var i := n;
    while i > 0
      invariant 0 <= i <= n
      invariant str == str0 + d[..n - i]
    {
      i := i - 1;
      str := str + [tmp[i]];
    }
    assert d[..n] == d;
  }

  /** `number`: null for a base it cannot print, else the text. */
  method Number(num0: int, base: int, size0: int, precision0: int, f: Flags) returns (result: Option<string>)
    requires -TWO_TO_THE_31 <= num0 < TWO_TO_THE_31
    ensures result == if 2 <= base <= 36 then Some(Text(num0, base, size0, precision0, f)) else None
  {
    hide Digits, Repeat;
    if base < 2 || base > 36 {
      return None;
    }
    var c := if f.zeropad && !f.left then '0' else ' ';
    var size, num := size0, num0;
    var sign := "";
    if f.sign {
      if num < 0 {
        sign, num, size := "-", -num, size - 1;
      } else if f.plus {
        sign, size := "+", size - 1;
      } else if f.space {
        sign, size := " ", size - 1;
      }
    }
    if f.hexPrep {
      if base == 16 {
        size := size - 2;
      } else if base == 8 {
        size := size - 1;
      }
    }
    var tmp := new char[66](_ => ' ');
    var i := FillDigits(tmp, if num < 0 then num + TWO_TO_THE_32 else num, base, f.uppercase);
    var precision := if i > precision0 then i else precision0;
    size := size - precision;
    ghost var u := Magnitude(num0, f);
    ghost var d := if u == 0 then "0" else Digits(u, base, f.uppercase);
    result := Assemble(tmp, i, d, size, precision, sign, Prefix(base, f), c, f.left, f.zeropad && !f.left);
    LaidOut(num0, base, size0, precision0, f, size, precision, c);
  }

  /** Padding, sign, prefix, zeros, digits and padding again. */
  function Layout(size: int, zeros: int, front: string, d: string, c: char, left: bool, zeropad: bool): string {
    Repeat(' ', if left || zeropad then 0 else size) + front +
    Repeat(c, if left then 0 else if zeropad then size else 0) + Repeat('0', zeros) + d +
    Repeat(' ', if left then size else 0)
  }

  method Assemble(tmp: array<char>, i: nat, ghost d: string, size0: int, precision: int, sign: string, prefix: string,
    c: char, left: bool, zeropad: bool) returns (result: Option<string>)
    requires i == |d| <= tmp.Length && forall k :: 0 <= k < i ==> tmp[k] == d[i - 1 - k]
    requires precision >= i
    ensures result == Some(Layout(size0, precision - i, sign + prefix, d, c, left, zeropad))
  {
    var str, size := "", size0;
    if !(zeropad || left) {
      str, size := Emit(str, ' ', size);
    }
    assert str == Repeat(' ', if left || zeropad then 0 else size0);
    str := str + sign;
    str := str + prefix;
    assert str == Repeat(' ', if left || zeropad then 0 else size0) + (sign + prefix);
    ghost var front := str;
    if !left {
      str, size := Emit(str, c, size);
    }
    assert str == front + Repeat(c, if left then 0 else if zeropad then size0 else 0);
    var rest;
    str, rest := Emit(str, '0', precision - i);
    str := EmitDigits(str, tmp, i, d);
    ghost var behind := str;
    str, rest := Emit(str, ' ', size);
    assert str == behind + Repeat(' ', if left then size0 else 0);
    result := Some(str);
  }

  lemma LaidOut(num: int, base: nat, size0: int, precision0: int, f: Flags, size: int, precision: int, c: char)
    requires 2 <= base <= 36 && -TWO_TO_THE_31 <= num < TWO_TO_THE_31
    requires var u := Magnitude(num, f);
      var d := if u == 0 then "0" else Digits(u, base, f.uppercase);
      && precision == Max(|d|, precision0)
      && size == size0 - |Sign(num, f)| - |Prefix(base, f)| - precision
    requires c == if f.zeropad && !f.left then '0' else ' '
    ensures var u := Magnitude(num, f);
      var d := if u == 0 then "0" else Digits(u, base, f.uppercase);
      Layout(size, precision - |d|, Sign(num, f) + Prefix(base, f), d, c, f.left, f.zeropad && !f.left)
        == Text(num, base, size0, precision0, f)
  {
    hide Digits, Repeat, Sign, Prefix, Magnitude, Layout, Arrange;
    var u := Magnitude(num, f);
    var d := if u == 0 then "0" else Digits(u, base, f.uppercase);
    RepeatMax('0', precision0 - |d|);
    Arranged(size, precision - |d|, Sign(num, f) + Prefix(base, f), d, c, f);
  }

  lemma Arranged(size: int, zeros: int, front: string, d: string, c: char, f: Flags)
    requires c == if f.zeropad && !f.left then '0' else ' '
    ensures Layout(size, zeros, front, d, c, f.left, f.zeropad && !f.left)
      == Arrange(front, Repeat('0', zeros) + d, Max(0, size), f)
  {
    hide Repeat;
    RepeatMax(' ', size);
    RepeatMax('0', size);
    RepeatMax(' ', 0);
    RepeatMax('0', 0);
    var z, pad := Repeat('0', zeros), Max(0, size);
    if f.left {
      assert "" + front + "" + z + d + Repeat(' ', size) == front + (z + d) + Repeat(' ', pad);
    } else if f.zeropad {
      assert "" + front + Repeat('0', size) + z + d + "" == front + Repeat('0', pad) + (z + d);
    } else {
      assert Repeat(' ', size) + front + "" + z + d + "" == Repeat(' ', pad) + front + (z + d);
    }
  }

  lemma RepeatMax(c: char, n: int)
    ensures |Repeat(c, n)| == Max(0, n) && Repeat(c, Max(0, n)) == Repeat(c, n)
    ensures n <= 0 ==> Repeat(c, n) == ""
  {
  }
}
