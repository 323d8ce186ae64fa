/** `parseval` of `sw/coremark/core_util.c`, and why it undoes `number`. */
module ParseValue {
  import opened Machine
  import opened NumberFormat

  predicate IsDigitOf(c: char, base: nat) {
    '0' <= c <= '9' || (base == 16 && 'a' <= c <= 'f')
  }

  function DigitValue(c: char): int {
    if '0' <= c <= '9' then c as int - '0' as int else 10 + c as int - 'a' as int
  }

  /** How many digits the text starts with. */
  function DigitRun(s: string, base: nat): (n: nat)
    ensures n <= |s| && (forall k :: 0 <= k < n ==> IsDigitOf(s[k], base)) && (n < |s| ==> !IsDigitOf(s[n], base))
  {
    if s == "" || !IsDigitOf(s[0], base) then 0 else 1 + DigitRun(s[1..], base)
  }

  function ValueOf(d: string, base: nat): int {
    if d == "" then 0 else ValueOf(d[..|d| - 1], base) * base + DigitValue(d[|d| - 1])
  }

  predicate HexMode(s: string) {
    |s| >= 2 && s[0] == '0' && s[1] == 'x'
  }

  /** 'K' and 'M' are binary multipliers. */
  function Qualified(v: int, c: char): int {
    if c == 'K' then S32(v * 1024) else if c == 'M' then S32(v * 0x10_0000) else v
  }

  /** A number without its sign: perhaps "0x", digits, perhaps 'K' or 'M'. */
  function Unsigned(s: string): int {
    var base := if HexMode(s) then 16 else 10;
    var w := if HexMode(s) then s[2..] else s;
    var n := DigitRun(w, base);
    var v := S32(ValueOf(w[..n], base));
    if n < |w| then Qualified(v, w[n]) else v
  }

  function Parsed(s: string): int {
    if s != "" && s[0] == '-' then S32(-Unsigned(s[1..])) else S32(Unsigned(s))
  }

  // ---------------------------------------------------------------------------
  // parseval
  // ---------------------------------------------------------------------------

  lemma S32Shift(x: int, k: int)
    ensures S32(x + k * TWO_TO_THE_32) == S32(x)
  {
    ModShift(x + TWO_TO_THE_31, k);
  }

  lemma ModShift(x: int, k: int)
    ensures (x + k * TWO_TO_THE_32) % TWO_TO_THE_32 == x % TWO_TO_THE_32
  {
  }

  /** Wrapping early changes nothing. */
  lemma S32Early(x: int, base: int, d: int)
    requires base == 10 || base == 16
    ensures S32(S32(S32(x) * base) + d) == S32(x * base + d)
  {
    var k := (S32(x) - x) / TWO_TO_THE_32;
    assert S32(x) == x + k * TWO_TO_THE_32;
    var y := S32(x) * base;
    assert y == x * base + (k * base) * TWO_TO_THE_32;
    var m := (S32(y) - y) / TWO_TO_THE_32;
    assert S32(y) == y + m * TWO_TO_THE_32;
    S32Shift(x * base + d, k * base + m);
  }

  lemma OneMoreDigit(s: string, from: nat, to: nat, base: nat)
    requires from <= to < |s|
    ensures ValueOf(s[from..to + 1], base) == ValueOf(s[from..to], base) * base + DigitValue(s[to])
  {
    assert s[from..to + 1][..to - from] == s[from..to];
  }

  lemma NoDigits(s: string, from: nat, base: nat)
    requires from <= |s|
    ensures S32(ValueOf(s[from..from], base)) == 0
  {
  }

  method ReadDigit(c: char, base: nat) returns (digit: int)
    requires IsDigitOf(c, base)
    ensures digit == DigitValue(c)
  {
    digit := c as int - '0' as int;
    if digit > 9 {
      digit := 10 + c as int - 'a' as int;
    }
  }

  /** The digit loops. */
  method ReadDigits(s: string, from: nat, base: nat) returns (retval: int, to: nat)
    requires from < |s| && (exists z :: from <= z < |s| && s[z] == '\0') && (base == 10 || base == 16)
    ensures to == from + DigitRun(s[from..], base) && to < |s|
    ensures retval == S32(ValueOf(s[from..to], base))
  {
    hide ValueOf, S32, DigitRun, DigitValue;
    retval, to := 0, from;
    NoDigits(s, from, base);
    ghost var n := DigitRun(s[from..], base);
    ghost var z :| from <= z < |s| && s[z] == '\0';
    while IsDigitOf(s[to], base)
      invariant from <= to <= z && to <= from + n
      invariant retval == S32(ValueOf(s[from..to], base))
      decreases z - to
    {
      assert s[from..][to - from] == s[to];
      OneMoreDigit(s, from, to, base);
      S32Early(ValueOf(s[from..to], base), base, DigitValue(s[to]));
      var digit := ReadDigit(s[to], base);
      retval := S32(retval * base);
      retval := S32(retval + digit);
      to := to + 1;
    }
  }

  method Parseval(s: string) returns (retval: int)
    requires exists z :: 0 <= z < |s| && s[z] == '\0'
    ensures retval == Parsed(s)
  {
    hide Unsigned, S32;
    var neg, p := 1, 0;
    ghost var z :| 0 <= z < |s| && s[z] == '\0';
    if s[p] == '-' {
      neg, p := -1, p + 1;
    }
    assert s[p..] == if s[0] == '-' then s[1..] else s;
    retval := ParseUnsigned(s, p, z);
    retval := S32(retval * neg);
  }

  /** The rest of `parseval`, behind the sign. */
  method ParseUnsigned(s: string, p: nat, ghost z: nat) returns (retval: int)
    requires p <= z < |s| && s[z] == '\0'
    ensures retval == Unsigned(s[p..])
  {
    hide DigitRun, ValueOf, S32, IsDigitOf, Qualified;
    var base, from := 10, p;
    ghost var t := s[p..];
    if s[p] == '0' && s[p + 1] == 'x' {
      base, from := 16, p + 2;
    }
    ghost var w := if HexMode(t) then t[2..] else t;
    assert w == s[from..] && from <= z;
    var q;
    retval, q := ReadDigits(s, from, base);
    TailSlices(s, from, q);
    retval := Qualify(retval, s[q]);
  }

  lemma TailSlices(s: string, from: nat, q: nat)
    requires from <= q < |s|
    ensures s[from..q] == s[from..][..q - from] && s[q] == s[from..][q - from]
  {
  }

  method Qualify(v: int, c: char) returns (retval: int)
    ensures retval == Qualified(v, c)
  {
    retval := v;
    if c == 'K' {
      retval := S32(retval * 1024);
    }
    if c == 'M' {
      retval := S32(retval * 1024 * 1024);
    }
  }

  /** What the multipliers do: a number times 2^10 or 2^20, as far as it fits. */
  lemma QualifiedIs(v: int)
    ensures -0x20_0000 <= v < 0x20_0000 ==> Qualified(v, 'K') == v * 1024
    ensures -0x800 <= v < 0x800 ==> Qualified(v, 'M') == v * 1024 * 1024
    ensures forall c: char :: c != 'K' && c != 'M' ==> Qualified(v, c) == v
  {
  }

  // ---------------------------------------------------------------------------
  // Round trip
  // ---------------------------------------------------------------------------

  /** The printed digits have the printed value. */
  lemma {:induction false} DigitsValue(u: nat, base: nat)
    requires base == 10 || base == 16
    ensures ValueOf(Digits(u, base, false), base) == u
    ensures forall k :: 0 <= k < |Digits(u, base, false)| ==> IsDigitOf(Digits(u, base, false)[k], base)
    decreases u
  {
    if u > 0 {
      Quotient(u, base);
      DigitsStep(u, base, false);
      var before, c := Digits(u / base, base, false), Digit(u % base, false);
      DigitsValue(u / base, base);
      DigitChar(u % base, base);
      hide Digits, Digit, DigitValue, IsDigitOf, ValueOf;
      ValueSnoc(before, c, base, u / base, u % base);
      Recompose(u, base);
    }
  }

  lemma ValueSnoc(before: string, c: char, base: nat, q: int, r: int)
    requires ValueOf(before, base) == q && DigitValue(c) == r
    ensures ValueOf(before + [c], base) == q * base + r
  {
    assert (before + [c])[..|before|] == before;
  }

  lemma DigitChar(d: nat, base: nat)
    requires (base == 10 || base == 16) && d < base
    ensures IsDigitOf(Digit(d, false), base) && DigitValue(Digit(d, false)) == d
  {
  }

  /** Zeros in front change nothing. */
  lemma {:induction false} ZerosValue(n: int, d: string, base: nat)
    ensures ValueOf(Repeat('0', n) + d, base) == ValueOf(d, base)
    decreases |d|, n
  {
    var s := Repeat('0', n) + d;
    if d != "" {
      assert s[..|s| - 1] == Repeat('0', n) + d[..|d| - 1];
      ZerosValue(n, d[..|d| - 1], base);
    } else if n > 0 {
      assert s[..|s| - 1] == Repeat('0', n - 1) + "";
      ZerosValue(n - 1, "", base);
    } else {
      assert s == "";
    }
  }

  lemma {:induction false} RunOf(d: string, rest: string, base: nat)
    requires (forall k :: 0 <= k < |d| ==> IsDigitOf(d[k], base)) && rest != "" && !IsDigitOf(rest[0], base)
    ensures DigitRun(d + rest, base) == |d|
    decreases |d|
  {
    if d == "" {
      assert d + rest == rest;
    } else {
      assert (d + rest)[1..] == d[1..] + rest;
      RunOf(d[1..], rest, base);
    }
  }

  /** Digits, and then a blank or the end of the text. */
  predicate Ends(rest: string) {
    rest != "" && (rest[0] == ' ' || rest[0] == '\0')
  }

  lemma UnsignedText(d: string, rest: string, base: nat, v: int)
    requires (base == 10 || base == 16) && Ends(rest) && Reads(d, base, v) && 0 <= v < TWO_TO_THE_31
    ensures Unsigned(Hex(base) + d + rest) == v && (Hex(base) + d + rest)[0] != '-'
  {
    hide ValueOf, DigitRun;
    RunOf(d, rest, base);
    var s := Hex(base) + d + rest;
    if base == 16 {
      assert s[2..] == d + rest;
    } else {
      assert s == d + rest;
      assert !HexMode(s);
    }
    assert (d + rest)[..|d|] == d && (d + rest)[|d|] == rest[0];
  }

  /** Formats whose digits `parseval` can read. */
  predicate Readable(base: nat, f: Flags) {
    base == 10 || (base == 16 && f.hexPrep && !f.uppercase)
  }

  /** The output starts with a blank or a '+'. */
  predicate StartsBadly(num: int, base: nat, size: int, precision: int, f: Flags)
    requires 2 <= base <= 36 && -TWO_TO_THE_31 <= num < TWO_TO_THE_31
  {
    || (f.sign && num >= 0 && (f.plus || f.space))
    || (!f.left && !f.zeropad && Padding(num, base, size, precision, f) > 0)
  }

  /** Digits with this value. */
  predicate Reads(d: string, base: nat, v: int) {
    d != "" && ValueOf(d, base) == v && forall k :: 0 <= k < |d| ==> IsDigitOf(d[k], base)
  }

  lemma ZerosRead(n: int, d: string, base: nat, v: int)
    requires Reads(d, base, v)
    ensures Reads(Repeat('0', n) + d, base, v)
  {
    hide ValueOf;
    ZerosValue(n, d, base);
  }

  lemma DigitsRead(u: nat, base: nat, f: Flags)
    requires Readable(base, f)
    ensures Reads(if u == 0 then "0" else Digits(u, base, f.uppercase), base, u)
  {
    if u == 0 {
      assert "0"[..0] == "";
    } else {
      DigitsStep(u, base, f.uppercase);
      DigitsAnyCase(u, base, f.uppercase);
      DigitsValue(u, base);
    }
  }

  /** A body is digits of the printed value. */
  lemma BodyReads(u: nat, base: nat, precision: int, f: Flags)
    requires Readable(base, f)
    ensures Reads(Body(u, base, precision, f), base, u)
  {
    hide Digits, Reads;
    var e := if u == 0 then "0" else Digits(u, base, f.uppercase);
    DigitsRead(u, base, f);
    ZerosRead(precision - |e|, e, base, u);
  }

  function Hex(base: nat): string {
    if base == 16 then "0x" else ""
  }

  function Minus(num: int): string {
    if num < 0 then "-" else ""
  }

  /** Without them the output is: a minus sign or nothing, perhaps "0x", digits, blanks. */
  lemma TextParts(num: int, base: nat, size: int, precision: int, f: Flags) returns (d: string, rest: string)
    requires Readable(base, f) && -TWO_TO_THE_31 < num < TWO_TO_THE_31 && (num >= 0 || f.sign)
    requires !StartsBadly(num, base, size, precision, f)
    ensures Text(num, base, size, precision, f) + "\0" == Minus(num) + (Hex(base) + d + rest)
    ensures Reads(d, base, Magnitude(num, f)) && Ends(rest)
  {
    hide Body, Reads, Repeat, Arrange;
    var body, pad := Body(Magnitude(num, f), base, precision, f), Padding(num, base, size, precision, f);
    assert Sign(num, f) == Minus(num) && Prefix(base, f) == Hex(base);
    hide Sign, Prefix, Minus, Hex, Magnitude, Padding;
    BodyReads(Magnitude(num, f), base, precision, f);
    var zeros := if f.zeropad && !f.left then pad else 0;
    ZerosRead(zeros, body, base, Magnitude(num, f));
    d := Repeat('0', zeros) + body;
    rest := ArrangedParts(Minus(num), Hex(base), body, pad, f);
  }

  lemma ArrangedParts(m: string, h: string, body: string, pad: int, f: Flags) returns (rest: string)
    requires f.left || f.zeropad || pad <= 0
    ensures Ends(rest)
    ensures Arrange(m + h, body, pad, f) + "\0" ==
      m + (h + (Repeat('0', if f.zeropad && !f.left then pad else 0) + body) + rest)
  {
    RepeatMax(' ', pad);
    rest := Repeat(' ', if f.left then pad else 0) + "\0";
    BlanksEnd(if f.left then pad else 0);
  }

  lemma BlanksEnd(n: int)
    ensures Ends(Repeat(' ', n) + "\0")
  {
  }

  /** Decimal digits have no case. */
  lemma {:induction false} DigitsAnyCase(u: nat, base: nat, uppercase: bool)
    requires base == 10 || (base == 16 && !uppercase)
    ensures Digits(u, base, uppercase) == Digits(u, base, false)
    decreases u
  {
    if u > 0 {
      Quotient(u, base);
      DigitsAnyCase(u / base, base, uppercase);
    }
  }

  /**
    `parseval` reads back what `number` printed, in decimal or in hexadecimal with its prefix,
    exactly unless the output starts with a blank or a '+'; then it reads 0.
   */
  lemma RoundTrip(num: int, base: nat, size: int, precision: int, f: Flags)
    requires Readable(base, f) && -TWO_TO_THE_31 < num < TWO_TO_THE_31 && (num >= 0 || f.sign)
    ensures Parsed(Text(num, base, size, precision, f) + "\0") == num <==>
      num == 0 || !StartsBadly(num, base, size, precision, f)
  {
    hide Digits, Text, Unsigned, StartsBadly, Reads;
    var s := Text(num, base, size, precision, f) + "\0";
    if StartsBadly(num, base, size, precision, f) {
      BadStart(num, base, size, precision, f);
      NothingRead(s);
    } else {
      var d, rest := TextParts(num, base, size, precision, f);
      UnsignedText(d, rest, base, Magnitude(num, f));
      var t := Hex(base) + d + rest;
      assert num < 0 ==> s[1..] == t;
      assert num >= 0 ==> s == t;
    }
  }

  lemma BadStart(num: int, base: nat, size: int, precision: int, f: Flags)
    requires Readable(base, f) && -TWO_TO_THE_31 < num < TWO_TO_THE_31
    requires StartsBadly(num, base, size, precision, f)
    ensures var t := Text(num, base, size, precision, f); t != "" && (t[0] == ' ' || t[0] == '+')
  {
    hide Body;
  }

  lemma NothingRead(s: string)
    requires s != "" && (s[0] == ' ' || s[0] == '+')
    ensures Parsed(s) == 0
  {
    assert s[..0] == "";
  }

  /** The two functions one after the other. */
  method PrintAndRead(num: int, base: nat, size: int, precision: int, f: Flags) returns (back: int)
    requires Readable(base, f) && -TWO_TO_THE_31 < num < TWO_TO_THE_31 && (num >= 0 || f.sign)
    ensures back == num <==> num == 0 || !StartsBadly(num, base, size, precision, f)
  {
    hide *;
    RoundTrip(num, base, size, precision, f);
    BaseInRange(base, f);
    var text := Number(num, base, size, precision, f);
    var s := text.value + "\0";
    assert s[|s| - 1] == '\0';
    back := Parseval(s);
  }

  lemma BaseInRange(base: nat, f: Flags)
    requires Readable(base, f)
    ensures 2 <= base <= 36
  {
  }
}
