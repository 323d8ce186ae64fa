/** The input of the CoreMark state machine benchmark (`core_init_state` in `sw/coremark/core_state.c`). */
module CoreStateInit {
  import opened Machine
  import opened CoreStateModel
  import CoreState

  predicate Latin(s: string) {
    forall k :: 0 <= k < |s| ==> s[k] as int < 0x100
  }

  function BytesOf(s: string): (b: seq<Byte>)
    requires Latin(s)
    ensures |b| == |s| && forall k :: 0 <= k < |s| ==> b[k] == s[k] as int
  {
    seq(|s|, k requires 0 <= k < |s| => s[k] as int)
  }

  function IntPat(n: nat): string
    requires n < 4
  {
    if n == 0 then "5012" else if n == 1 then "1234" else if n == 2 then "-874" else "+122"
  }

  function FloatPat(n: nat): string
    requires n < 4
  {
    if n == 0 then "35.54400" else if n == 1 then ".1234500" else if n == 2 then "-110.700" else "+0.64400"
  }

  function SciPat(n: nat): string
    requires n < 4
  {
    if n == 0 then "5.500e+3" else if n == 1 then "-.123e-2" else if n == 2 then "-87e+832" else "+0.6e-12"
  }

  function ErrPat(n: nat): string
    requires n < 4
  {
    if n == 0 then "T0.3e-1F" else if n == 1 then "-T.T++Tq" else if n == 2 then "1T3.4e4z" else "34.0e-T^"
  }

  /** The pattern for a seed: `seed & 0x7` picks the kind, `(seed >> 3) & 0x3` the pattern. */
  function PatternText(seed: int): (s: string)
    ensures Latin(s) && (|s| == 4 || |s| == 8)
  {
    var kind, n := seed % 8, seed / 8 % 4;
    if kind <= 2 then IntPat(n) else if kind <= 4 then FloatPat(n) else if kind <= 6 then SciPat(n) else ErrPat(n)
  }

  function Pattern(seed: int): seq<Byte> {
    BytesOf(PatternText(seed))
  }

  /** The first `k` patterns, each with its comma. */
  function Text(seed: int, k: nat): seq<Byte> {
    if k == 0 then [] else Text(seed, k - 1) + Pattern(S16(seed + k)) + [COMMA]
  }

  function Zeros(n: nat): seq<Byte> {
    seq(n, _ => 0)
  }

  /** As many patterns as fit, and NULs to the end, two of them at least. */
  predicate Filled(s: seq<Byte>, seed: int, k: nat) {
    var text := Text(seed, k);
    && |text| + 2 <= |s| <= |Text(seed, k + 1)| + 1
    && s == text + Zeros(|s| - |text|)
  }

  lemma S16Step(seed: int, k: nat)
    ensures S16(S16(seed + k) + 1) == S16(seed + (k + 1))
  {
  }

  /** `core_init_state` for a block of two bytes or more. */
  method CoreInitState(p: array<Byte>, seed0: int) returns (ghost k: nat)
    requires p.Length >= 2 && S16(seed0) == seed0
    modifies p
    ensures Filled(p[..], seed0, k) && CoreState.Terminated(p[..])
  {
    hide Pattern;
    var size := p.Length - 1;
    var total, next, seed, buf := 0, 0, seed0, [];
    k := 0;
    while total + next + 1 < size
      invariant 0 <= total <= size - 1
      invariant p[..total] == Text(seed0, k) && seed == S16(seed0 + k + (if next > 0 then 1 else 0))
      invariant next == |buf| && (next > 0 ==> buf == Pattern(seed))
      invariant next == 0 ==> k == 0
      decreases size - total, if next == 0 then 1 else 0
    {
      if next > 0 {
        CopyPattern(p, total, buf);
        total := total + next + 1;
        k := k + 1;
      }
      S16Step(seed0, k);
      seed := S16(seed + 1);
      buf := BytesOf(PatternText(seed));
      next := |buf|;
      assert buf == Pattern(seed) by { PatternIs(seed); }
    }
    PatternLength(S16(seed0 + k + 1));
    FillZeros(p, total);
    assert p[..] == Text(seed0, k) + Zeros(p.Length - total);
  }

  lemma PatternIs(seed: int)
    ensures Pattern(seed) == BytesOf(PatternText(seed))
  {
  }

  lemma PatternLength(seed: int)
    ensures |Pattern(seed)| == 4 || |Pattern(seed)| == 8
  {
  }

  /** `*(p+total+i)=buf[i]`, then the comma. */
  method CopyPattern(p: array<Byte>, total: nat, buf: seq<Byte>)
    requires total + |buf| < p.Length
    modifies p
    ensures p[..total + |buf| + 1] == old(p[..total]) + buf + [COMMA]
  {
    var i := 0;
    while i < |buf|
      invariant 0 <= i <= |buf|
      invariant p[..total + i] == old(p[..total]) + buf[..i]
    {
      p[total + i] := buf[i];
      i := i + 1;
    }
    p[total + i] := COMMA;
  }

  method FillZeros(p: array<Byte>, from: nat)
    requires from <= p.Length
    modifies p
    ensures p[..] == old(p[..from]) + Zeros(p.Length - from)
  {
    var total := from;
    while total < p.Length
      invariant from <= total <= p.Length
      invariant p[..total] == old(p[..from]) + Zeros(total - from)
    {
      p[total] := 0;
      total := total + 1;
    }
  }

  // ---------------------------------------------------------------------------
  // What the scanner makes of the patterns
  // ---------------------------------------------------------------------------

  lemma IntPatterns(n: nat)
    requires n < 4
    ensures Latin(IntPat(n)) && Run(BytesOf(IntPat(n))) == Int
  {
    assert Fits(Int, BytesOf(IntPat(n)));
    Complete(Int, BytesOf(IntPat(n)));
  }

  lemma FloatPatterns(n: nat)
    requires n < 4
    ensures Latin(FloatPat(n)) && Run(BytesOf(FloatPat(n))) == Float
  {
    var t := BytesOf(FloatPat(n));
    assert PointAt(Unsigned(t), [2, 0, 3, 1][n]);
    Complete(Float, t);
  }

  /** A float, with its point at `k`, and an exponent. */
  lemma SciText(f: string, e: string, k: nat)
    requires Latin(f) && Latin(e) && k < |Unsigned(BytesOf(f))| && PointAt(Unsigned(BytesOf(f)), k)
    requires |e| > 2 && IsE(BytesOf(e)[0]) && IsSign(BytesOf(e)[1]) && AllDigits(BytesOf(e)[2..])
    ensures Latin(f + e) && Run(BytesOf(f + e)) == Scientific
  {
    var t := BytesOf(f + e);
    assert t[..|f|] == BytesOf(f) && t[|f|..] == BytesOf(e) && t[|f| + 2..] == BytesOf(e)[2..];
    assert FloatThenE(t, |f|);
    Complete(Scientific, t);
  }

  lemma SciText0()
    ensures Latin("5.500e+3") && Run(BytesOf("5.500e+3")) == Scientific
  {
    hide Run;
    SciText("5.500", "e+3", 1);
    assert "5.500" + "e+3" == "5.500e+3";
  }

  lemma SciText1()
    ensures Latin("-.123e-2") && Run(BytesOf("-.123e-2")) == Scientific
  {
    hide Run;
    SciText("-.123", "e-2", 0);
    assert "-.123" + "e-2" == "-.123e-2";
  }

  lemma SciText3()
    ensures Latin("+0.6e-12") && Run(BytesOf("+0.6e-12")) == Scientific
  {
    hide Run;
    SciText("+0.6", "e-12", 1);
    assert "+0.6" + "e-12" == "+0.6e-12";
  }

  /** Three of the four scientific patterns have a point and are recognised. */
  lemma SciPatterns(n: nat)
    requires n < 4 && n != 2
    ensures Latin(SciPat(n)) && Run(BytesOf(SciPat(n))) == Scientific
  {
    hide Run, Latin;
    if n == 0 {
      SciText0();
    } else if n == 1 {
      SciText1();
    } else {
      SciText3();
    }
  }

  /** Without a point, "-87e+832" is not a number to the machine: an integer may not have an exponent. */
  lemma PointlessPattern()
    ensures Latin(SciPat(2)) && Run(BytesOf(SciPat(2))) == Invalid
  {
    var t := BytesOf(SciPat(2));
    RunFromStart(t);
    assert t[1..][1..] == t[2..] && t[2..][1..] == t[3..] && t[3..][1..] == t[4..];
    assert RunFrom(Start, t) == RunFrom(S1, t[1..]) && RunFrom(S1, t[1..]) == RunFrom(Int, t[2..]);
    assert RunFrom(Int, t[2..]) == RunFrom(Int, t[3..]) && RunFrom(Int, t[3..]) == RunFrom(Invalid, t[4..]);
    InvalidStays(t[4..]);
  }

  lemma ErrPatterns(n: nat)
    requires n < 4
    ensures Latin(ErrPat(n)) && Run(BytesOf(ErrPat(n))) == Invalid
  {
    var t := BytesOf(ErrPat(n));
    RunFromStart(t);
    StepsInvalid(t, [0, 1, 1, 6][n]);
  }

  /** Once a prefix is invalid the whole text is. */
  lemma StepsInvalid(t: seq<Byte>, k: nat)
    requires k < |t| && Run(t[..k + 1]) == Invalid
    ensures RunFrom(Start, t) == Invalid
  {
    RunFromStart(t[..k + 1]);
    RunFromSplit(Start, t[..k + 1], t[k + 1..]);
    assert t[..k + 1] + t[k + 1..] == t;
    InvalidStays(t[k + 1..]);
  }

  lemma {:induction false} RunFromSplit(st: State, a: seq<Byte>, b: seq<Byte>)
    ensures RunFrom(st, a + b) == RunFrom(RunFrom(st, a), b)
    decreases |a|
  {
    if a == [] {
      assert a + b == b;
    } else {
      assert (a + b)[1..] == a[1..] + b;
      RunFromSplit(Next(st, a[0]), a[1..], b);
    }
  }

  /** The class of every pattern of the block. */
  lemma PatternClass(seed: int)
    ensures Run(Pattern(seed)) ==
      var kind, n := seed % 8, seed / 8 % 4;
      if kind <= 2 then Int else if kind <= 4 then Float else if kind <= 6 && n != 2 then Scientific else Invalid
  {
    hide Run, IntPat, FloatPat, SciPat, ErrPat;
    var n := seed / 8 % 4;
    IntPatterns(n);
    FloatPatterns(n);
    if n == 2 {
      PointlessPattern();
    } else {
      SciPatterns(n);
    }
    ErrPatterns(n);
  }
}
