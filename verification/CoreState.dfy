/** The CoreMark state machine benchmark (`sw/coremark/core_state.c`), on its memory block. */
module CoreState {
  import opened Machine
  import opened CoreStateModel
  import Bits
  import Crc
  import RegisterAlgebra

  /** Scanning from here stays inside the block. */
  ghost predicate NulAhead(s: seq<Byte>, from: nat) {
    exists z :: from <= z < |s| && s[z] == 0
  }

  /**
    Scan one input at `start`.  The end of the input is returned in `str` and lies inside the
    block; the counters and the state are those of `Scan`.
   */
  method CoreStateTransition(block: array<Byte>, start: nat, transitionCount: array<nat>)
    returns (state: State, str: nat)
    requires NulAhead(block[..], start) && transitionCount.Length == 8
    modifies transitionCount
    ensures start <= str < block.Length && NulAhead(block[..], str)
    ensures Scan(block[start..], Start, old(transitionCount[..])) == Scanned(state, transitionCount[..], str - start)
  {
    hide NulAhead, Bump, Counted, Next;
    ghost var nul := NulOf(block[..], start);
    ghost var whole := Scan(block[start..], Start, transitionCount[..]);
    state, str := Start, start;
    while block[str] != 0 && state != Invalid
      invariant start <= str <= nul
      invariant whole == AddLength(Scan(block[str..], state, transitionCount[..]), str - start)
      decreases nul - str
    {
      var symbol := block[str];
      assert block[str..][0] == symbol && block[str..][1..] == block[str + 1..];
      if symbol == COMMA {
        str := str + 1;
        NulKnown(block[..], str, nul);
        return;
      }
      state := Advance(state, symbol, transitionCount);
      str := str + 1;
    }
    NulKnown(block[..], str, nul);
  }

  function AddLength(r: Scanned, n: nat): Scanned {
    r.(length := r.length + n)
  }

  lemma NulOf(s: seq<Byte>, from: nat) returns (z: nat)
    requires NulAhead(s, from)
    ensures from <= z < |s| && s[z] == 0
  {
    z :| from <= z < |s| && s[z] == 0;
  }

  lemma NulKnown(s: seq<Byte>, from: nat, z: nat)
    requires from <= z < |s| && s[z] == 0
    ensures NulAhead(s, from)
  {
  }

  /** `transition_count[st]++` */
  method CountOne(transitionCount: array<nat>, st: State)
    requires transitionCount.Length == 8
    modifies transitionCount
    ensures transitionCount[..] == Bump(old(transitionCount[..]), st)
  {
    transitionCount[Index(st)] := (transitionCount[Index(st)] + 1) % TWO_TO_THE_32;
  }

  /** The `switch`: the next state, and the counters. */
  method Advance(state: State, symbol: Byte, transitionCount: array<nat>) returns (next: State)
    requires transitionCount.Length == 8 && state != Invalid
    modifies transitionCount
    ensures next == Next(state, symbol)
    ensures transitionCount[..] == Counted(old(transitionCount[..]), state, symbol)
  {
    hide Bump;
    match state {
      case Start =>
        if IsDigit(symbol) {
          next := Int;
        } else if symbol == PLUS || symbol == MINUS {
          next := S1;
        } else if symbol == DOT {
          next := Float;
        } else {
          next := Invalid;
          CountOne(transitionCount, Invalid);
        }
        CountOne(transitionCount, Start);
      case S1 =>
        next := if IsDigit(symbol) then Int else if symbol == DOT then Float else Invalid;
        CountOne(transitionCount, S1);
      case Int =>
        next := Int;
        if symbol == DOT {
          next := Float;
          CountOne(transitionCount, Int);
        } else if !IsDigit(symbol) {
          next := Invalid;
          CountOne(transitionCount, Int);
        }
      case Float =>
        next := Float;
        if IsE(symbol) {
          next := S2;
          CountOne(transitionCount, Float);
        } else if !IsDigit(symbol) {
          next := Invalid;
          CountOne(transitionCount, Float);
        }
      case S2 =>
        next := if symbol == PLUS || symbol == MINUS then Exponent else Invalid;
        CountOne(transitionCount, S2);
      case Exponent =>
        next := if IsDigit(symbol) then Scientific else Invalid;
        CountOne(transitionCount, Exponent);
      case Scientific =>
        next := Scientific;
        if !IsDigit(symbol) {
          next := Invalid;
          CountOne(transitionCount, Invalid);
        }
    }
  }

  /** Scan the whole block, input by input. */
  method ScanBlock(block: array<Byte>, finalCounts: array<nat>, trackCounts: array<nat>)
    requires NulAhead(block[..], 0) && finalCounts.Length == 8 && trackCounts.Length == 8 && finalCounts != trackCounts
    modifies finalCounts, trackCounts
    ensures (finalCounts[..], trackCounts[..]) == ScanAll(block[..], old(finalCounts[..]), old(trackCounts[..]))
  {
    hide NulAhead, Bump, Scan;
    ghost var z := NulOf(block[..], 0);
    ghost var whole := ScanAll(block[..], finalCounts[..], trackCounts[..]);
    var p := 0;
    assert block[..] == block[0..];
    while block[p] != 0
      invariant 0 <= p < block.Length && NulAhead(block[..], p)
      invariant whole == ScanAll(block[p..], finalCounts[..], trackCounts[..])
      decreases block.Length - p
    {
      ghost var text := block[p..];
      ScanMoves(text, trackCounts[..]);
      var state, q := CoreStateTransition(block, p, trackCounts);
      assert text[q - p..] == block[q..];
      CountOne(finalCounts, state);
      p := q;
    }
  }

  // ---------------------------------------------------------------------------
  // Corruption and repair
  // ---------------------------------------------------------------------------

  function XorBits(a: seq<bool>, b: seq<bool>): (r: seq<bool>)
    requires |a| == |b|
    ensures |r| == |a|
  {
    seq(|a|, i requires 0 <= i < |a| => a[i] != b[i])
  }

  /** `a ^ b` on bytes. */
  function Xor(a: Byte, b: Byte): Byte {
    var bits := XorBits(Bits.BitsOf(a, 8), Bits.BitsOf(b, 8));
    ByteOf(bits)
  }

  /** The same mask twice changes nothing. */
  lemma XorTwice(a: Byte, b: Byte)
    ensures Xor(Xor(a, b), b) == a
  {
    var x, y := Bits.BitsOf(a, 8), Bits.BitsOf(b, 8);
    Bits.BitsOfNat(XorBits(x, y));
    assert XorBits(XorBits(x, y), y) == x;
    assert Bits.Power2(8) == 0x100;
    Bits.NatOfBits(a, 8);
  }

  /** One pass over the block: every `step`-th byte is masked unless it is a comma. */
  function Corrupted(s: seq<Byte>, seed: Byte, step: nat): (r: seq<Byte>)
    requires step > 0
    ensures |r| == |s|
  {
    seq(|s|, i requires 0 <= i < |s| => if i % step == 0 && s[i] != COMMA then Xor(s[i], seed) else s[i])
  }

  lemma BetweenMultiples(p: nat, step: nat, i: nat)
    requires step > 0 && p % step == 0 && p < i < p + step
    ensures i % step != 0 && (p + step) % step == 0
  {
    var q := p / step;
    assert p == q * step;
    assert p + step == (q + 1) * step;
    Rest(q + 1, step, 0);
    Rest(q, step, i - p);
  }

  /** The corruption loops of `core_bench_state`. */
  method Corrupt(block: array<Byte>, seed: Byte, step: nat)
    requires step > 0
    modifies block
    ensures block[..] == Corrupted(old(block[..]), seed, step)
  {
    hide Xor;
    var p := 0;
    while p < block.Length
      invariant 0 <= p && p % step == 0
      invariant forall i :: 0 <= i < block.Length && i < p ==> block[i] == Corrupted(old(block[..]), seed, step)[i]
      invariant forall i :: p <= i < block.Length ==> block[i] == old(block[i])
      decreases block.Length - p
    {
      if block[p] != COMMA {
        block[p] := Xor(block[p], seed);
      }
      forall i | p < i < p + step
        ensures i % step != 0
      {
        BetweenMultiples(p, step, i);
      }
      MultipleAdded(p, step);
      p := p + step;
    }
  }

  lemma MultipleAdded(p: nat, step: nat)
    requires step > 0 && p % step == 0
    ensures (p + step) % step == 0
  {
    Rest(p / step + 1, step, 0);
    assert (p / step + 1) * step == p + step;
  }

  /**
    Corrupting twice with the same seed restores the block exactly when no visited byte, comma
    apart, is turned into a comma by the mask: such a byte is skipped by the repair.
   */
  lemma RestoredExactlyWhen(s: seq<Byte>, seed: Byte, step: nat)
    requires step > 0
    ensures Corrupted(Corrupted(s, seed, step), seed, step) == s <==>
      forall i :: 0 <= i < |s| && i % step == 0 && s[i] != COMMA ==> Xor(s[i], seed) != COMMA
  {
    hide Xor;
    var once := Corrupted(s, seed, step);
    var twice := Corrupted(once, seed, step);
    forall i | 0 <= i < |s|
      ensures twice[i] == s[i] <==> !(i % step == 0 && s[i] != COMMA && Xor(s[i], seed) == COMMA)
    {
      XorTwice(s[i], seed);
    }
    if twice == s {
      forall i | 0 <= i < |s| && i % step == 0 && s[i] != COMMA
        ensures Xor(s[i], seed) != COMMA
      {
        assert twice[i] == s[i];
      }
    }
  }

  lemma XorZero(b: Byte)
    ensures Xor(0, b) == b
  {
    var z, y := Bits.BitsOf(0, 8), Bits.BitsOf(b, 8);
    forall i | 0 <= i < 8
      ensures !z[i]
    {
      Bits.NoBits(8, i);
    }
    assert XorBits(z, y) == y;
    assert Bits.Power2(8) == 0x100;
    Bits.NatOfBits(b, 8);
  }

  /** With the mask ',' a visited NUL becomes a comma, and the repair leaves it one. */
  lemma CommaMaskFails(s: seq<Byte>, step: nat, i: nat)
    requires step > 0 && i < |s| && i % step == 0 && s[i] == 0
    ensures var r := Corrupted(Corrupted(s, COMMA, step), COMMA, step);
      r != s && r[i] == COMMA
  {
    hide Xor;
    XorZero(COMMA);
    var r := Corrupted(Corrupted(s, COMMA, step), COMMA, step);
    assert r[i] == COMMA;
  }

  /** Two NULs at the end: with a step of two or more one of them survives. */
  predicate Terminated(s: seq<Byte>) {
    |s| >= 2 && s[|s| - 1] == 0 && s[|s| - 2] == 0
  }

  lemma NulSurvives(s: seq<Byte>, seed: Byte, step: nat)
    requires Terminated(s) && step >= 2
    ensures NulAhead(s, 0) && NulAhead(Corrupted(s, seed, step), 0)
  {
    var n := |s|;
    var r := Corrupted(s, seed, step);
    NulKnown(s, 0, n - 1);
    if (n - 1) % step == 0 {
      TwoMultiples(n - 2, step);
      NulKnown(r, 0, n - 2);
    } else {
      NulKnown(r, 0, n - 1);
    }
  }

  lemma TwoMultiples(k: nat, step: nat)
    requires step >= 2 && (k + 1) % step == 0
    ensures k % step != 0
  {
    if k % step == 0 {
      BetweenMultiples(k, step, k + 1);
    }
  }

  // ---------------------------------------------------------------------------
  // The benchmark
  // ---------------------------------------------------------------------------

  function WordsOf(n: nat): seq<Crc.Word> {
    [Bits.BitsOf(n, 16), Bits.BitsOf(n / 0x10000, 16)]
  }

  /** The first `k` pairs of counters, as they go into the CRC. */
  function CountWords(final: Counts, track: Counts, k: nat): seq<Crc.Word>
    requires k <= 8
  {
    if k == 0 then [] else CountWords(final, track, k - 1) + WordsOf(final[k - 1]) + WordsOf(track[k - 1])
  }

  method FoldCounts(finalCounts: array<nat>, trackCounts: array<nat>, crc0: Crc.Word) returns (crc: Crc.Word)
    requires finalCounts.Length == 8 && trackCounts.Length == 8
    ensures crc == Crc.Fold(CountWords(finalCounts[..], trackCounts[..], 8), crc0)
  {
    hide Crc.Clock16, Crc.Xor, Bits.BitsOf;
    crc := crc0;
    ghost var f, t: Counts := finalCounts[..], trackCounts[..];
    var i := 0;
    while i < 8
      invariant 0 <= i <= 8
      invariant crc == Crc.Fold(CountWords(f, t, i), crc0)
    {
      RegisterAlgebra.FoldAppend(Crc.Xor, Crc.Clock16, CountWords(f, t, i), WordsOf(f[i]), crc0);
      RegisterAlgebra.FoldAppend(Crc.Xor, Crc.Clock16, CountWords(f, t, i) + WordsOf(f[i]), WordsOf(t[i]), crc0);
      crc := Crc.Crcu32(Bits.BitsOf(finalCounts[i], 16), Bits.BitsOf(finalCounts[i] / 0x10000, 16), crc);
      crc := Crc.Crcu32(Bits.BitsOf(trackCounts[i], 16), Bits.BitsOf(trackCounts[i] / 0x10000, 16), crc);
      i := i + 1;
    }
  }

  const NO_COUNTS: Counts := [0, 0, 0, 0, 0, 0, 0, 0]

  /** What the benchmark returns for a block. */
  function BenchCrc(s: seq<Byte>, seed1: Byte, step: nat, crc: Crc.Word): Crc.Word
    requires step > 0
  {
    var first := ScanAll(s, NO_COUNTS, NO_COUNTS);
    var second := ScanAll(Corrupted(s, seed1, step), first.0, first.1);
    Crc.Fold(CountWords(second.0, second.1, 8), crc)
  }

  /**
    `core_bench_state`: neither scan leaves the block, and with equal seeds the block is back to
    its old contents exactly when no visited byte turns into a comma.
   */
  method CoreBenchState(block: array<Byte>, seed1: Byte, seed2: Byte, step: nat, crc0: Crc.Word) returns (crc: Crc.Word)
    requires Terminated(block[..]) && step >= 2
    modifies block
    ensures crc == BenchCrc(old(block[..]), seed1, step, crc0)
    ensures block[..] == Corrupted(Corrupted(old(block[..]), seed1, step), seed2, step)
    ensures seed1 == seed2 ==>
      (block[..] == old(block[..]) <==>
         forall i :: 0 <= i < block.Length && i % step == 0 && old(block[i]) != COMMA ==>
           Xor(old(block[i]), seed1) != COMMA)
  {
    hide Xor, Corrupted, ScanAll, NulAhead, CountWords, Crc.Fold;
    var finalCounts := new nat[8](_ => 0);
    var trackCounts := new nat[8](_ => 0);
    assert finalCounts[..] == NO_COUNTS && trackCounts[..] == NO_COUNTS;
    ghost var s := block[..];
    NulSurvives(s, seed1, step);
    ScanBlock(block, finalCounts, trackCounts);
    Corrupt(block, seed1, step);
    ScanBlock(block, finalCounts, trackCounts);
    Corrupt(block, seed2, step);
    crc := FoldCounts(finalCounts, trackCounts, crc0);
    RestoredExactlyWhen(s, seed1, step);
  }
}
