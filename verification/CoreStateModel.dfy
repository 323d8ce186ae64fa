/**
  The scanner of the CoreMark state machine benchmark (`sw/coremark/core_state.c`) as a
  function over bytes, and the grammar it recognises.
 */
module CoreStateModel {

  import opened Machine

  const COMMA: Byte := 44
  const PLUS: Byte := 43
  const MINUS: Byte := 45
  const DOT: Byte := 46

  datatype State = Start | Invalid | S1 | S2 | Int | Float | Exponent | Scientific

  /** The value of the enumeration constant. */
  function Index(st: State): (i: nat)
    ensures i < 8
  {
    match st
    case Start => 0
    case Invalid => 1
    case S1 => 2
    case S2 => 3
    case Int => 4
    case Float => 5
    case Exponent => 6
    case Scientific => 7
  }

  /** `ee_isdigit` */
  predicate IsDigit(c: Byte) {
    48 <= c <= 57
  }

  predicate IsSign(c: Byte) {
    c == PLUS || c == MINUS
  }

  /** 'E' or 'e' */
  predicate IsE(c: Byte) {
    c == 69 || c == 101
  }

  /** The bytes are the ASCII codes of these characters. */
  lemma CharactersAre(c: Byte)
    ensures IsDigit(c) <==> '0' <= c as char <= '9'
    ensures IsSign(c) <==> c as char == '+' || c as char == '-'
    ensures IsE(c) <==> c as char == 'e' || c as char == 'E'
    ensures c == COMMA <==> c as char == ','
    ensures c == DOT <==> c as char == '.'
  {
    assert '0' as int == 48 && '9' as int == 57 && '+' as int == 43 && '-' as int == 45 && ',' as int == 44;
    assert '.' as int == 46 && 'e' as int == 101 && 'E' as int == 69;
  }

  /** The `switch` of `core_state_transition`: the next state. */
  function Next(st: State, c: Byte): State {
    match st
    case Start => if IsDigit(c) then Int else if IsSign(c) then S1 else if c == DOT then Float else Invalid
    case S1 => if IsDigit(c) then Int else if c == DOT then Float else Invalid
    case Int => if c == DOT then Float else if IsDigit(c) then Int else Invalid
    case Float => if IsE(c) then S2 else if IsDigit(c) then Float else Invalid
    case S2 => if IsSign(c) then Exponent else Invalid
    case Exponent => if IsDigit(c) then Scientific else Invalid
    case Scientific => if IsDigit(c) then Scientific else Invalid
    case Invalid => Invalid
  }

  // ---------------------------------------------------------------------------
  // The grammar
  // ---------------------------------------------------------------------------

  predicate AllDigits(t: seq<Byte>) {
    forall k :: 0 <= k < |t| ==> IsDigit(t[k])
  }

  /** The text without its sign, if it has one. */
  function Unsigned(t: seq<Byte>): seq<Byte> {
    if t != [] && IsSign(t[0]) then t[1..] else t
  }

  /** An optional sign and one or more digits. */
  predicate IsInt(t: seq<Byte>) {
    Unsigned(t) != [] && AllDigits(Unsigned(t))
  }

  /** An optional sign, and digits with one point among, before or after them. */
  ghost predicate IsFloat(t: seq<Byte>) {
    exists k :: 0 <= k < |Unsigned(t)| && PointAt(Unsigned(t), k)
  }

  predicate PointAt(u: seq<Byte>, k: nat)
    requires k < |u|
  {
    u[k] == DOT && AllDigits(u[..k]) && AllDigits(u[k + 1..])
  }

  /** A float, then 'e', a sign, and one or more digits. */
  ghost predicate IsScientific(t: seq<Byte>) {
    exists k :: 0 <= k && k + 2 < |t| && FloatThenE(t, k) && IsSign(t[k + 1]) && AllDigits(t[k + 2..])
  }

  /** A float of length `k`, then 'e'. */
  ghost predicate FloatThenE(t: seq<Byte>, k: nat)
    requires k < |t|
  {
    IsFloat(t[..k]) && IsE(t[k])
  }

  /** What a valid state says about the text read so far. */
  ghost predicate Fits(st: State, t: seq<Byte>) {
    match st
    case Start => t == []
    case S1 => |t| == 1 && IsSign(t[0])
    case Int => IsInt(t)
    case Float => IsFloat(t)
    case S2 => |t| > 0 && FloatThenE(t, |t| - 1)
    case Exponent => |t| > 1 && FloatThenE(t, |t| - 2) && IsSign(t[|t| - 1])
    case Scientific => IsScientific(t)
    case Invalid => false
  }

  /** The machine over a whole text. */
  function Run(t: seq<Byte>): State {
    if t == [] then Start else Next(Run(t[..|t| - 1]), t[|t| - 1])
  }

  lemma UnsignedPrefix(t: seq<Byte>)
    requires t != [] && Unsigned(t) != []
    ensures Unsigned(t[..|t| - 1]) == Unsigned(t)[..|Unsigned(t)| - 1]
    ensures Unsigned(t)[|Unsigned(t)| - 1] == t[|t| - 1]
  {
  }

  lemma {:induction false} IntRuns(t: seq<Byte>)
    requires IsInt(t)
    ensures Run(t) == Int
    decreases |t|
  {
    var u, before := Unsigned(t), t[..|t| - 1];
    UnsignedPrefix(t);
    assert IsDigit(u[|u| - 1]);
    if |u| > 1 {
      assert AllDigits(u[..|u| - 1]);
      IntRuns(before);
    } else {
      ShortRuns(before);
    }
  }

  /** Nothing, or a sign. */
  lemma ShortRuns(t: seq<Byte>)
    requires Unsigned(t) == []
    ensures Run(t) == (if t == [] then Start else S1)
  {
    if t != [] {
      assert t[..|t| - 1] == [];
    }
  }

  lemma {:induction false} FloatRuns(t: seq<Byte>, k: nat)
    requires k < |Unsigned(t)| && PointAt(Unsigned(t), k)
    ensures Run(t) == Float
    decreases |t|
  {
    var u, before := Unsigned(t), t[..|t| - 1];
    var n := |u| - 1;
    UnsignedPrefix(t);
    assert Unsigned(before) == u[..n];
    if k == n {
      if k == 0 {
        ShortRuns(before);
      } else {
        IntRuns(before);
      }
    } else {
      assert u[..n][..k] == u[..k] && u[..n][k + 1..] == u[k + 1..][..n - k - 1];
      assert IsDigit(u[k + 1..][n - k - 1]);
      FloatRuns(before, k);
    }
  }

  lemma {:induction false} ScientificRuns(t: seq<Byte>, k: nat)
    requires k + 2 < |t| && FloatThenE(t, k) && IsSign(t[k + 1]) && AllDigits(t[k + 2..])
    ensures Run(t) == Scientific
    decreases |t|
  {
    var n := |t| - 1;
    assert IsDigit(t[k + 2..][n - k - 2]);
    if k + 2 == n {
      assert t[..n][k + 1] == t[k + 1] && t[..n][..k] == t[..k];
      ExponentRuns(t[..n]);
    } else {
      assert t[..n][..k] == t[..k] && t[..n][k + 2..] == t[k + 2..][..n - k - 2];
      ScientificRuns(t[..n], k);
    }
  }

  lemma ExponentRuns(t: seq<Byte>)
    requires Fits(Exponent, t)
    ensures Run(t) == Exponent
  {
    var n := |t| - 1;
    assert t[..n][..n - 1] == t[..n - 1];
    S2Runs(t[..n]);
  }

  lemma S2Runs(t: seq<Byte>)
    requires Fits(S2, t)
    ensures Run(t) == S2
  {
    var f := t[..|t| - 1];
    var k :| 0 <= k < |Unsigned(f)| && PointAt(Unsigned(f), k);
    FloatRuns(f, k);
  }

  /** Every text of the grammar is recognised as what it is. */
  lemma Complete(st: State, t: seq<Byte>)
    requires Fits(st, t)
    ensures Run(t) == st
  {
    match st
    case Start =>
    case S1 =>
      assert Unsigned(t) == [];
      ShortRuns(t);
    case Int => IntRuns(t);
    case Float =>
      var k :| 0 <= k < |Unsigned(t)| && PointAt(Unsigned(t), k);
      FloatRuns(t, k);
    case S2 => S2Runs(t);
    case Exponent => ExponentRuns(t);
    case Scientific =>
      var k :| 0 <= k && k + 2 < |t| && FloatThenE(t, k) && IsSign(t[k + 1]) && AllDigits(t[k + 2..]);
      ScientificRuns(t, k);
  }

  lemma FloatGrows(t: seq<Byte>, c: Byte)
    requires IsFloat(t) && IsDigit(c)
    ensures IsFloat(t + [c])
  {
    var u := Unsigned(t);
    var k :| 0 <= k < |u| && PointAt(u, k);
    assert Unsigned(t + [c]) == u + [c];
    assert (u + [c])[..k] == u[..k] && (u + [c])[k + 1..] == u[k + 1..] + [c];
    assert PointAt(u + [c], k);
  }

  lemma FloatStarts(t: seq<Byte>)
    requires IsInt(t) || Unsigned(t) == []
    ensures IsFloat(t + [DOT])
  {
    var u := Unsigned(t);
    assert Unsigned(t + [DOT]) == u + [DOT];
    assert (u + [DOT])[..|u|] == u && (u + [DOT])[|u| + 1..] == [];
    assert PointAt(u + [DOT], |u|);
  }

  lemma IntGrows(t: seq<Byte>, c: Byte)
    requires (IsInt(t) || Unsigned(t) == []) && IsDigit(c)
    ensures IsInt(t + [c])
  {
    assert Unsigned(t + [c]) == Unsigned(t) + [c];
  }

  /** One more character keeps the meaning of the states up to the point. */
  lemma FitsNextNumber(st: State, t: seq<Byte>, c: Byte)
    requires st in {Start, S1, Int} && Fits(st, t) && Next(st, c) != Invalid
    ensures Fits(Next(st, c), t + [c])
  {
    hide IsFloat, IsInt, Unsigned;
    if st != Int {
      UnsignedOfSign(t);
    }
    if IsDigit(c) {
      IntGrows(t, c);
    } else if c == DOT {
      FloatStarts(t);
    }
  }

  lemma FitsNextFloat(t: seq<Byte>, c: Byte)
    requires IsFloat(t) && Next(Float, c) != Invalid
    ensures Fits(Next(Float, c), t + [c])
  {
    assert (t + [c])[..|t|] == t;
    if IsDigit(c) {
      FloatGrows(t, c);
    }
    hide IsFloat;
  }

  /** And of the states after the 'e'. */
  lemma FitsNextExponent(st: State, t: seq<Byte>, c: Byte)
    requires st in {S2, Exponent, Scientific} && Fits(st, t) && Next(st, c) != Invalid
    ensures Fits(Next(st, c), t + [c])
  {
    hide IsFloat;
    var n := |t|;
    var more := t + [c];
    if st == S2 {
      assert more[..n - 1] == t[..n - 1];
    } else if st == Exponent {
      assert more[..n - 2] == t[..n - 2] && more[n..] == [c];
      assert FloatThenE(more, n - 2);
    } else {
      var k :| 0 <= k && k + 2 < n && FloatThenE(t, k) && IsSign(t[k + 1]) && AllDigits(t[k + 2..]);
      assert more[..k] == t[..k] && more[k + 2..] == t[k + 2..] + [c];
      assert FloatThenE(more, k);
    }
  }

  lemma FitsNext(st: State, t: seq<Byte>, c: Byte)
    requires Fits(st, t) && Next(st, c) != Invalid
    ensures Fits(Next(st, c), t + [c])
  {
    if st == Float {
      FitsNextFloat(t, c);
    } else if st in {Start, S1, Int} {
      FitsNextNumber(st, t, c);
    } else {
      FitsNextExponent(st, t, c);
    }
  }

  lemma UnsignedOfSign(t: seq<Byte>)
    requires t == [] || (|t| == 1 && IsSign(t[0]))
    ensures Unsigned(t) == []
  {
  }

  lemma {:induction false} Sound(t: seq<Byte>)
    requires Run(t) != Invalid
    ensures Fits(Run(t), t)
    decreases |t|
  {
    if t != [] {
      var before, c := t[..|t| - 1], t[|t| - 1];
      Sound(before);
      FitsNext(Run(before), before, c);
      assert before + [c] == t;
    }
  }

  /** The machine recognises exactly the grammar. */
  lemma Recognises(st: State, t: seq<Byte>)
    requires st != Invalid
    ensures Run(t) == st <==> Fits(st, t)
  {
    if Run(t) == st {
      Sound(t);
    } else if Fits(st, t) {
      Complete(st, t);
    }
  }

  // ---------------------------------------------------------------------------
  // Scanning a text of many inputs
  // ---------------------------------------------------------------------------

  /** One `ee_u32` counter per state. */
  type Counts = c: seq<nat> | |c| == 8 witness [0, 0, 0, 0, 0, 0, 0, 0]

  function Bump(counts: Counts, st: State): Counts {
    counts[Index(st) := (counts[Index(st)] + 1) % TWO_TO_THE_32]
  }

  /** The transition counters after character `c` in state `st`. */
  function Counted(counts: Counts, st: State, c: Byte): Counts {
    match st
    case Start => Bump(if Next(st, c) == Invalid then Bump(counts, Invalid) else counts, Start)
    case S1 | S2 | Exponent => Bump(counts, st)
    case Int | Float => if Next(st, c) == st then counts else Bump(counts, st)
    case Scientific => if Next(st, c) == st then counts else Bump(counts, Invalid)
    case Invalid => counts
  }

  datatype Scanned = Scanned(st: State, counts: Counts, length: nat)

  /** What scanning one input from state `st` leads to, and how many bytes it takes. */
  function Scan(text: seq<Byte>, st: State, counts: Counts): (r: Scanned)
    ensures r.length <= |text|
    decreases |text|
  {
    if text == [] || text[0] == 0 || st == Invalid then Scanned(st, counts, 0)
    else if text[0] == COMMA then Scanned(st, counts, 1)
    else
      var r := Scan(text[1..], Next(st, text[0]), Counted(counts, st, text[0]));
      r.(length := r.length + 1)
  }

  /** The bytes up to the first NUL or comma. */
  function Token(text: seq<Byte>): (t: seq<Byte>)
    ensures |t| <= |text| && text[..|t|] == t
    ensures |t| < |text| ==> text[|t|] == 0 || text[|t|] == COMMA
    ensures forall k :: 0 <= k < |t| ==> t[k] != 0 && t[k] != COMMA
    decreases |text|
  {
    if text == [] || text[0] == 0 || text[0] == COMMA then [] else [text[0]] + Token(text[1..])
  }

  function RunFrom(st: State, t: seq<Byte>): State
    decreases |t|
  {
    if t == [] then st else RunFrom(Next(st, t[0]), t[1..])
  }

  lemma {:induction false} RunFromSnoc(st: State, t: seq<Byte>, c: Byte)
    ensures RunFrom(st, t + [c]) == Next(RunFrom(st, t), c)
    decreases |t|
  {
    if t == [] {
      assert RunFrom(Next(st, c), []) == Next(st, c);
      assert (t + [c])[1..] == [];
    } else {
      assert (t + [c])[1..] == t[1..] + [c];
      RunFromSnoc(Next(st, t[0]), t[1..], c);
    }
  }

  lemma {:induction false} RunFromStart(t: seq<Byte>)
    ensures RunFrom(Start, t) == Run(t)
    decreases |t|
  {
    if t != [] {
      RunFromStart(t[..|t| - 1]);
      RunFromSnoc(Start, t[..|t| - 1], t[|t| - 1]);
      assert t[..|t| - 1] + [t[|t| - 1]] == t;
    }
  }

  lemma {:induction false} InvalidStays(t: seq<Byte>)
    ensures RunFrom(Invalid, t) == Invalid
    decreases |t|
  {
    if t != [] {
      InvalidStays(t[1..]);
    }
  }

  lemma {:induction false} ScanRuns(text: seq<Byte>, st: State, counts: Counts)
    ensures var t, r := Token(text), Scan(text, st, counts);
      && r.st == RunFrom(st, t)
      && (r.st != Invalid ==> r.length == if |t| < |text| && text[|t|] == COMMA then |t| + 1 else |t|)
      && (r.st == Invalid ==> r.length <= |t|)
    decreases |text|
  {
    if st == Invalid {
      InvalidStays(Token(text));
    } else if !(text == [] || text[0] == 0 || text[0] == COMMA) {
      var t := Token(text);
      ScanRuns(text[1..], Next(st, text[0]), Counted(counts, st, text[0]));
      assert t[1..] == Token(text[1..]);
    }
  }

  /**
    The scanner returns the class of the input in the grammar, and stops behind its comma, or at
    the NUL, or inside the input if that is invalid.
   */
  lemma ScanClassifies(text: seq<Byte>, counts: Counts, st: State)
    requires st != Invalid
    ensures var t, r := Token(text), Scan(text, Start, counts);
      && (r.st == st <==> Fits(st, t))
      && (r.st == st ==> r.length == if |t| < |text| && text[|t|] == COMMA then |t| + 1 else |t|)
      && (r.st == Invalid ==> 0 < r.length <= |t|)
  {
    var t := Token(text);
    ScanRuns(text, Start, counts);
    RunFromStart(t);
    Recognises(st, t);
  }

  /** At least one byte is taken unless the text is at its end. */
  lemma ScanMoves(text: seq<Byte>, counts: Counts)
    requires text != [] && text[0] != 0
    ensures Scan(text, Start, counts).length > 0
  {
  }

  /** A scan never passes a NUL. */
  lemma {:induction false} ScanStopsAtNul(text: seq<Byte>, st: State, counts: Counts, nul: nat)
    requires nul < |text| && text[nul] == 0
    ensures Scan(text, st, counts).length <= nul
    decreases |text|
  {
    if text[0] != 0 && st != Invalid && text[0] != COMMA {
      ScanStopsAtNul(text[1..], Next(st, text[0]), Counted(counts, st, text[0]), nul - 1);
    }
  }

  // ---------------------------------------------------------------------------
  // What the transition counters count
  // ---------------------------------------------------------------------------

  /** How often the machine leaves this state while it reads the text. */
  function Leavings(t: seq<Byte>, st: State): nat
    decreases |t|
  {
    if t == [] then 0 else
      Leavings(t[..|t| - 1], st) + (if Run(t[..|t| - 1]) == st && Run(t) != st then 1 else 0)
  }

  /** The text makes the machine give up with its first character, or in the digits of an exponent. */
  function GaveUp(t: seq<Byte>): nat
    decreases |t|
  {
    if t == [] then 0 else
      var before := Run(t[..|t| - 1]);
      GaveUp(t[..|t| - 1]) + (if (before == Start || before == Scientific) && Run(t) == Invalid then 1 else 0)
  }

  /**
    Each counter counts how often its state is left, except that leaving `Scientific` is counted
    as `Invalid`, and so is an input that is invalid from its first character.
   */
  function Counter(t: seq<Byte>, st: State): nat {
    match st
    case Scientific => 0
    case Invalid => GaveUp(t)
    case _ => Leavings(t, st)
  }

  /** These counters have grown by what the text adds to them, modulo 2^32. */
  predicate CountsText(before: Counts, after: Counts, t: seq<Byte>) {
    forall st: State :: after[Index(st)] == (before[Index(st)] + Counter(t, st)) % TWO_TO_THE_32
  }

  /** What one more character in state `from` adds to the counter of `st`. */
  function Added(from: State, x: Byte, st: State): nat {
    match st
    case Scientific => 0
    case Invalid => if (from == Start || from == Scientific) && Next(from, x) == Invalid then 1 else 0
    case _ => if from == st && Next(from, x) != st then 1 else 0
  }

  lemma BumpAt(c: Counts, st: State, s: State)
    ensures Bump(c, st)[Index(s)] == if s == st then (c[Index(s)] + 1) % TWO_TO_THE_32 else c[Index(s)]
  {
  }

  lemma CountedIs(c: Counts, from: State, x: Byte, s: State)
    requires c[Index(s)] < TWO_TO_THE_32
    ensures Counted(c, from, x)[Index(s)] == (c[Index(s)] + Added(from, x, s)) % TWO_TO_THE_32
  {
    BumpAt(c, Invalid, s);
    BumpAt(c, from, s);
    BumpAt(Bump(c, Invalid), Start, s);
    var n := Next(from, x);
    assert from == S1 || from == S2 || from == Exponent || from == Start ==> n != from;
    hide Bump, Next, Index;
    assert c[Index(s)] % TWO_TO_THE_32 == c[Index(s)];
  }

  lemma CounterNext(t: seq<Byte>, x: Byte, st: State)
    ensures Counter(t + [x], st) == Counter(t, st) + Added(Run(t), x, st)
  {
    assert (t + [x])[..|t|] == t;
    hide Next;
  }

  lemma MoreMod(a: nat, b: nat)
    ensures (a % TWO_TO_THE_32 + b) % TWO_TO_THE_32 == (a + b) % TWO_TO_THE_32
  {
    var q := a / TWO_TO_THE_32;
    assert a + b == q * TWO_TO_THE_32 + (a % TWO_TO_THE_32 + b);
  }

  lemma CountsNext(c0: Counts, c: Counts, t: seq<Byte>, x: Byte)
    requires CountsText(c0, c, t)
    ensures CountsText(c0, Counted(c, Run(t), x), t + [x])
  {
    hide Counted, Counter, Added, Run;
    forall st: State
      ensures Counted(c, Run(t), x)[Index(st)] == (c0[Index(st)] + Counter(t + [x], st)) % TWO_TO_THE_32
    {
      CountedIs(c, Run(t), x, st);
      CounterNext(t, x, st);
      MoreMod(c0[Index(st)] + Counter(t, st), Added(Run(t), x, st));
    }
  }

  /** The text that a scan has read, without a comma. */
  function ReadOf(text: seq<Byte>, st: State): (t: seq<Byte>)
    decreases |text|
  {
    if text == [] || text[0] == 0 || st == Invalid || text[0] == COMMA then [] else
      [text[0]] + ReadOf(text[1..], Next(st, text[0]))
  }

  lemma {:induction false} ScanCountsFrom(text: seq<Byte>, t: seq<Byte>, c0: Counts, c: Counts)
    requires CountsText(c0, c, t)
    ensures var r := Scan(text, Run(t), c);
      CountsText(c0, r.counts, t + ReadOf(text, Run(t))) && r.st == Run(t + ReadOf(text, Run(t)))
    decreases |text|
  {
    hide CountsText, Counted, Next;
    if text == [] || text[0] == 0 || Run(t) == Invalid || text[0] == COMMA {
      assert t + [] == t;
    } else {
      var x := text[0];
      assert (t + [x])[..|t|] == t;
      CountsNext(c0, c, t, x);
      ScanCountsFrom(text[1..], t + [x], c0, Counted(c, Run(t), x));
      assert t + [x] + ReadOf(text[1..], Next(Run(t), x)) == t + ReadOf(text, Run(t));
    }
  }

  /** What one scan adds to the counters. */
  lemma {:induction false} ScanCounts(text: seq<Byte>, counts: Counts)
    requires forall st: State :: counts[Index(st)] < TWO_TO_THE_32
    ensures var r, t := Scan(text, Start, counts), ReadOf(text, Start);
      CountsText(counts, r.counts, t) && r.st == Run(t)
  {
    ScanCountsFrom(text, [], counts, counts);
    assert [] + ReadOf(text, Start) == ReadOf(text, Start);
  }

  /** The order in which the counters go into the CRC. */
  lemma IndexIs(st: State)
    ensures [Start, Invalid, S1, S2, Int, Float, Exponent, Scientific][Index(st)] == st
  {
  }

  /** Both sets of counters after a whole text has been scanned. */
  function ScanAll(text: seq<Byte>, final: Counts, track: Counts): (Counts, Counts)
    decreases |text|
  {
    if text == [] || text[0] == 0 then (final, track) else
      ScanMoves(text, track);
      var r := Scan(text, Start, track);
      ScanAll(text[r.length..], Bump(final, r.st), r.counts)
  }
}
