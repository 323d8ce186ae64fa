/**
  The six-bit shift register that picks the page frames
  (`LFSR_NEXT` in `isa-tests/env/v/riscv_test.h`, line 44).
 */
module Lfsr {

  const PERIOD: nat := 63

  /** `(((x ^ (x >> 1)) & 1) << 5) | (x >> 1)` */
  function Next(x: nat): nat {
    (if x % 2 != (x / 2) % 2 then 32 else 0) + x / 2
  }

  /** The register after `n` steps. */
  function Steps(x: nat, n: nat): nat
    decreases n, x
  {
    if n == 0 then x else Next(Steps(x, n - 1))
  }

  /** The register shifts down by one bit, and the two lowest bits' sum goes in at the top. */
  predicate Clocked(x: nat, y: nat) {
    && y < 64 && y % 2 == x / 2 % 2 && y / 2 % 2 == x / 4 % 2 && y / 4 % 2 == x / 8 % 2 && y / 8 % 2 == x / 16 % 2
    && y / 16 % 2 == x / 32 % 2 && y / 32 % 2 == (x % 2 + x / 2 % 2) % 2
  }

  /** Successive states of the register. */
  predicate Register(xs: seq<nat>, start: nat) {
    xs != [] && xs[0] == start && forall k :: 0 <= k < |xs| - 1 ==> Clocked(xs[k], xs[k + 1])
  }

  lemma NextClocks(x: nat)
    requires x < 64
    ensures Clocked(x, Next(x))
  {
    var t := if x % 2 != x / 2 % 2 then 1 else 0;
    var y := Next(x);
    assert y == 2 * (16 * t) + x / 2;
    hide Next;
    Halves(x);
    Halves(y);
    HalfSum(16 * t, x / 2);
    assert y / 2 == 2 * (8 * t) + x / 4;
    HalfSum(8 * t, x / 4);
    assert y / 4 == 2 * (4 * t) + x / 8;
    HalfSum(4 * t, x / 8);
    assert y / 8 == 2 * (2 * t) + x / 16;
    HalfSum(2 * t, x / 16);
    assert y / 16 == 2 * t + x / 32;
    HalfSum(t, x / 32);
    assert y / 32 == t;
  }

  lemma HalfSum(t: nat, q: nat)
    ensures (2 * t + q) / 2 == t + q / 2 && (2 * t + q) % 2 == q % 2
  {
  }

  /** Halving again and again. */
  lemma Halves(x: nat)
    ensures x / 4 == x / 2 / 2 && x / 8 == x / 4 / 2 && x / 16 == x / 8 / 2 && x / 32 == x / 16 / 2
  {
  }

  /** The first `n` states. */
  function States(start: nat, n: nat): (xs: seq<nat>)
    ensures |xs| == n && forall k :: 0 <= k < n ==> xs[k] == Steps(start, k)
  {
    seq(n, k requires 0 <= k < n => Steps(start, k))
  }

  lemma {:induction false} StepsSmall(start: nat, n: nat)
    requires start < 64
    ensures Steps(start, n) < 64
    decreases n
  {
    if n > 0 {
      StepsSmall(start, n - 1);
      NextClocks(Steps(start, n - 1));
      hide Next;
    }
  }

  lemma StatesRegister(start: nat, n: nat)
    requires start < 64 && n > 0
    ensures Register(States(start, n), start)
  {
    hide Next, Clocked;
    var xs := States(start, n);
    forall k | 0 <= k < n - 1
      ensures Clocked(xs[k], xs[k + 1])
    {
      StepsSmall(start, k);
      NextClocks(Steps(start, k));
      assert Steps(start, k + 1) == Next(Steps(start, k));
    }
  }

  /** How many steps lead from 1 to `x`. */
  function Log(x: nat): nat {
    if x < 32 then
      if x < 16 then
        if x < 8 then
          if x < 4 then
            if x < 2 then (if x < 1 then 0 else 0) else (if x < 3 then 5 else 62)
          else
            if x < 6 then (if x < 5 then 4 else 24) else (if x < 7 then 10 else 61)
        else
          if x < 12 then
            if x < 10 then (if x < 9 then 3 else 32) else (if x < 11 then 15 else 23)
          else
            if x < 14 then (if x < 13 then 9 else 45) else (if x < 15 then 29 else 60)
      else
        if x < 24 then
          if x < 20 then
            if x < 18 then (if x < 17 then 2 else 12) else (if x < 19 then 34 else 31)
          else
            if x < 22 then (if x < 21 then 14 else 52) else (if x < 23 then 50 else 22)
        else
          if x < 28 then
            if x < 26 then (if x < 25 then 8 else 48) else (if x < 27 then 37 else 44)
          else
            if x < 30 then (if x < 29 then 28 else 41) else (if x < 31 then 20 else 59)
    else
      if x < 48 then
        if x < 40 then
          if x < 36 then
            if x < 34 then (if x < 33 then 1 else 6) else (if x < 35 then 25 else 11)
          else
            if x < 38 then (if x < 37 then 33 else 16) else (if x < 39 then 46 else 30)
        else
          if x < 44 then
            if x < 42 then (if x < 41 then 13 else 35) else (if x < 43 then 53 else 51)
          else
            if x < 46 then (if x < 45 then 49 else 38) else (if x < 47 then 42 else 21)
      else
        if x < 56 then
          if x < 52 then
            if x < 50 then (if x < 49 then 7 else 26) else (if x < 51 then 17 else 47)
          else
            if x < 54 then (if x < 53 then 36 else 54) else (if x < 55 then 39 else 43)
        else
          if x < 60 then
            if x < 58 then (if x < 57 then 27 else 18) else (if x < 59 then 55 else 40)
          else
            if x < 62 then (if x < 61 then 19 else 56) else (if x < 63 then 57 else 58)
  }

  /** The state after `k` steps from 1. */
  function Exp(k: nat): nat {
    if k < 32 then
      if k < 16 then
        if k < 8 then
          if k < 4 then
            if k < 2 then (if k < 1 then 1 else 32) else (if k < 3 then 16 else 8)
          else
            if k < 6 then (if k < 5 then 4 else 2) else (if k < 7 then 33 else 48)
        else
          if k < 12 then
            if k < 10 then (if k < 9 then 24 else 12) else (if k < 11 then 6 else 35)
          else
            if k < 14 then (if k < 13 then 17 else 40) else (if k < 15 then 20 else 10)
      else
        if k < 24 then
          if k < 20 then
            if k < 18 then (if k < 17 then 37 else 50) else (if k < 19 then 57 else 60)
          else
            if k < 22 then (if k < 21 then 30 else 47) else (if k < 23 then 23 else 11)
        else
          if k < 28 then
            if k < 26 then (if k < 25 then 5 else 34) else (if k < 27 then 49 else 56)
          else
            if k < 30 then (if k < 29 then 28 else 14) else (if k < 31 then 39 else 19)
    else
      if k < 48 then
        if k < 40 then
          if k < 36 then
            if k < 34 then (if k < 33 then 9 else 36) else (if k < 35 then 18 else 41)
          else
            if k < 38 then (if k < 37 then 52 else 26) else (if k < 39 then 45 else 54)
        else
          if k < 44 then
            if k < 42 then (if k < 41 then 59 else 29) else (if k < 43 then 46 else 55)
          else
            if k < 46 then (if k < 45 then 27 else 13) else (if k < 47 then 38 else 51)
      else
        if k < 56 then
          if k < 52 then
            if k < 50 then (if k < 49 then 25 else 44) else (if k < 51 then 22 else 43)
          else
            if k < 54 then (if k < 53 then 21 else 42) else (if k < 55 then 53 else 58)
        else
          if k < 60 then
            if k < 58 then (if k < 57 then 61 else 62) else (if k < 59 then 63 else 31)
          else
            if k < 62 then (if k < 61 then 15 else 7) else (if k < 63 then 3 else 1)
  }

  predicate EntryRight(x: nat) {
    1 <= Next(x) <= 63 && Log(Next(x)) == (Log(x) + 1) % 63 && Log(x) < 63 && Exp(Log(x)) == x
  }

  /** The table is right for the `n` states above `m`. */
  predicate TableRight(m: nat, n: nat)
    decreases n, m
  {
    n == 0 || (EntryRight(m + n) && TableRight(m, n - 1))
  }

  lemma {:induction false} TableRightAt(m: nat, n: nat, x: nat)
    requires TableRight(m, n) && m < x <= m + n
    ensures EntryRight(x)
    decreases n
  {
    hide EntryRight;
    if x < m + n {
      TableRightAt(m, n - 1, x);
    }
  }

  lemma TableRow0()
    ensures TableRight(0, 9)
  {
  }

  lemma TableRow1()
    ensures TableRight(9, 9)
  {
  }

  lemma TableRow2()
    ensures TableRight(18, 9)
  {
  }

  lemma TableRow3()
    ensures TableRight(27, 9)
  {
  }

  lemma TableRow4()
    ensures TableRight(36, 9)
  {
  }

  lemma TableRow5()
    ensures TableRight(45, 9)
  {
  }

  lemma TableRow6()
    ensures TableRight(54, 9)
  {
  }

  lemma TableEntry(x: nat)
    requires 1 <= x <= 63
    ensures EntryRight(x)
  {
    hide *;
    TableRow0();
    TableRow1();
    TableRow2();
    TableRow3();
    TableRow4();
    TableRow5();
    TableRow6();
    TableRightAt((x - 1) / 9 * 9, 9, x);
  }

  lemma {:induction false} LogOfSteps(x: nat, n: nat)
    requires 1 <= x <= 63
    ensures 1 <= Steps(x, n) <= 63 && Log(Steps(x, n)) == (Log(x) + n) % 63
    decreases n
  {
    hide Log, Exp, Next;
    TableEntry(x);
    if n > 0 {
      LogOfSteps(x, n - 1);
      TableEntry(Steps(x, n - 1));
      OneMore(Log(x), n);
    } else {
      assert (Log(x) + 0) % 63 == Log(x);
    }
  }

  lemma OneMore(a: nat, n: nat)
    requires n > 0
    ensures ((a + (n - 1)) % 63 + 1) % 63 == (a + n) % 63
  {
  }

  /** From any nonzero start the register visits 63 different states: the period is MAX_TEST_PAGES. */
  lemma AllDifferent(x: nat, i: nat, j: nat)
    requires 1 <= x <= 63 && i < j < PERIOD
    ensures 1 <= Steps(x, i) <= 63 && Steps(x, i) != Steps(x, j)
  {
    hide Log, Exp, Next, Steps;
    LogOfSteps(x, i);
    LogOfSteps(x, j);
    assert (Log(x) + i) % 63 != (Log(x) + j) % 63;
  }

  /** And it comes back to where it started. */
  lemma ComesBack(x: nat)
    requires 1 <= x <= 63
    ensures Steps(x, PERIOD) == x
  {
    hide Log, Exp, Next, Steps;
    LogOfSteps(x, PERIOD);
    TableEntry(x);
    TableEntry(Steps(x, PERIOD));
  }
}
