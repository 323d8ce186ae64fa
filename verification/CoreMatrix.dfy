/**
  The CoreMark matrix benchmark (`sw/coremark/core_matrix.c`): `MATDAT` is 16 bits wide, `MATRES`
  32 bits, and matrices are arrays of `n * n` entries, row by row.
 */
module CoreMatrix {
  import opened Machine
  import Bits
  import Crc
  import RegisterAlgebra

  /** `MATDAT` */
  type Dat = x: int | -0x8000 <= x < 0x8000

  /** Where entry (i, j) is. */
  function Index(n: nat, i: nat, j: nat): nat {
    i * n + j
  }

  lemma IndexBound(n: nat, i: nat, j: nat)
    requires i < n && j < n
    ensures Index(n, i, j) < n * n && Index(n, i, 0) + n == Index(n, i + 1, 0) <= n * n
  {
    var below := n - (i + 1);
    assert 0 <= below * n;
    assert n * n == i * n + n + below * n;
  }

  /** Different entries are in different places. */
  lemma IndexDiffers(n: nat, i: nat, j: nat, r: nat, c: nat)
    requires j < n && c < n && Index(n, i, j) == Index(n, r, c)
    ensures i == r && j == c
  {
    var d := i - r;
    assert d * n == c - j;
    assert d >= 1 ==> d * n >= n;
    assert d <= -1 ==> d * n + n <= 0;
  }

  // ---------------------------------------------------------------------------
  // What each operation computes
  // ---------------------------------------------------------------------------

  /** The first `k` products of row `i` and column `j`. */
  function Dot(a: seq<Dat>, b: seq<Dat>, n: nat, i: nat, j: nat, k: nat): int
    requires |a| == |b| == n * n && i < n && j < n && k <= n
  {
    if k == 0 then 0 else
      IndexBound(n, i, k - 1);
      IndexBound(n, k - 1, j);
      Dot(a, b, n, i, j, k - 1) + Times(a[Index(n, i, k - 1)], b[Index(n, k - 1, j)])
  }

  /** The first `k` products of row `i` and the vector. */
  function VectDot(a: seq<Dat>, b: seq<Dat>, n: nat, i: nat, k: nat): int
    requires |a| == n * n && |b| >= n && i < n && k <= n
  {
    if k == 0 then 0 else
      IndexBound(n, i, k - 1);
      VectDot(a, b, n, i, k - 1) + Times(a[Index(n, i, k - 1)], b[k - 1])
  }

  /** `bit_extract(x,2,4)*bit_extract(x,5,7)` */
  function Extract(x: int): (r: int)
    ensures 0 <= r <= 15 * 127
  {
    ExtractBound(x / 4 % 16, x / 32 % 128);
    Times(x / 4 % 16, x / 32 % 128)
  }

  /** The product of the four bits from bit 2 on and the seven bits from bit 5 on, for negative values too. */
  lemma ExtractIs(x: int, above: int, low: int, below: int, top: int, high: int, rest: int)
    requires x == 64 * above + 4 * low + below && 0 <= low < 16 && 0 <= below < 4
    requires x == 4096 * top + 32 * high + rest && 0 <= high < 128 && 0 <= rest < 32
    ensures Extract(x) == low * high
  {
    LowField(x, above, low, below);
    HighField(x, top, high, rest);
  }

  lemma LowField(x: int, above: int, low: int, below: int)
    requires x == 64 * above + 4 * low + below && 0 <= low < 16 && 0 <= below < 4
    ensures x / 4 % 16 == low
  {
    assert x / 4 == 16 * above + low;
  }

  lemma HighField(x: int, top: int, high: int, rest: int)
    requires x == 4096 * top + 32 * high + rest && 0 <= high < 128 && 0 <= rest < 32
    ensures x / 32 % 128 == high
  {
    assert x / 32 == 128 * top + high;
  }

  lemma ExtractBound(a: int, b: int)
    requires 0 <= a <= 15 && 0 <= b <= 127
    ensures 0 <= Times(a, b) <= 15 * 127
  {
    assert 0 <= a * b <= 15 * b;
  }

  function ExtractDot(a: seq<Dat>, b: seq<Dat>, n: nat, i: nat, j: nat, k: nat): int
    requires |a| == |b| == n * n && i < n && j < n && k <= n
  {
    if k == 0 then 0 else
      IndexBound(n, i, k - 1);
      IndexBound(n, k - 1, j);
      ExtractDot(a, b, n, i, j, k - 1) + Extract(Times(a[Index(n, i, k - 1)], b[Index(n, k - 1, j)]))
  }

  function Times(x: int, y: int): int {
    x * y
  }

  lemma TimesBound(x: int, y: int, m: int, n: int)
    requires -m <= x <= m && -n <= y <= n
    ensures -(m * n) <= Times(x, y) <= m * n
  {
    assert (m - x) * (n - y) >= 0 && (m + x) * (n + y) >= 0;
    assert (m - x) * (n + y) >= 0 && (m + x) * (n - y) >= 0;
  }

  /** A product of two 16-bit values fits in 32 bits. */
  lemma TimesFits(x: Dat, y: Dat)
    ensures S32(Times(x, y)) == Times(x, y) && -0x4000_0000 <= Times(x, y) <= 0x4000_0000
  {
    hide Times;
    TimesBound(x, y, 0x8000, 0x8000);
  }

  lemma S32Early(x: int, y: int)
    ensures S32(S32(x) + y) == S32(x + y)
  {
  }

  // ---------------------------------------------------------------------------
  // The operations
  // ---------------------------------------------------------------------------

  function AddedConst(a: seq<Dat>, val: int): (r: seq<Dat>)
    ensures |r| == |a|
  {
    seq(|a|, k requires 0 <= k < |a| => S16(a[k] + val))
  }

  /** The steps of the two loops over a matrix. */
  lemma IndexSteps(n: nat, i: nat, j: nat)
    requires i < n && j < n
    ensures Index(n, 0, 0) == 0 && Index(n, i, j) == i * n + j < n * n
    ensures Index(n, i, j + 1) == Index(n, i, j) + 1 && Index(n, i, n) == Index(n, i + 1, 0)
  {
    IndexBound(n, i, j);
  }

  lemma IndexEnds(n: nat)
    ensures Index(n, 0, 0) == 0 && Index(n, n, 0) == n * n
  {
  }

  predicate AddedUpTo(s: seq<Dat>, a0: seq<Dat>, val: int, k: nat) {
    k <= |a0| && s == AddedConst(a0[..k], val) + a0[k..]
  }

  method MatrixAddConst(n: nat, a: array<Dat>, val: Dat)
    requires a.Length == n * n
    modifies a
    ensures a[..] == AddedConst(old(a[..]), val)
  {
    hide S16, Index, AddedUpTo, AddedConst;
    ghost var a0 := a[..];
    IndexEnds(n);
    AddedEnds(a0, val);
    var i := 0;
    while i < n
      invariant 0 <= i <= n && AddedUpTo(a[..], a0, val, Index(n, i, 0))
    {
      var j := 0;
      while j < n
        invariant 0 <= j <= n && AddedUpTo(a[..], a0, val, Index(n, i, j))
      {
        IndexSteps(n, i, j);
        AddOne(a, a0, val, i * n + j);
        j := j + 1;
      }
      IndexSteps(n, i, 0);
      i := i + 1;
    }
  }

  lemma AddedEnds(a0: seq<Dat>, val: int)
    ensures AddedUpTo(a0, a0, val, 0)
    ensures forall s :: AddedUpTo(s, a0, val, |a0|) <==> s == AddedConst(a0, val)
  {
    assert a0[..|a0|] == a0;
  }

  /** `A[k] += val` */
  method AddOne(a: array<Dat>, ghost a0: seq<Dat>, val: Dat, k: nat)
    requires k < a.Length == |a0| && AddedUpTo(a[..], a0, val, k)
    modifies a
    ensures AddedUpTo(a[..], a0, val, k + 1)
  {
    hide S16;
    assert a[k] == a0[k];
    var x: int := a[k];
    a[k] := S16(x + val);
  }

  /** Adding and then subtracting a constant changes nothing, even when the sums wrap, and for -32768. */
  lemma AddConstUndone(a: seq<Dat>, val: Dat)
    ensures AddedConst(AddedConst(a, val), S16(0 - val)) == a
  {
    var r := AddedConst(AddedConst(a, val), S16(0 - val));
    forall k | 0 <= k < |a|
      ensures r[k] == a[k]
    {
      Undone(a[k], val);
    }
  }

  lemma Undone(x: Dat, v: int)
    ensures S16(S16(x + v) + S16(0 - v)) == x
  {
  }

  /** What an entry of the result is: a sum of products, or of extracted bits of products, in 32 bits. */
  datatype Kind = Plain | BitExtract

  function Entry(kind: Kind, a: seq<Dat>, b: seq<Dat>, n: nat, i: nat, j: nat): int
    requires |a| == |b| == n * n && i < n && j < n
  {
    S32(if kind == Plain then Dot(a, b, n, i, j, n) else ExtractDot(a, b, n, i, j, n))
  }

  predicate EntryRight(kind: Kind, c: seq<int>, a: seq<Dat>, b: seq<Dat>, n: nat, i: nat, j: nat)
    requires |a| == |b| == |c| == n * n && i < n && j < n
  {
    IndexBound(n, i, j);
    c[Index(n, i, j)] == Entry(kind, a, b, n, i, j)
  }

  /** Rows before `i`, and the first `j` entries of row `i`, are computed. */
  predicate ProductsUpTo(kind: Kind, c: seq<int>, a: seq<Dat>, b: seq<Dat>, n: nat, i: nat, j: nat) {
    && |a| == |b| == |c| == n * n
    && (forall r, s :: 0 <= r < n && 0 <= s < n && (r < i || (r == i && s < j)) ==> EntryRight(kind, c, a, b, n, r, s))
  }

  /** The result is the matrix product of this kind. */
  predicate Product(kind: Kind, c: seq<int>, a: seq<Dat>, b: seq<Dat>, n: nat) {
    && |a| == |b| == |c| == n * n
    && (forall r, s :: 0 <= r < n && 0 <= s < n ==> EntryRight(kind, c, a, b, n, r, s))
  }

  /** Row and column of a place. */
  lemma PlaceOf(n: nat, k: nat)
    requires k < n * n
    ensures 0 <= k / n < n && 0 <= k % n < n && Index(n, k / n, k % n) == k
  {
    Recompose(k, n);
    var q := k / n;
    assert q >= n ==> (q - n) * n >= 0;
  }

  function EntryAt(kind: Kind, a: seq<Dat>, b: seq<Dat>, n: nat, k: nat): int
    requires |a| == |b| == n * n && k < n * n
  {
    PlaceOf(n, k);
    Entry(kind, a, b, n, k / n, k % n)
  }

  /** The product as one sequence. */
  function ProductMatrix(kind: Kind, a: seq<Dat>, b: seq<Dat>, n: nat): (c: seq<int>)
    requires |a| == |b| == n * n
    ensures |c| == n * n
  {
    seq(n * n, k requires 0 <= k < n * n => EntryAt(kind, a, b, n, k))
  }

  lemma ProductIs(kind: Kind, c: seq<int>, a: seq<Dat>, b: seq<Dat>, n: nat)
    requires Product(kind, c, a, b, n)
    ensures c == ProductMatrix(kind, a, b, n)
  {
    hide Entry, Index;
    forall k | 0 <= k < n * n
      ensures c[k] == ProductMatrix(kind, a, b, n)[k]
    {
      PlaceOf(n, k);
      assert EntryRight(kind, c, a, b, n, k / n, k % n);
    }
  }

  lemma OneMoreEntry(kind: Kind, c: seq<int>, a: seq<Dat>, b: seq<Dat>, n: nat, i: nat, j: nat, x: int)
    requires ProductsUpTo(kind, c, a, b, n, i, j) && i < n && j < n && x == Entry(kind, a, b, n, i, j)
    ensures Index(n, i, j) < n * n && ProductsUpTo(kind, c[Index(n, i, j) := x], a, b, n, i, j + 1)
  {
    hide Entry, Index;
    IndexBound(n, i, j);
    var d := c[Index(n, i, j) := x];
    forall r, s | 0 <= r < n && 0 <= s < n && (r < i || (r == i && s < j + 1))
      ensures EntryRight(kind, d, a, b, n, r, s)
    {
      IndexBound(n, r, s);
      if r == i && s == j {
      } else {
        assert EntryRight(kind, c, a, b, n, r, s);
        if Index(n, r, s) == Index(n, i, j) {
          IndexDiffers(n, r, s, i, j);
        }
      }
    }
  }

  lemma ProductEnds(kind: Kind, c: seq<int>, a: seq<Dat>, b: seq<Dat>, n: nat)
    requires |a| == |b| == |c| == n * n
    ensures ProductsUpTo(kind, c, a, b, n, 0, 0)
    ensures ProductsUpTo(kind, c, a, b, n, n, 0) ==> Product(kind, c, a, b, n)
    ensures forall i :: 0 <= i < n && ProductsUpTo(kind, c, a, b, n, i, n) ==> ProductsUpTo(kind, c, a, b, n, i + 1, 0)
  {
    hide EntryRight;
  }

  /** The innermost loop of the two products. */
  method Cell(kind: Kind, n: nat, c: array<int>, a: array<Dat>, b: array<Dat>, i: nat, j: nat)
    requires a.Length == b.Length == c.Length == n * n && i < n && j < n
    modifies c
    ensures Index(n, i, j) < n * n && c[..] == old(c[..])[Index(n, i, j) := Entry(kind, a[..], b[..], n, i, j)]
  {
    hide S32, Times, Extract, Index;
    IndexBound(n, i, j);
    var at := Index(n, i, j);
    ghost var c0 := c[..];
    c[at] := 0;
    ZeroFits();
    var k := 0;
    while k < n
      invariant 0 <= k <= n
      invariant c[..] ==
        c0[at := S32(if kind == Plain then Dot(a[..], b[..], n, i, j, k) else ExtractDot(a[..], b[..], n, i, j, k))]
    {
      IndexBound(n, i, k);
      IndexBound(n, k, j);
      var x: Dat, y: Dat := a[Index(n, i, k)], b[Index(n, k, j)];
      TimesFits(x, y);
      var tmp := S32(Times(x, y));
      S32Early(Dot(a[..], b[..], n, i, j, k), tmp);
      S32Early(ExtractDot(a[..], b[..], n, i, j, k), Extract(tmp));
      c[at] := S32(c[at] + (if kind == Plain then tmp else Extract(tmp)));
      k := k + 1;
    }
  }

  lemma ZeroFits()
    ensures S32(0) == 0
  {
  }

  method MatrixMulMatrix(n: nat, c: array<int>, a: array<Dat>, b: array<Dat>)
    requires a.Length == b.Length == c.Length == n * n
    modifies c
    ensures Product(Plain, c[..], a[..], b[..], n) && c[..] == ProductMatrix(Plain, a[..], b[..], n)
  {
    hide Product, ProductMatrix;
    Multiply(Plain, n, c, a, b);
    ProductIs(Plain, c[..], a[..], b[..], n);
  }

  method MatrixMulMatrixBitextract(n: nat, c: array<int>, a: array<Dat>, b: array<Dat>)
    requires a.Length == b.Length == c.Length == n * n
    modifies c
    ensures Product(BitExtract, c[..], a[..], b[..], n) && c[..] == ProductMatrix(BitExtract, a[..], b[..], n)
  {
    hide Product, ProductMatrix;
    Multiply(BitExtract, n, c, a, b);
    ProductIs(BitExtract, c[..], a[..], b[..], n);
  }

  /** The two outer loops, which both products have. */
  method Multiply(kind: Kind, n: nat, c: array<int>, a: array<Dat>, b: array<Dat>)
    requires a.Length == b.Length == c.Length == n * n
    modifies c
    ensures Product(kind, c[..], a[..], b[..], n)
  {
    hide ProductsUpTo, Product, Entry, Index;
    ProductEnds(kind, c[..], a[..], b[..], n);
    var i := 0;
    while i < n
      invariant 0 <= i <= n && ProductsUpTo(kind, c[..], a[..], b[..], n, i, 0)
    {
      var j := 0;
      while j < n
        invariant 0 <= j <= n && ProductsUpTo(kind, c[..], a[..], b[..], n, i, j)
      {
        OneMoreEntry(kind, c[..], a[..], b[..], n, i, j, Entry(kind, a[..], b[..], n, i, j));
        Cell(kind, n, c, a, b, i, j);
        j := j + 1;
      }
      ProductEnds(kind, c[..], a[..], b[..], n);
      i := i + 1;
    }
    ProductEnds(kind, c[..], a[..], b[..], n);
  }

  predicate ConstUpTo(c: seq<int>, a: seq<Dat>, val: int, k: nat) {
    k <= |a| == |c| && forall m :: 0 <= m < k ==> c[m] == Times(a[m], val)
  }

  /** The matrix with every entry multiplied by a constant. */
  function ConstMatrix(a: seq<Dat>, val: int): (c: seq<int>)
    ensures |c| == |a|
  {
    seq(|a|, m requires 0 <= m < |a| => Times(a[m], val))
  }

  /** No product needs more than 32 bits. */
  method MatrixMulConst(n: nat, c: array<int>, a: array<Dat>, val: Dat)
    requires a.Length == c.Length == n * n
    modifies c
    ensures c[..] == ConstMatrix(a[..], val)
  {
    hide S32, Times, Index;
    IndexEnds(n);
    var i := 0;
    while i < n
      invariant 0 <= i <= n && ConstUpTo(c[..], a[..], val, Index(n, i, 0))
    {
      var j := 0;
      while j < n
        invariant 0 <= j <= n && ConstUpTo(c[..], a[..], val, Index(n, i, j))
      {
        IndexSteps(n, i, j);
        TimesFits(a[i * n + j], val);
        c[i * n + j] := S32(Times(a[i * n + j], val));
        j := j + 1;
      }
      IndexSteps(n, i, 0);
      i := i + 1;
    }
  }

  lemma Square(n: nat)
    ensures n <= n * n
  {
    if n > 0 {
      assert n * n == n + n * (n - 1);
    }
  }

  /**
    The first `k` entries of `c` are the products of the rows with the first `n` entries of `b`;
    the others are those of `c0`.
   */
  predicate VectUpTo(c: seq<int>, c0: seq<int>, a: seq<Dat>, b: seq<Dat>, n: nat, k: nat) {
    && |a| == |b| == |c| == |c0| == n * n && k <= n <= n * n
    && (forall i :: 0 <= i < k ==> c[i] == S32(VectDot(a, b, n, i, n)))
    && (forall i :: k <= i < n * n ==> c[i] == c0[i])
  }

  function VectEntry(c0: seq<int>, a: seq<Dat>, b: seq<Dat>, n: nat, i: nat): int
    requires |a| == |b| == |c0| == n * n && i < n * n
  {
    Square(n);
    if i < n then S32(VectDot(a, b, n, i, n)) else c0[i]
  }

  /** Only the first `n` entries of the result matrix are overwritten. */
  function VectMatrix(c0: seq<int>, a: seq<Dat>, b: seq<Dat>, n: nat): (c: seq<int>)
    requires |a| == |b| == |c0| == n * n
    ensures |c| == n * n
  {
    seq(n * n, i requires 0 <= i < n * n => VectEntry(c0, a, b, n, i))
  }

  method MatrixMulVect(n: nat, c: array<int>, a: array<Dat>, b: array<Dat>)
    requires a.Length == b.Length == c.Length == n * n
    modifies c
    ensures c[..] == VectMatrix(old(c[..]), a[..], b[..], n)
  {
    hide S32, VectDot;
    Square(n);
    ghost var c0 := c[..];
    var i := 0;
    while i < n
      invariant 0 <= i <= n && VectUpTo(c[..], c0, a[..], b[..], n, i)
    {
      VectCell(n, c, a, b, i);
      i := i + 1;
    }
  }

  method VectCell(n: nat, c: array<int>, a: array<Dat>, b: array<Dat>, i: nat)
    requires a.Length == b.Length == c.Length == n * n && i < n <= n * n
    modifies c
    ensures c[..] == old(c[..])[i := S32(VectDot(a[..], b[..], n, i, n))]
  {
    hide S32, Times, Index;
    ghost var c0 := c[..];
    c[i] := 0;
    ZeroFits();
    var j := 0;
    while j < n
      invariant 0 <= j <= n
      invariant c[..] == c0[i := S32(VectDot(a[..], b[..], n, i, j))]
    {
      IndexBound(n, i, j);
      var x: Dat, y: Dat := a[Index(n, i, j)], b[j];
      TimesFits(x, y);
      S32Early(VectDot(a[..], b[..], n, i, j), Times(x, y));
      c[i] := S32(c[i] + S32(Times(x, y)));
      j := j + 1;
    }
  }

  // ---------------------------------------------------------------------------
  // matrix_sum and matrix_test
  // ---------------------------------------------------------------------------

  datatype Sum = Sum(tmp: int, prev: int, ret: int)

  /** One entry: clip and add 10, or add 1 if it is bigger than the one before. */
  function SumStep(s: Sum, cur: int, clip: int): Sum {
    var tmp := S32(s.tmp + cur);
    if tmp > clip then Sum(0, cur, S16(s.ret + 10)) else Sum(tmp, cur, S16(s.ret + (if cur > s.prev then 1 else 0)))
  }

  function SumOf(c: seq<int>, clip: int): Sum {
    if c == [] then Sum(0, 0, 0) else SumStep(SumOf(c[..|c| - 1], clip), c[|c| - 1], clip)
  }

  lemma SumOneMore(c: seq<int>, clip: int, k: nat)
    requires k < |c|
    ensures SumOf(c[..k + 1], clip) == SumStep(SumOf(c[..k], clip), c[k], clip)
  {
    assert c[..k + 1][..k] == c[..k];
  }

  /** The 32-bit sum of entries. */
  function Total(c: seq<int>): int {
    if c == [] then 0 else S32(Total(c[..|c| - 1]) + c[|c| - 1])
  }

  /** Where the running sum starts that has not gone above `clip` yet. */
  function SinceReset(c: seq<int>, clip: int): (s: nat)
    ensures s <= |c|
    decreases |c|
  {
    if c == [] then 0 else
      var s := SinceReset(c[..|c| - 1], clip);
      if Total(c[s..]) > clip then |c| else s
  }

  /** Ten for each time the sum goes above `clip`, and else one for each entry greater than the one before. */
  function Points(c: seq<int>, clip: int): nat
    decreases |c|
  {
    if c == [] then 0 else
      var k := |c| - 1;
      var before := if k == 0 then 0 else c[k - 1];
      Points(c[..k], clip) + (if SinceReset(c, clip) == |c| then 10 else if c[k] > before then 1 else 0)
  }

  /** What `matrix_sum` computes, said of the whole matrix. */
  lemma {:induction false} SumIsPoints(c: seq<int>, clip: int)
    ensures var s := SumOf(c, clip);
      && s.ret == S16(Points(c, clip))
      && s.tmp == Total(c[SinceReset(c, clip)..])
      && s.prev == if c == [] then 0 else c[|c| - 1]
    decreases |c|
  {
    if c == [] {
      assert c[0..] == c;
    } else {
      var k := |c| - 1;
      hide S16, S32, Total, Points, SinceReset, SumStep;
      var since := SinceReset(c[..k], clip);
      SumIsPoints(c[..k], clip);
      PointsNext(c, clip);
      TotalNext(c, since);
      StepCounts(SumOf(c[..k], clip), c[k], clip, Points(c[..k], clip));
      assert SinceReset(c, clip) == if Total(c[since..]) > clip then |c| else since;
    }
  }

  lemma PointsNext(c: seq<int>, clip: int)
    requires c != []
    ensures var k := |c| - 1;
      var s := SinceReset(c[..k], clip);
      && (Total(c[s..]) > clip ==> SinceReset(c, clip) == |c| && Points(c, clip) == Points(c[..k], clip) + 10)
      && (Total(c[s..]) <= clip ==>
        && SinceReset(c, clip) == s
        && Points(c, clip) == Points(c[..k], clip) + if c[k] > (if k == 0 then 0 else c[k - 1]) then 1 else 0)
  {
  }

  lemma StepCounts(s: Sum, cur: int, clip: int, points: int)
    requires s.ret == S16(points)
    ensures var t := S32(s.tmp + cur);
      SumStep(s, cur, clip) == Sum(if t > clip then 0 else t, cur,
        S16(points + if t > clip then 10 else if cur > s.prev then 1 else 0))
  {
    hide S32;
    S16Twice(points, 10);
    S16Twice(points, if cur > s.prev then 1 else 0);
  }

  lemma TotalNext(c: seq<int>, s: nat)
    requires c != [] && s <= |c| - 1
    ensures Total(c[s..]) == S32(Total(c[..|c| - 1][s..]) + c[|c| - 1]) && Total(c[|c|..]) == 0
  {
    assert c[s..][..|c| - 1 - s] == c[..|c| - 1][s..];
  }

  lemma S16Twice(x: int, y: int)
    ensures S16(S16(x) + y) == S16(x + y) && S16(S16(x)) == S16(x)
  {
  }

  method MatrixSum(n: nat, c: array<int>, clip: int) returns (ret: int)
    requires c.Length == n * n
    ensures ret == SumOf(c[..], clip).ret
  {
    hide Index, SumOf, S16, S32;
    IndexEnds(n);
    var tmp, prev := 0, 0;
    ret := 0;
    ghost var all := c[..];
    assert SumOf(all[..0], clip) == Sum(0, 0, 0) by { NoSum(clip); }
    var i := 0;
    while i < n
      invariant 0 <= i <= n && Index(n, i, 0) <= n * n && Sum(tmp, prev, ret) == SumOf(all[..Index(n, i, 0)], clip)
    {
      var j := 0;
      while j < n
        invariant 0 <= j <= n && Index(n, i, j) <= n * n && Sum(tmp, prev, ret) == SumOf(all[..Index(n, i, j)], clip)
      {
        IndexSteps(n, i, j);
        SumOneMore(all, clip, Index(n, i, j));
        var cur := c[i * n + j];
        tmp := S32(tmp + cur);
        if tmp > clip {
          ret := S16(ret + 10);
          tmp := 0;
        } else {
          ret := S16(ret + (if cur > prev then 1 else 0));
        }
        prev := cur;
        j := j + 1;
      }
      IndexSteps(n, i, 0);
      i := i + 1;
    }
    assert all[..n * n] == all;
  }

  lemma NoSum(clip: int)
    ensures forall c: seq<int> :: |c| == 0 ==> SumOf(c, clip) == Sum(0, 0, 0)
  {
  }

  /** `matrix_big`: the upper four bits are set, so the value is between -4096 and -1. */
  function Big(val: int): int {
    val % 0x1000 - 0x1000
  }

  /** Twelve bits of the value, and the upper four set: so it is negative. */
  lemma BigIs(val: int)
    ensures -0x1000 <= Big(val) < 0 && (Big(val) - val) % 0x1000 == 0
  {
  }

  /** A sum as it goes into the CRC. */
  function SumWord(ret: int): Crc.Word {
    Bits.BitsOf(ret % 0x1_0000, 16)
  }

  /** The 16 bits of the sum, of its two's complement if it is negative. */
  lemma SumWordIs(ret: int)
    requires -0x8000 <= ret < 0x8000
    ensures Bits.NatOf(SumWord(ret)) == if ret >= 0 then ret else ret + 0x1_0000
  {
    Bits.PowerOf16();
    Bits.NatOfBits(ret % 0x1_0000, 16);
  }

  /** The four result matrices, from A with the constant added: the second keeps entries of the first. */
  function FirstResult(n: nat, a1: seq<Dat>, val: int): (c: seq<int>)
    ensures |c| == |a1|
  {
    ConstMatrix(a1, val)
  }

  function SecondResult(n: nat, a1: seq<Dat>, b: seq<Dat>, val: int): seq<int>
    requires |a1| == |b| == n * n
  {
    VectMatrix(FirstResult(n, a1, val), a1, b, n)
  }

  /** What `matrix_test` returns: the sums of the four results, folded in order. */
  function TestCrc(n: nat, a: seq<Dat>, b: seq<Dat>, val: int): Crc.Word
    requires |a| == |b| == n * n
  {
    var a1, clip := AddedConst(a, val), Big(val);
    Crc.Fold([SumWord(SumOf(FirstResult(n, a1, val), clip).ret),
              SumWord(SumOf(SecondResult(n, a1, b, val), clip).ret),
              SumWord(SumOf(ProductMatrix(Plain, a1, b, n), clip).ret),
              SumWord(SumOf(ProductMatrix(BitExtract, a1, b, n), clip).ret)], Crc.Zero())
  }

  /**
    `matrix_test`: all four operations run on A plus the constant, and afterwards A is as it
    was, for every constant.  B is only read.  The CRC is a function of the inputs alone.
   */
  method MatrixTest(n: nat, c: array<int>, a: array<Dat>, b: array<Dat>, val: Dat) returns (crc: Crc.Word)
    requires a.Length == b.Length == c.Length == n * n && a != b
    modifies a, c
    ensures a[..] == old(a[..]) && b[..] == old(b[..])
    ensures c[..] == ProductMatrix(BitExtract, AddedConst(a[..], val), b[..], n)
    ensures crc == TestCrc(n, a[..], b[..], val)
  {
    hide Product, ProductMatrix, ConstMatrix, VectMatrix, AddedConst, SumOf, SumWord, Crc.Fold, Big, S16;
    ghost var a0, b0 := a[..], b[..];
    var clip := Big(val);
    NoWords();
    MatrixAddConst(n, a, val);
    MatrixMulConst(n, c, a, val);
    ghost var w1 := SumWord(SumOf(c[..], clip).ret);
    crc := SumIntoCrc(n, c, clip, Crc.Zero(), []);
    assert [] + [w1] == [w1];
    MatrixMulVect(n, c, a, b);
    ghost var w2 := SumWord(SumOf(c[..], clip).ret);
    crc := SumIntoCrc(n, c, clip, crc, [w1]);
    assert [w1] + [w2] == [w1, w2];
    MatrixMulMatrix(n, c, a, b);
    ghost var w3 := SumWord(SumOf(c[..], clip).ret);
    crc := SumIntoCrc(n, c, clip, crc, [w1, w2]);
    assert [w1, w2] + [w3] == [w1, w2, w3];
    MatrixMulMatrixBitextract(n, c, a, b);
    ghost var w4 := SumWord(SumOf(c[..], clip).ret);
    crc := SumIntoCrc(n, c, clip, crc, [w1, w2, w3]);
    assert [w1, w2, w3] + [w4] == [w1, w2, w3, w4];
    AddConstUndone(a0, val);
    MatrixAddConst(n, a, S16(0 - val));
  }

  lemma NoWords()
    ensures Crc.Fold([], Crc.Zero()) == Crc.Zero()
  {
  }

  /** `crc=crc16(matrix_sum(N,C,clipval),crc)`, behind the words `m`. */
  method SumIntoCrc(n: nat, c: array<int>, clip: int, crc0: Crc.Word, ghost m: seq<Crc.Word>) returns (crc: Crc.Word)
    requires c.Length == n * n && crc0 == Crc.Fold(m, Crc.Zero())
    ensures crc == Crc.Fold(m + [SumWord(SumOf(c[..], clip).ret)], Crc.Zero())
  {
    hide SumOf, SumWord, Crc.Clock16, Crc.Xor;
    var ret := MatrixSum(n, c, clip);
    crc := Crc.Crc16(SumWord(ret), crc0);
    RegisterAlgebra.FoldAppend(Crc.Xor, Crc.Clock16, m, [SumWord(ret)], Crc.Zero());
  }

  // ---------------------------------------------------------------------------
  // core_init_matrix
  // ---------------------------------------------------------------------------

  /** The biggest dimension whose three matrices need less than the block: 8 bytes for each place. */
  method Dimension(blksize: nat) returns (n: nat)
    requires blksize > 0
    ensures 8 * (n * n) < blksize <= 8 * ((n + 1) * (n + 1))
  {
    var i, j := 0, 0;
    while j < blksize
      invariant 0 <= i && j == 8 * (i * i)
      invariant i > 0 ==> 8 * ((i - 1) * (i - 1)) < blksize
      decreases blksize - j
    {
      i := i + 1;
      assert i * i == (i - 1) * (i - 1) + 2 * i - 1;
      j := i * i * 2 * 4;
    }
    n := i - 1;
  }

  /** `x % 65536` in C, for a product that wraps to 32 bits. */
  function CMod(x: int): int {
    if x >= 0 then x % 0x1_0000 else -((-x) % 0x1_0000)
  }

  /** A remainder by 65536 that has the sign of the dividend. */
  lemma CModIs(x: int)
    ensures -0x1_0000 < CMod(x) < 0x1_0000 && (x - CMod(x)) % 0x1_0000 == 0
    ensures (x >= 0 ==> CMod(x) >= 0) && (x <= 0 ==> CMod(x) <= 0)
  {
    if x < 0 {
      var r := (-x) % 0x1_0000;
      assert -x == (-x) / 0x1_0000 * 0x1_0000 + r;
      assert x + r == -((-x) / 0x1_0000) * 0x1_0000;
    }
  }

  /** The seed after `k` entries; zero is replaced by one. */
  function SeedAt(seed: int, k: nat): int {
    if k == 0 then (if seed == 0 then 1 else seed) else CMod(S32(k * SeedAt(seed, k - 1)))
  }

  function InitB(seed: int, k: nat): Dat {
    S16(SeedAt(seed, k + 1) + (k + 1))
  }

  function InitA(seed: int, k: nat): (r: Dat)
    ensures 0 <= r < 0x100
  {
    S16(Plus(InitB(seed, k), k + 1)) % 0x100
  }

  function Plus(x: int, y: int): int {
    x + y
  }

  predicate InitUpTo(a: seq<Dat>, b: seq<Dat>, seed: int, k: nat) {
    k <= |a| == |b| && forall m :: 0 <= m < k ==> a[m] == InitA(seed, m) && b[m] == InitB(seed, m)
  }

  method FillPlace(a: array<Dat>, b: array<Dat>, k: nat, order: int, seed: int, ghost seed0: int)
    requires k < a.Length == b.Length && a != b && order == k + 1 && seed == SeedAt(seed0, k + 1)
    requires InitUpTo(a[..], b[..], seed0, k)
    modifies a, b
    ensures InitUpTo(a[..], b[..], seed0, k + 1)
  {
    hide SeedAt, S16;
    var val: int := S16(seed + order);
    b[k] := val;
    val := S16(val + order);
    a[k] := val % 0x100;
  }

  lemma NextSeed(seed0: int, k: nat)
    ensures SeedAt(seed0, k + 1) == CMod(S32((k + 1) * SeedAt(seed0, k)))
  {
  }

  /** The filling loops: entries of A are bytes, entries of B are any 16-bit values. */
  method FillMatrices(n: nat, a: array<Dat>, b: array<Dat>, seed0: int)
    requires a.Length == b.Length == n * n && a != b
    modifies a, b
    ensures InitUpTo(a[..], b[..], seed0, n * n)
    ensures Small(a[..])
  {
    hide Index, CMod, S16, S32, InitUpTo, SeedAt;
    IndexEnds(n);
    InitStarts(a[..], b[..], seed0);
    var seed, order := if seed0 == 0 then 1 else seed0, 1;
    var i := 0;
    while i < n
      invariant 0 <= i <= n && order == Index(n, i, 0) + 1 && seed == SeedAt(seed0, Index(n, i, 0))
      invariant InitUpTo(a[..], b[..], seed0, Index(n, i, 0))
    {
      var j := 0;
      while j < n
        invariant 0 <= j <= n && order == Index(n, i, j) + 1 && seed == SeedAt(seed0, Index(n, i, j))
        invariant InitUpTo(a[..], b[..], seed0, Index(n, i, j))
      {
        IndexSteps(n, i, j);
        NextSeed(seed0, Index(n, i, j));
        seed := CMod(S32(order * seed));
        FillPlace(a, b, i * n + j, order, seed, seed0);
        order := order + 1;
        j := j + 1;
      }
      IndexSteps(n, i, 0);
      i := i + 1;
    }
    InitIsSmall(a[..], b[..], seed0);
  }

  lemma InitStarts(a: seq<Dat>, b: seq<Dat>, seed: int)
    requires |a| == |b|
    ensures InitUpTo(a, b, seed, 0) && SeedAt(seed, 0) == (if seed == 0 then 1 else seed)
  {
  }

  lemma InitIsSmall(a: seq<Dat>, b: seq<Dat>, seed: int)
    requires InitUpTo(a, b, seed, |a|)
    ensures Small(a)
  {
    hide InitB, S16;
  }

  // ---------------------------------------------------------------------------
  // Exactness
  // ---------------------------------------------------------------------------

  /** All entries are bytes. */
  predicate Small(a: seq<Dat>) {
    forall k :: 0 <= k < |a| ==> 0 <= a[k] < 0x100
  }

  predicate Within(a: seq<Dat>, bound: int) {
    forall k :: 0 <= k < |a| ==> 0 <= a[k] <= bound
  }

  lemma SmallAdded(a: seq<Dat>, val: Dat)
    requires Small(a) && 0 <= val < 0x100
    ensures Within(AddedConst(a, val), 510)
    ensures forall k :: 0 <= k < |a| ==> AddedConst(a, val)[k] == Plus(a[k], val)
  {
  }

  const LARGEST: int := 510 * 0x8000

  lemma {:induction false} DotBound(a: seq<Dat>, b: seq<Dat>, n: nat, i: nat, j: nat, k: nat)
    requires |a| == |b| == n * n && i < n && j < n && k <= n && Within(a, 510)
    ensures -(k * LARGEST) <= Dot(a, b, n, i, j, k) <= k * LARGEST
    decreases k
  {
    hide Times, Index;
    if k > 0 {
      IndexBound(n, i, k - 1);
      IndexBound(n, k - 1, j);
      DotBound(a, b, n, i, j, k - 1);
      TimesBound(a[Index(n, i, k - 1)], b[Index(n, k - 1, j)], 510, 0x8000);
    }
  }

  lemma {:induction false} VectDotBound(a: seq<Dat>, b: seq<Dat>, n: nat, i: nat, k: nat)
    requires |a| == n * n && |b| >= n && i < n && k <= n && Within(a, 510)
    ensures -(k * LARGEST) <= VectDot(a, b, n, i, k) <= k * LARGEST
    decreases k
  {
    hide Times, Index;
    if k > 0 {
      IndexBound(n, i, k - 1);
      VectDotBound(a, b, n, i, k - 1);
      TimesBound(a[Index(n, i, k - 1)], b[k - 1], 510, 0x8000);
    }
  }

  lemma {:induction false} ExtractDotBound(a: seq<Dat>, b: seq<Dat>, n: nat, i: nat, j: nat, k: nat)
    requires |a| == |b| == n * n && i < n && j < n && k <= n
    ensures 0 <= ExtractDot(a, b, n, i, j, k) <= k * 1905
    decreases k
  {
    hide Times, Index, Extract;
    if k > 0 {
      IndexBound(n, i, k - 1);
      IndexBound(n, k - 1, j);
      ExtractDotBound(a, b, n, i, j, k - 1);
      var x := Extract(Times(a[Index(n, i, k - 1)], b[Index(n, k - 1, j)]));
    }
  }

  /**
    Up to dimension 128, with A a matrix of bytes and a constant that is a byte, no sum wraps:
    every entry of all three products is the exact integer sum.
   */
  lemma Exact(a: seq<Dat>, b: seq<Dat>, val: Dat, n: nat, i: nat, j: nat)
    requires |a| == |b| == n * n && i < n <= 128 && j < n && Small(a) && 0 <= val < 0x100
    ensures n <= n * n
    ensures var a1 := AddedConst(a, val);
      && Entry(Plain, a1, b, n, i, j) == Dot(a1, b, n, i, j, n)
      && Entry(BitExtract, a1, b, n, i, j) == ExtractDot(a1, b, n, i, j, n)
      && S32(VectDot(a1, b, n, i, n)) == VectDot(a1, b, n, i, n)
      && (forall k :: 0 <= k < n * n ==> a1[k] == Plus(a[k], val))
  {
    hide Dot, ExtractDot, VectDot, AddedConst;
    Square(n);
    SmallAdded(a, val);
    var a1 := AddedConst(a, val);
    DotBound(a1, b, n, i, j, n);
    ExtractDotBound(a1, b, n, i, j, n);
    VectDotBound(a1, b, n, i, n);
    Fits32(Dot(a1, b, n, i, j, n), n, LARGEST);
    Fits32(VectDot(a1, b, n, i, n), n, LARGEST);
    Fits32(ExtractDot(a1, b, n, i, j, n), n, 1905);
  }

  lemma Fits32(x: int, n: nat, bound: nat)
    requires n <= 128 && bound <= LARGEST && -(n * bound) <= x <= n * bound
    ensures S32(x) == x
  {
    assert n * bound <= 128 * bound;
  }

  /** The bound is sharp: the extreme matrices are exact up to dimension 128 and wrap from 129 on. */
  lemma Sharp(a: seq<Dat>, b: seq<Dat>, n: nat, i: nat, j: nat)
    requires |a| == |b| == n * n && i < n <= 0x100 && j < n
    requires forall k :: 0 <= k < n * n ==> a[k] == 510 && b[k] == -0x8000
    ensures Entry(Plain, a, b, n, i, j) == Dot(a, b, n, i, j, n) <==> n <= 128
  {
    hide Dot;
    DotOfExtremes(a, b, n, i, j, n);
  }

  lemma {:induction false} DotOfExtremes(a: seq<Dat>, b: seq<Dat>, n: nat, i: nat, j: nat, k: nat)
    requires |a| == |b| == n * n && i < n && j < n && k <= n
    requires forall k :: 0 <= k < n * n ==> a[k] == 510 && b[k] == -0x8000
    ensures Dot(a, b, n, i, j, k) == -(k * LARGEST)
    decreases k
  {
    if k > 0 {
      IndexBound(n, i, k - 1);
      IndexBound(n, k - 1, j);
      DotOfExtremes(a, b, n, i, j, k - 1);
    }
  }
}
