/**
  Construction of CoreMark's list (`core_list_init` and `core_list_insert_new` in
  `sw/coremark/core_list_join.c`).  The two regions that are carved out of the memory block are
  the sequences `heads` and `datas`; `memblock` and `datablock` are indices into them.
 */
module CoreListInit {
  import Bits
  import opened StableOrder
  import opened CoreListData
  import opened CoreListSort

  // ---------------------------------------------------------------------------
  // Sizes
  // ---------------------------------------------------------------------------

  /** `16+sizeof(struct list_data_s)` */
  const PER_ITEM: nat := 20

  function ListSize(blksize: nat): int {
    blksize / PER_ITEM - 2
  }

  /** Both regions, one behind the other, lie inside the block when a `list_head` has at most 16 bytes. */
  lemma RegionsFit(blksize: nat, headBytes: nat, k: nat)
    requires ListSize(blksize) >= 0 && headBytes <= 16 && k < ListSize(blksize)
    ensures var size := ListSize(blksize);
      && headBytes * k + headBytes <= headBytes * size
      && headBytes * size + 4 * k + 4 <= headBytes * size + 4 * size <= blksize
  {
    var size := ListSize(blksize);
    assert headBytes * (k + 1) <= headBytes * size;
    assert headBytes * size <= 16 * size;
  }

  // ---------------------------------------------------------------------------
  // Contents
  // ---------------------------------------------------------------------------

  /** The low 16 bits. */
  function LowBits(x: int): seq<bool> {
    Bits.BitsOf(x % 0x1_0000, 16)
  }

  /** `(ee_u16)(seed^i) & 0xf` */
  function DatPat(seed: int, i: nat): (r: nat)
    ensures r < 16
  {
    var bits := seq(4, k requires 0 <= k < 4 => LowBits(seed)[k] != LowBits(i)[k]);
    Bits.BitsOfNat(bits);
    assert Bits.Power2(4) == 16;
    Bits.NatOf(bits)
  }

  /** The data word of the `i`-th inserted item: `(dat<<8) | dat` with `dat = (datpat<<3) | (i&0x7)`. */
  function ItemData(seed: int, i: nat): (r: U16)
    ensures Regenerated(r)
  {
    var dat := DatPat(seed, i) * 8 + i % 8;
    dat * 0x100 + dat
  }

  /**
    `0x3fff & (((i & 0x07) << 8) | pat)` with `pat = (ee_u16)(i++ ^ seed)`: `i` is already
    incremented when it is masked.
   */
  function MixedIdx(seed: int, i: nat): (r: nat)
    ensures r < 0x4000
  {
    var bits := MixedBits(seed, i);
    Bits.BitsOfNat(bits);
    assert Bits.Power2(7) == 0x80 && Bits.Power2(14) == 0x4000;
    Bits.NatOf(bits)
  }

  lemma LowBitsAre(x: int, k: nat)
    requires k < 16
    ensures LowBits(x)[k] <==> Bits.Digit(x, k) == 1
  {
    Bits.PowerOf16();
    Bits.BitsAreDigits(x % 0x1_0000, 16, k);
    Bits.RestHasDigits(x, 16, k);
  }

  /** Digit by digit: the low digits of the number, and above them the lowest four of number and seed combined. */
  lemma ItemDataIs(seed: int, i: nat)
    ensures var d := ItemData(seed, i);
      && d / 0x100 == d % 0x100 < 0x80
      && (forall k :: 0 <= k < 3 ==> Bits.Digit(d, k) == Bits.Digit(i, k))
      && (forall k :: 3 <= k < 7 ==> Bits.Digit(d, k) == (Bits.Digit(seed, k - 3) + Bits.Digit(i, k - 3)) % 2)
  {
    var pat, d := DatPat(seed, i), ItemData(seed, i);
    assert d == 8 * (257 * pat + 32 * (i % 8)) + i % 8;
    assert d / 8 == 16 * (16 * pat + 2 * (i % 8)) + pat && d % 8 == i % 8;
    hide DatPat, ItemData, LowBits;
    forall k | 3 <= k < 7
      ensures Bits.Digit(d, k) == (Bits.Digit(seed, k - 3) + Bits.Digit(i, k - 3)) % 2
    {
      PatDigit(seed, i, k - 3);
      UpperDigits(d, pat, k - 3);
    }
    forall k | 0 <= k < 3
      ensures Bits.Digit(d, k) == Bits.Digit(i, k)
    {
      assert Bits.Power2(3) == 8;
      Bits.RestHasDigits(d, 3, k);
      Bits.RestHasDigits(i, 3, k);
    }
  }

  lemma PatDigit(seed: int, i: nat, k: nat)
    requires k < 4
    ensures Bits.Digit(DatPat(seed, i), k) == (Bits.Digit(seed, k) + Bits.Digit(i, k)) % 2
  {
    LowBitsAre(seed, k);
    LowBitsAre(i, k);
    hide LowBits;
    var bits := seq(4, k requires 0 <= k < 4 => LowBits(seed)[k] != LowBits(i)[k]);
    Bits.BitsOfNat(bits);
    assert DatPat(seed, i) == Bits.NatOf(bits);
    hide DatPat, Bits.BitsOf, Bits.NatOf, Bits.Digit;
    Bits.BitsAreDigits(DatPat(seed, i), 4, k);
  }

  lemma UpperDigits(d: nat, pat: nat, k: nat)
    requires pat < 16 && k < 4 && d / 8 % 16 == pat
    ensures Bits.Digit(d, k + 3) == Bits.Digit(pat, k)
  {
    assert Bits.Power2(4) == 16;
    hide Bits.Digit, Bits.Power2;
    Bits.DigitOfHalf(d, k + 2);
    Bits.DigitOfHalf(d / 2, k + 1);
    Bits.DigitOfHalf(d / 2 / 2, k);
    assert d / 2 / 2 / 2 == d / 8;
    Bits.RestHasDigits(d / 8, 4, k);
  }

  /** Digit by digit: number and seed combined, with the number of the next item over digits 8 to 10. */
  lemma MixedIdxIs(seed: int, i: nat, k: nat)
    requires k < 14
    ensures Bits.Digit(MixedIdx(seed, i), k) ==
      if 8 <= k < 11 && Bits.Digit(i + 1, k - 8) == 1 then 1 else (Bits.Digit(seed, k) + Bits.Digit(i, k)) % 2
  {
    hide LowBits, MixedIdx, Bits.Digit;
    LowBitsAre(seed, k);
    LowBitsAre(i, k);
    if 8 <= k < 11 {
      LowBitsAre(i + 1, k - 8);
    }
    MixedDigit(seed, i, k);
    SumOfDigits(Bits.Digit(seed, k), Bits.Digit(i, k));
  }

  lemma SumOfDigits(a: nat, b: nat)
    requires a < 2 && b < 2
    ensures (a + b) % 2 == if a != b then 1 else 0
  {
  }

  lemma MixedDigit(seed: int, i: nat, k: nat)
    requires k < 14
    ensures MixedBits(seed, i)[k] <==> Bits.Digit(MixedIdx(seed, i), k) == 1
  {
    hide MixedBits, Bits.Digit;
    Bits.BitsOfNat(MixedBits(seed, i));
    assert MixedIdx(seed, i) == Bits.NatOf(MixedBits(seed, i));
    hide MixedIdx, Bits.BitsOf, Bits.NatOf;
    Bits.BitsAreDigits(MixedIdx(seed, i), 14, k);
  }

  function MixedBits(seed: int, i: nat): (r: seq<bool>)
    ensures |r| == 14
  {
    seq(14, k requires 0 <= k < 14 =>
      (LowBits(i)[k] != LowBits(seed)[k]) || (8 <= k < 11 && LowBits(i + 1)[k - 8]))
  }

  /**
    The `idx` of the item at position `t` of the list before it is sorted: the first fifth in
    order, the rest mixed.
   */
  function ItemIdx(size: nat, seed: int, t: nat): nat {
    if t < size / 5 then t else MixedIdx(seed, t)
  }

  /** Two mixed items among the first 256 never get the same `idx`. */
  lemma MixedDiffer(seed: int, i: nat, j: nat)
    requires i < j < 0x100
    ensures MixedIdx(seed, i) != MixedIdx(seed, j)
  {
    if MixedIdx(seed, i) == MixedIdx(seed, j) {
      Bits.BitsOfNat(MixedBits(seed, i));
      Bits.BitsOfNat(MixedBits(seed, j));
      SameLowByte(seed, i, j);
      assert false;
    }
  }

  lemma SameLowByte(seed: int, i: nat, j: nat)
    requires i < 0x100 && j < 0x100 && MixedBits(seed, i) == MixedBits(seed, j)
    ensures i == j
  {
    hide Bits.BitsOf;
    var a, b := Bits.BitsOf(i, 8), Bits.BitsOf(j, 8);
    forall k | 0 <= k < 8
      ensures a[k] == b[k]
    {
      assert MixedBits(seed, i)[k] == MixedBits(seed, j)[k];
      FewerBits(i, 8, 16, k);
      FewerBits(j, 8, 16, k);
    }
    assert a == b;
    assert Bits.Power2(8) == 0x100;
    Bits.NatOfBits(i, 8);
    Bits.NatOfBits(j, 8);
  }

  lemma {:induction false} FewerBits(v: nat, m: nat, n: nat, k: nat)
    requires k < m <= n
    ensures Bits.BitsOf(v, m)[k] == Bits.BitsOf(v, n)[k]
    decreases k
  {
    if k > 0 {
      FewerBits(v / 2, m - 1, n - 1, k - 1);
    }
  }

  /**
    But a mixed item can get an `idx` of the ordered part: with a seed equal to the item's own
    number, and that number one less than a multiple of eight, it gets 0 like the head.
   */
  lemma MixedTie(i: nat)
    requires i < 0x7fff && (i + 1) % 8 == 0
    ensures MixedIdx(i, i) == 0
  {
    hide Bits.BitsOf, Bits.NatOf, MixedBits;
    LowBitsOfEight(i + 1, (i + 1) / 8, 16);
    assert (i + 1) % 0x1_0000 == i + 1;
    NothingMixed(i);
    ZeroBits(MixedBits(i, i));
  }

  lemma NothingMixed(i: nat)
    requires !LowBits(i + 1)[0] && !LowBits(i + 1)[1] && !LowBits(i + 1)[2]
    ensures forall k :: 0 <= k < 14 ==> !MixedBits(i, i)[k]
  {
    hide LowBits;
    forall k | 0 <= k < 14
      ensures !MixedBits(i, i)[k]
    {
      if 8 <= k < 11 {
        assert k - 8 == 0 || k - 8 == 1 || k - 8 == 2;
      }
    }
  }

  /** A multiple of eight ends in three zero digits. */
  lemma LowBitsOfEight(v: nat, q: nat, n: nat)
    requires v == 8 * q && n >= 3
    ensures !Bits.BitsOf(v, n)[0] && !Bits.BitsOf(v, n)[1] && !Bits.BitsOf(v, n)[2]
  {
    assert Bits.BitsOf(v, n)[1] == Bits.BitsOf(4 * q, n - 1)[0];
    assert Bits.BitsOf(v, n)[2] == Bits.BitsOf(4 * q, n - 1)[1] == Bits.BitsOf(2 * q, n - 2)[0];
  }

  lemma {:induction false} ZeroBits(b: seq<bool>)
    requires forall k :: 0 <= k < |b| ==> !b[k]
    ensures Bits.NatOf(b) == 0
    decreases |b|
  {
    if b != [] {
      ZeroBits(b[1..]);
    }
  }

  // ---------------------------------------------------------------------------
  // The cells
  // ---------------------------------------------------------------------------

  /** The memory regions: `size` heads and `size` data cells, all different. */
  ghost predicate Regions(heads: seq<ListHead>, datas: seq<ListData>) {
    |heads| == |datas| && Distinct(heads) && Distinct(datas)
  }

  /** The list after `p` cells are used: the head, the inserted items with the newest first, and the tail. */
  ghost function Built(heads: seq<ListHead>, p: nat): (s: seq<ListHead>)
    requires 2 <= p <= |heads|
    ensures |s| == p
  {
    seq(p, t requires 0 <= t < p => if t == 0 then heads[0] else if t == p - 1 then heads[1] else heads[p - t])
  }

  /** The data word of the `k`-th cell. */
  function CellData(seed: int, k: nat): (r: U16)
    ensures Regenerated(r)
  {
    if k == 0 then 0x8080 else if k == 1 then 0xffff else ItemData(seed, k - 2)
  }

  /** Heads and data cells are used in lock step. */
  ghost predicate Paired(heads: seq<ListHead>, datas: seq<ListData>, p: nat)
    requires p <= |heads| == |datas|
    reads (set x | x in heads)`info
  {
    forall k :: 0 <= k < p ==> heads[k].info == datas[k]
  }

  ghost predicate DataSet(datas: seq<ListData>, seed: int, p: nat)
    requires p <= |datas|
    reads (set d | d in datas)`data16
  {
    forall k :: 0 <= k < p ==> datas[k].data16 == CellData(seed, k)
  }

  /** Before the list is numbered: the head has the least `idx`, everything else the greatest. */
  ghost predicate IdxSet(datas: seq<ListData>, p: nat)
    requires p <= |datas|
    reads (set d | d in datas)`idx
  {
    forall k :: 0 <= k < p ==> datas[k].idx == if k == 0 then 0 else 0x7fff
  }

  /** `core_list_insert_new`: null when either region has no cell to spare, else a new cell behind `point`. */
  method InsertNew(point: ListHead, data16: U16, idx: S16, heads: seq<ListHead>, datas: seq<ListData>, p: nat, q: nat)
    returns (item: ListHead?, p1: nat, q1: nat)
    requires Regions(heads, datas) && p <= |heads| && q <= |datas| && point in heads[..p]
    modifies (set x | x in heads)`next, (set x | x in heads)`info, (set d | d in datas)`data16, (set d | d in datas)`idx
    ensures p + 1 >= |heads| || q + 1 >= |datas| ==>
      item == null && p1 == p && q1 == q && (forall x :: x in heads ==> x.next == old(x.next) && x.info == old(x.info))
      && (forall d :: d in datas ==> d.data16 == old(d.data16) && d.idx == old(d.idx))
    ensures p + 1 < |heads| && q + 1 < |datas| ==>
      && item == heads[p] && p1 == p + 1 && q1 == q + 1
      && heads[p].next == old(point.next) && point.next == heads[p]
      && heads[p].info == datas[q] && datas[q].data16 == data16 && datas[q].idx == idx
      && (forall x :: x in heads && x != heads[p] ==> x.info == old(x.info) && (x != point ==> x.next == old(x.next)))
      && (forall d :: d in datas && d != datas[q] ==> d.data16 == old(d.data16) && d.idx == old(d.idx))
  {
    if p + 1 >= |heads| {
      return null, p, q;
    }
    if q + 1 >= |datas| {
      return null, p, q;
    }
    var newitem := heads[p];
    p1 := p + 1;
    newitem.next := point.next;
    point.next := newitem;
    newitem.info := datas[q];
    q1 := q + 1;
    newitem.info.data16, newitem.info.idx := data16, idx;
    item := newitem;
  }

  /** The list, its data and its numbering while items are inserted. */
  ghost predicate Building(heads: seq<ListHead>, datas: seq<ListData>, seed: int, p: nat)
    requires Regions(heads, datas) && 2 <= p <= |heads|
    reads (set x | x in heads)`next, (set x | x in heads)`info, (set d | d in datas)`data16, (set d | d in datas)`idx
  {
    && Chain(Built(heads, p), heads[0])
    && Paired(heads, datas, p) && DataSet(datas, seed, p) && IdxSet(datas, p)
  }

  lemma BuiltShift(heads: seq<ListHead>, p: nat)
    requires 2 <= p < |heads|
    ensures var a, b := Built(heads, p), Built(heads, p + 1);
      b[0] == a[0] == heads[0] && b[1] == heads[p] && forall t :: 1 <= t < p ==> b[t + 1] == a[t]
  {
  }

  lemma BuiltDistinct(heads: seq<ListHead>, p: nat)
    requires Distinct(heads) && 2 <= p <= |heads|
    ensures Distinct(Built(heads, p)) && forall x :: x in Built(heads, p) ==> x in heads[..p]
    ensures multiset(Built(heads, p)) == multiset(heads[..p])
    decreases p
  {
    var s := Built(heads, p);
    if p == 2 {
      assert s == heads[..2];
    } else {
      BuiltDistinct(heads, p - 1);
      var before := Built(heads, p - 1);
      BuiltShift(heads, p - 1);
      assert s == [heads[0], heads[p - 1]] + before[1..];
      assert before == [heads[0]] + before[1..];
      assert heads[..p] == heads[..p - 1] + [heads[p - 1]];
      assert multiset(s) == multiset(before) + multiset([heads[p - 1]]);
      DistinctPrefix(heads, p);
      PermutationDistinct(s, heads[..p]);
    }
    SameElements(s, heads[..p]);
  }

  lemma DistinctPrefix<T>(s: seq<T>, p: nat)
    requires Distinct(s) && p <= |s|
    ensures Distinct(s[..p])
  {
  }

  ghost function NextOf(heads: seq<ListHead>): map<ListHead, ListHead?>
    reads (set x | x in heads)`next
  {
    map x | x in heads :: x.next
  }

  /** These pointers lead through `s` to the end. */
  ghost predicate LeadThrough(next: map<ListHead, ListHead?>, s: seq<ListHead>) {
    forall t :: 0 <= t < |s| ==> s[t] in next && next[s[t]] == At(s, t + 1)
  }

  lemma LinksShift(heads: seq<ListHead>, p: nat, before: map<ListHead, ListHead?>, after: map<ListHead, ListHead?>)
    requires Distinct(heads) && 2 <= p < |heads| && LeadThrough(before, Built(heads, p))
    requires before.Keys == after.Keys == (set x | x in heads)
    requires after[heads[p]] == before[heads[0]] && after[heads[0]] == heads[p]
    requires forall x :: x in heads && x != heads[0] && x != heads[p] ==> x in before && after[x] == before[x]
    ensures LeadThrough(after, Built(heads, p + 1))
  {
    var a, b := Built(heads, p), Built(heads, p + 1);
    BuiltShift(heads, p);
    BuiltDistinct(heads, p + 1);
    forall t | 0 <= t < p + 1
      ensures b[t] in after && after[b[t]] == At(b, t + 1)
    {
      assert b[t] in heads[..p + 1];
      if t >= 2 {
        assert b[0] != b[t] && b[1] != b[t] && b[t] == a[t - 1];
        assert before[a[t - 1]] == At(a, t);
      } else {
        assert before[a[0]] == At(a, 1);
      }
    }
  }

  /** The item goes behind the head: head and data cell are the next of their regions. */
  method InsertItem(heads: seq<ListHead>, datas: seq<ListData>, seed: int, p: nat)
    requires Regions(heads, datas) && 2 <= p && p + 1 < |heads| && Building(heads, datas, seed, p)
    modifies (set x | x in heads)`next, (set x | x in heads)`info, (set d | d in datas)`data16, (set d | d in datas)`idx
    ensures Building(heads, datas, seed, p + 1)
  {
    hide ItemData, Built;
    ghost var before := NextOf(heads);
    BuiltInHeads(heads, p);
    assert LeadThrough(before, Built(heads, p));
    var item, p1, q1 := InsertNew(heads[0], ItemData(seed, p - 2), 0x7fff, heads, datas, p, p);
    LinksShift(heads, p, before, NextOf(heads));
    BuiltInHeads(heads, p + 1);
  }

  lemma BuiltInHeads(heads: seq<ListHead>, p: nat)
    requires Distinct(heads) && 2 <= p <= |heads|
    ensures Distinct(Built(heads, p)) && Built(heads, p)[0] == heads[0]
    ensures forall x :: x in Built(heads, p) ==> x in heads
  {
    BuiltDistinct(heads, p);
  }

  /** Lines 225-241: the head, the tail, and then items until the regions are used up. */
  method FillList(heads: seq<ListHead>, datas: seq<ListData>, seed: S16) returns (list: ListHead)
    requires Regions(heads, datas) && |heads| >= 3
    modifies (set x | x in heads)`next, (set x | x in heads)`info, (set d | d in datas)`data16, (set d | d in datas)`idx
    ensures list == heads[0] && Building(heads, datas, seed, |heads| - 1)
  {
    hide ItemData, Built;
    var size := |heads|;
    list := heads[0];
    StartList(heads, datas, seed);
    var p, i := 2, 0;
    while i < size
      invariant 0 <= i <= size && p == (if i < size - 3 then i + 2 else size - 1)
      invariant Building(heads, datas, seed, p)
    {
      if p + 1 < size {
        InsertItem(heads, datas, seed, p);
        p := p + 1;
      } else {
        RefuseItem(heads, datas, seed, p, i);
      }
      i := i + 1;
    }
  }

  /** The two fake items. */
  method StartList(heads: seq<ListHead>, datas: seq<ListData>, seed: S16)
    requires Regions(heads, datas) && |heads| >= 3
    modifies (set x | x in heads)`next, (set x | x in heads)`info, (set d | d in datas)`data16, (set d | d in datas)`idx
    ensures Building(heads, datas, seed, 2)
  {
    var list := heads[0];
    list.next := null;
    list.info := datas[0];
    list.info.idx := 0x0000;
    list.info.data16 := 0x8080;
    var item, p, q := InsertNew(list, 0xffff, 0x7fff, heads, datas, 1, 1);
    assert Built(heads, 2) == [heads[0], heads[1]];
  }

  /** A call that finds no cell to spare changes nothing. */
  method RefuseItem(heads: seq<ListHead>, datas: seq<ListData>, seed: S16, p: nat, i: nat)
    requires Regions(heads, datas) && 2 <= p && p + 1 == |heads| && Building(heads, datas, seed, p)
    modifies (set x | x in heads)`next, (set x | x in heads)`info, (set d | d in datas)`data16, (set d | d in datas)`idx
    ensures Building(heads, datas, seed, p)
  {
    hide ItemData, Built;
    ghost var before := NextOf(heads);
    BuiltInHeads(heads, p);
    assert LeadThrough(before, Built(heads, p));
    var item, p1, q1 := InsertNew(heads[0], ItemData(seed, i), 0x7fff, heads, datas, p, p);
    assert NextOf(heads) == before;
    assert LeadThrough(NextOf(heads), Built(heads, p));
  }

  // ---------------------------------------------------------------------------
  // Numbering
  // ---------------------------------------------------------------------------

  /** The `idx` of position `t` in the list of `n` nodes, when the first `i` positions are numbered. */
  function IdxAt(size: nat, seed: int, n: nat, i: nat, t: nat): int {
    if t == 0 then 0 else if t < n - 1 && t < i then ItemIdx(size, seed, t) else 0x7fff
  }

  /** The position of the `k`-th cell. */
  function PositionOf(n: nat, k: nat): int {
    if k == 0 then 0 else if k == 1 then n - 1 else n - k
  }

  ghost predicate Numbered(datas: seq<ListData>, size: nat, seed: int, n: nat, i: nat)
    requires n <= |datas|
    reads (set d | d in datas)`idx
  {
    forall k :: 0 <= k < n && PositionOf(n, k) >= 0 ==> datas[k].idx == IdxAt(size, seed, n, i, PositionOf(n, k))
  }

  lemma NumberingStarts(datas: seq<ListData>, size: nat, seed: int, n: nat)
    requires 2 <= n <= |datas| && IdxSet(datas, n)
    ensures Numbered(datas, size, seed, n, 1)
  {
  }

  /** One item is numbered. */
  method NumberItem(finder: ListHead, datas: seq<ListData>, size: nat, seed: S16, ghost n: nat, i: nat)
    requires Distinct(datas) && 1 <= i < n - 1 && n <= |datas| && size / 5 <= 0x7fff
    requires finder.info == datas[n - i] && Numbered(datas, size, seed, n, i)
    modifies (set d | d in datas)`idx
    ensures Numbered(datas, size, seed, n, i + 1)
  {
    hide MixedIdx;
    if i < size / 5 {
      finder.info.idx := i;
    } else {
      finder.info.idx := MixedIdx(seed, i);
    }
  }

  /** Lines 243-253. */
  method NumberList(list: ListHead, heads: seq<ListHead>, datas: seq<ListData>, size: nat, seed: S16)
    requires Regions(heads, datas) && |heads| == size && size >= 3 && size / 5 <= 0x7fff
    requires list == heads[0] && Building(heads, datas, seed, size - 1)
    modifies (set d | d in datas)`idx
    ensures Numbered(datas, size, seed, size - 1, size - 2)
  {
    hide IdxAt, CellData, Chain, Paired, Numbered, Built, IdxSet, DataSet;
    ghost var n := size - 1;
    ghost var s := Built(heads, n);
    NumberingStarts(datas, size, seed, n);
    BuiltInHeads(heads, n);
    ChainAt(s, heads[0], 0);
    var finder := list.next;
    var i := 1;
    ChainAt(s, heads[0], 1);
    while finder.next != null
      invariant 1 <= i <= n - 1 && finder == s[i] && finder.next == At(s, i + 1)
      invariant Chain(s, heads[0]) && Paired(heads, datas, n) && Numbered(datas, size, seed, n, i)
      decreases n - i
    {
      BuiltInfo(heads, datas, n, i);
      NumberItem(finder, datas, size, seed, n, i);
      ChainAt(s, heads[0], i);
      ChainAt(s, heads[0], i + 1);
      finder := finder.next;
      i := i + 1;
    }
  }

  lemma ChainAt(s: seq<ListHead>, head: ListHead, t: nat)
    requires Chain(s, head) && t < |s|
    ensures s[0] == head && s[t].next == At(s, t + 1)
  {
  }

  lemma BuiltInfo(heads: seq<ListHead>, datas: seq<ListData>, n: nat, t: nat)
    requires |heads| == |datas| && 2 <= n <= |heads| && Paired(heads, datas, n) && 1 <= t < n - 1
    ensures Built(heads, n)[t].info == datas[n - t]
  {
    assert Built(heads, n)[t] == heads[n - t];
  }

  // ---------------------------------------------------------------------------
  // core_list_init
  // ---------------------------------------------------------------------------

  /** What the `k`-th cell holds in the end. */
  function CellDatum(size: nat, seed: int, n: nat, k: nat): (r: Datum)
    requires k < n && n >= 2 && size / 5 <= 0x7fff
  {
    hide MixedIdx;
    assert 0 <= IdxAt(size, seed, n, n - 1, PositionOf(n, k)) <= 0x7fff by { IdxRange(size, seed, n, k); }
    Datum(CellData(seed, k), IdxAt(size, seed, n, n - 1, PositionOf(n, k)))
  }

  lemma IdxRange(size: nat, seed: int, n: nat, k: nat)
    requires k < n && n >= 2 && size / 5 <= 0x7fff
    ensures PositionOf(n, k) >= 0 && 0 <= IdxAt(size, seed, n, n - 1, PositionOf(n, k)) <= 0x7fff
  {
  }

  ghost predicate Contents(heads: seq<ListHead>, datas: seq<ListData>, size: nat, seed: int, n: nat)
    requires 2 <= n <= |heads| == |datas| && size / 5 <= 0x7fff
    reads (set x | x in heads)`info, (set d | d in datas)`data16, (set d | d in datas)`idx
  {
    && Paired(heads, datas, n)
    && (forall k :: 0 <= k < n ==> Datum(datas[k].data16, datas[k].idx) == CellDatum(size, seed, n, k))
  }

  /** The data that the sort sees, and leaves as they are. */
  lemma SortKeepsData(datas: seq<ListData>, size: nat, seed: int, n: nat, before: map<ListData, Datum>,
                      after: map<ListData, Datum>)
    requires 2 <= n <= |datas| && size / 5 <= 0x7fff && before.Keys == set d | d in datas[..n]
    requires forall k :: 0 <= k < n ==> before[datas[k]] == CellDatum(size, seed, n, k)
    requires Refreshed(CmpIdx, null, before, after)
    ensures after == before
  {
    hide CellData;
    forall d | d in before
      ensures after[d] == before[d]
    {
      var k :| 0 <= k < n && datas[..n][k] == d;
      assert Regenerated(CellData(seed, k));
    }
  }

  /** The keys of just these nodes. */
  ghost predicate KeysFor(key: map<ListHead, int>, nodes: seq<ListHead>) {
    key.Keys == set x | x in nodes
  }

  /** The keys by which the list is sorted. */
  ghost predicate IdxKeys(key: map<ListHead, int>, nodes: seq<ListHead>, size: nat, seed: int) {
    forall t :: 0 <= t < |nodes| ==> nodes[t] in key && key[nodes[t]] == IdxAt(size, seed, |nodes|, |nodes| - 1, t)
  }

  lemma KeysFromContents(heads: seq<ListHead>, datas: seq<ListData>, size: nat, seed: int, n: nat, infos: set<ListData>)
    requires 2 <= n <= |heads| == |datas| && size / 5 <= 0x7fff && Contents(heads, datas, size, seed, n)
    requires infos == set d | d in datas[..n]
    ensures InfosIn(Built(heads, n), infos)
    ensures IdxKeys(Keys(CmpIdx, Built(heads, n), infos), Built(heads, n), size, seed)
  {
    hide CellData, IdxAt;
    var nodes := Built(heads, n);
    forall t | 0 <= t < n
      ensures nodes[t].info in infos && nodes[t].info.idx == IdxAt(size, seed, n, n - 1, t)
    {
      var k := if t == 0 then 0 else if t == n - 1 then 1 else n - t;
      assert nodes[t] == heads[k] && PositionOf(n, k) == t;
      assert heads[k].info == datas[k] && datas[k] in datas[..n];
      assert Datum(datas[k].data16, datas[k].idx) == CellDatum(size, seed, n, k);
    }
  }

  lemma SmallestFirst<T>(key: map<T, int>, pos: map<T, nat>, s: seq<T>, x: T)
    requires Ordered(key, pos, s) && x in s && forall y :: y in s && y != x ==> Less(key, pos, x, y)
    ensures s[0] == x
  {
    var i :| 0 <= i < |s| && s[i] == x;
    assert s[0] in s;
    assert i == 0 || Less(key, pos, s[0], s[i]);
  }

  lemma GreatestLast<T>(key: map<T, int>, pos: map<T, nat>, s: seq<T>, x: T)
    requires Ordered(key, pos, s) && x in s && forall y :: y in s && y != x ==> Less(key, pos, y, x)
    ensures s[|s| - 1] == x
  {
    var i :| 0 <= i < |s| && s[i] == x;
    assert s[|s| - 1] in s;
    assert i == |s| - 1 || Less(key, pos, s[i], s[|s| - 1]);
  }

  /** The head keeps the first place and the tail the last. */
  lemma EndsStay(key: map<ListHead, int>, nodes: seq<ListHead>, size: nat, seed: int)
    requires Distinct(nodes) && |nodes| >= 2 && IdxKeys(key, nodes, size, seed) && size / 5 <= 0x7fff
    ensures var s := StableSort(key, nodes);
      |s| == |nodes| && s[0] == nodes[0] && s[|s| - 1] == nodes[|nodes| - 1]
  {
    hide MixedIdx, StableSort;
    var s, n, pos := StableSort(key, nodes), |nodes|, Positions(nodes);
    StableSortOrdered(key, pos, nodes);
    StableSortKeeps(key, nodes);
    SameElements(s, nodes);
    HeadLeast(key, nodes, size, seed);
    hide Positions;
    SmallestFirst(key, pos, s, nodes[0]);
    GreatestLast(key, pos, s, nodes[n - 1]);
  }

  lemma HeadLeast(key: map<ListHead, int>, nodes: seq<ListHead>, size: nat, seed: int)
    requires Distinct(nodes) && |nodes| >= 2 && IdxKeys(key, nodes, size, seed) && size / 5 <= 0x7fff
    ensures forall y :: y in nodes && y != nodes[0] ==> Less(key, Positions(nodes), nodes[0], y)
    ensures forall y :: y in nodes && y != nodes[|nodes| - 1] ==> Less(key, Positions(nodes), y, nodes[|nodes| - 1])
  {
    hide MixedIdx;
    var pos := Positions(nodes);
    forall t | 0 <= t < |nodes|
      ensures t > 0 ==> Less(key, pos, nodes[0], nodes[t])
      ensures t < |nodes| - 1 ==> Less(key, pos, nodes[t], nodes[|nodes| - 1])
    {
      assert nodes[t] in key && pos[nodes[t]] == t;
    }
  }

  /** All cells in use, filled and numbered. */
  method BuildList(heads: seq<ListHead>, datas: seq<ListData>, size: nat, seed: S16) returns (list: ListHead)
    requires Regions(heads, datas) && |heads| == size && size >= 3 && size / 5 <= 0x7fff
    modifies (set x | x in heads)`next, (set x | x in heads)`info, (set d | d in datas)`data16, (set d | d in datas)`idx
    ensures list == heads[0] && Chain(Built(heads, size - 1), list) && Contents(heads, datas, size, seed, size - 1)
  {
    hide Numbered, Contents, Chain, Paired, DataSet, IdxSet;
    list := FillList(heads, datas, seed);
    NumberList(list, heads, datas, size, seed);
    FilledAndNumbered(heads, datas, size, seed);
  }

  lemma FilledAndNumbered(heads: seq<ListHead>, datas: seq<ListData>, size: nat, seed: S16)
    requires Regions(heads, datas) && |heads| == size && size >= 3 && size / 5 <= 0x7fff
    requires Paired(heads, datas, size - 1) && DataSet(datas, seed, size - 1)
    requires Numbered(datas, size, seed, size - 1, size - 2)
    ensures Contents(heads, datas, size, seed, size - 1)
  {
    hide CellData, IdxAt;
    var n := size - 1;
    assert forall k :: 0 <= k < n ==> PositionOf(n, k) >= 0;
  }

  /**
    `core_list_init`: one cell fewer than there is room for is used, heads and data cells in
    lock step.  The list is the stable sort of its nodes by `idx`; it begins with the node of the
    first cell and ends with that of the second.
   */
  method InitList(blksize: nat, heads: seq<ListHead>, datas: seq<ListData>, seed: S16)
    returns (list: ListHead, ghost sorted: seq<ListHead>, ghost key: map<ListHead, int>)
    requires ListSize(blksize) >= 3 && ListSize(blksize) / 5 <= 0x7fff
    requires Regions(heads, datas) && |heads| == ListSize(blksize)
    modifies (set x | x in heads)`next, (set x | x in heads)`info, (set d | d in datas)`data16, (set d | d in datas)`idx
    ensures var n := |heads| - 1;
      && Chain(sorted, list) && |sorted| == n && multiset(sorted) == multiset(heads[..n])
      && Contents(heads, datas, |heads|, seed, n)
      && IdxKeys(key, Built(heads, n), |heads|, seed) && sorted == StableSort(key, Built(heads, n))
      && KeysFor(key, Built(heads, n))
      && sorted[0] == heads[0] && sorted[n - 1] == heads[1]
  {
    hide Chain, StableSort, CellDatum, IdxAt, Built, IdxKeys, Contents;
    var size := blksize / PER_ITEM - 2;
    list := BuildList(heads, datas, size, seed);
    BuiltDistinct(heads, size - 1);
    list, sorted, key := SortBuilt(list, heads, datas, size, seed);
    EndsStay(key, Built(heads, size - 1), size, seed);
    BuiltInHeads(heads, size - 1);
    BuiltLast(heads, size - 1);
  }

  lemma BuiltLast(heads: seq<ListHead>, n: nat)
    requires 2 <= n <= |heads|
    ensures Built(heads, n)[n - 1] == heads[1]
  {
  }

  /** Line 254. */
  method SortBuilt(list0: ListHead, heads: seq<ListHead>, datas: seq<ListData>, size: nat, seed: S16)
    returns (list: ListHead, ghost sorted: seq<ListHead>, ghost key: map<ListHead, int>)
    requires Regions(heads, datas) && |heads| == size && size >= 3 && size / 5 <= 0x7fff
    requires Chain(Built(heads, size - 1), list0) && Contents(heads, datas, size, seed, size - 1)
    modifies (set x | x in heads)`next, (set d | d in datas)`data16
    ensures Chain(sorted, list) && multiset(sorted) == multiset(Built(heads, size - 1))
    ensures Contents(heads, datas, size, seed, size - 1)
    ensures IdxKeys(key, Built(heads, size - 1), size, seed) && sorted == StableSort(key, Built(heads, size - 1))
    ensures KeysFor(key, Built(heads, size - 1))
  {
    hide Chain, StableSort, Keys, CellDatum, IdxAt, Refreshed, Built, IdxKeys, DataOf;
    ghost var n := size - 1;
    ghost var nodes, infos := Built(heads, n), set d | d in datas[..n];
    BuiltInHeads(heads, n);
    KeysFromContents(heads, datas, size, seed, n, infos);
    ghost var before := DataOf(infos);
    DataKnown(datas, n, infos, before);
    list, sorted := Mergesort(list0, CmpIdx, null, nodes, infos);
    SortKeepsData(datas, size, seed, n, before, DataOf(infos));
    DataKnown(datas, n, infos, before);
    KeysFromContents(heads, datas, size, seed, n, infos);
    key := Keys(CmpIdx, nodes, infos);
    KeysDomain(nodes, infos);
  }

  lemma KeysDomain(nodes: seq<ListHead>, infos: set<ListData>)
    requires InfosIn(nodes, infos)
    ensures KeysFor(Keys(CmpIdx, nodes, infos), nodes)
  {
  }

  lemma DataKnown(datas: seq<ListData>, n: nat, infos: set<ListData>, m: map<ListData, Datum>)
    requires n <= |datas| && infos == (set d | d in datas[..n]) && m == DataOf(infos)
    ensures m.Keys == infos
    ensures forall k :: 0 <= k < n ==> datas[k] in m && m[datas[k]] == Datum(datas[k].data16, datas[k].idx)
  {
    forall k | 0 <= k < n
      ensures datas[k] in infos
    {
      assert datas[k] == datas[..n][k];
    }
  }
}
