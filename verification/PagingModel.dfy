/**
  The values behind the demand-paging test kernel (`isa-tests/env/v/vm.c`): page-table
  entries, the machine state as one value, the flat memory the user should see, and what each
  kind of page fault does to the state.

  Physical pages are numbered from the start of DRAM.  Pages 1 to 62 hold the image of the
  user program at `uva2kva`; the frames are pages 64 to 126.
 */
module PagingModel {
  import opened Machine
  import Lfsr
  import Bits

  const MAX_TEST_PAGES: nat := 63
  const PGSIZE: nat := 0x1000
  const DRAM_BASE: nat := 0x80000000
  const DRAM_PPN: nat := 0x80000

  type Page = s: seq<Byte> | |s| == 0x1000 witness seq(0x1000, _ => 0)

  // ---------------------------------------------------------------------------
  // Page-table entries
  // ---------------------------------------------------------------------------

  // Bit numbers of the flags: section 4.3.1 of the RISC-V Privileged Architecture.
  const PTE_V: nat := 0
  const PTE_R: nat := 1
  const PTE_W: nat := 2
  const PTE_X: nat := 3
  const PTE_U: nat := 4
  const PTE_A: nat := 6
  const PTE_D: nat := 7
  const PTE_PPN_SHIFT: nat := 10

  predicate Bit(e: nat, k: nat)
    decreases k, e
  {
    if k == 0 then e % 2 == 1 else Bit(e / 2, k - 1)
  }

  /** `e >> k` */
  function ShiftRight(e: nat, k: nat): nat
    decreases k, e
  {
    if k == 0 then e else ShiftRight(e / 2, k - 1)
  }

  /** `e | (1 << k)` */
  function SetBit(e: nat, k: nat): nat
    decreases k, e
  {
    if k == 0 then e / 2 * 2 + 1 else SetBit(e / 2, k - 1) * 2 + e % 2
  }

  /** `flags`, lowest bit first, with `n` shifted in above them. */
  function Pack(flags: seq<bool>, n: nat): nat {
    if flags == [] then n else Pack(flags[1..], n) * 2 + (if flags[0] then 1 else 0)
  }

  lemma {:induction false} PackBit(flags: seq<bool>, n: nat, k: nat)
    requires k < |flags|
    ensures Bit(Pack(flags, n), k) == flags[k]
    decreases k
  {
    if k > 0 {
      PackBit(flags[1..], n, k - 1);
    }
  }

  lemma {:induction false} PackShift(flags: seq<bool>, n: nat)
    ensures ShiftRight(Pack(flags, n), |flags|) == n
    decreases |flags|
  {
    if flags != [] {
      PackShift(flags[1..], n);
    }
  }

  lemma {:induction false} PackSet(flags: seq<bool>, n: nat, k: nat)
    requires k < |flags|
    ensures SetBit(Pack(flags, n), k) == Pack(flags[k := true], n)
    decreases k
  {
    if k > 0 {
      PackSet(flags[1..], n, k - 1);
      assert flags[1..][k - 1 := true] == flags[k := true][1..];
    } else {
      assert flags[1..] == flags[k := true][1..];
    }
  }

  datatype Access = Fetch | Load | Store

  /** The entry lets user mode make this access. */
  predicate Permits(e: nat, a: Access) {
    && Bit(e, PTE_V)
    && Bit(e, PTE_U)
    && (match a
        case Fetch => Bit(e, PTE_X)
        case Load => Bit(e, PTE_R)
        case Store => Bit(e, PTE_W) && Bit(e, PTE_R))
  }

  /** Hardware that leaves A and D to software raises a page fault instead of setting them (section 4.3.1). */
  predicate Faults(e: nat, a: Access) {
    !Permits(e, a) || !Bit(e, PTE_A) || (a == Store && !Bit(e, PTE_D))
  }

  /** The physical page an entry maps to, counted from the start of DRAM. */
  function FrameOf(e: nat): int {
    ShiftRight(e, PTE_PPN_SHIFT) - DRAM_PPN
  }

  /** `PTE_V | PTE_U | PTE_R | PTE_W | PTE_X`, perhaps with A and D. */
  function Flags(a: bool, d: bool): seq<bool> {
    [true, true, true, true, true, false, a, d, false, false]
  }

  /** `(addr >> PGSHIFT << PTE_PPN_SHIFT) | PTE_V | PTE_U | PTE_R | PTE_W | PTE_X`, perhaps with A and D. */
  function EntryOf(addr: nat, a: bool, d: bool): nat {
    Pack(Flags(a, d), addr / PGSIZE)
  }

  function AddressOf(frame: nat): nat {
    DRAM_BASE + frame * PGSIZE
  }

  /** The numbers that the source writes: 0x1F for the five flags, 0x40 for A and 0x80 for D. */
  lemma EntryIs(addr: nat, a: bool, d: bool)
    ensures EntryOf(addr, a, d) == addr / 0x1000 * 0x400 + 0x1F + (if a then 0x40 else 0) + (if d then 0x80 else 0)
  {
    var f, n := Flags(a, d), addr / PGSIZE;
    assert f[0..] == f && f[10..] == [];
    assert Pack([], n) == n;
    hide Pack;
    forall k | 0 <= k < 10
      ensures Pack(f[k..], n) == Pack(f[k + 1..], n) * 2 + (if f[k] then 1 else 0)
    {
      PackFrom(f, n, k);
    }
    assert Pack(f[8..], n) == Pack(f[9..], n) * 2 == n * 4;
    assert Pack(f[6..], n) == Pack(f[7..], n) * 2 + (if a then 1 else 0);
    assert Pack(f[5..], n) == Pack(f[6..], n) * 2;
    assert Pack(f[3..], n) == Pack(f[4..], n) * 2 + 1;
    assert Pack(f[1..], n) == Pack(f[2..], n) * 2 + 1;
  }

  lemma PackFrom(flags: seq<bool>, n: nat, k: nat)
    requires k < |flags|
    ensures Pack(flags[k..], n) == Pack(flags[k + 1..], n) * 2 + (if flags[k] then 1 else 0)
  {
    assert flags[k..][1..] == flags[k + 1..];
  }

  lemma {:induction false} BitIs(e: nat, k: nat)
    ensures Bit(e, k) <==> e / Bits.Power2(k) % 2 == 1
    decreases k
  {
    if k > 0 {
      BitIs(e / 2, k - 1);
      Bits.HalfFirst(e, Bits.Power2(k - 1));
    }
  }

  /** When the hardware faults, by the entry's binary digits. */
  lemma FaultsIs(e: nat, a: Access)
    ensures Faults(e, a) <==>
      || e % 2 == 0 || e / 16 % 2 == 0 || e / 64 % 2 == 0
      || (a == Fetch && e / 8 % 2 == 0) || (a == Load && e / 2 % 2 == 0)
      || (a == Store && (e / 2 % 2 == 0 || e / 4 % 2 == 0 || e / 128 % 2 == 0))
  {
    forall k | 0 <= k < 8
      ensures Bit(e, k) <==> e / Bits.Power2(k) % 2 == 1
    {
      BitIs(e, k);
    }
    hide Bit;
    assert Bits.Power2(1) == 2 && Bits.Power2(2) == 4 && Bits.Power2(3) == 8 && Bits.Power2(4) == 16;
    assert Bits.Power2(5) == 32 && Bits.Power2(6) == 64 && Bits.Power2(7) == 128;
  }

  /** Frame and flags can be read back from an entry, and a fault is exactly about A and D. */
  lemma EntryFields(frame: nat, a: bool, d: bool)
    ensures var e := EntryOf(AddressOf(frame), a, d);
      && e != 0 && FrameOf(e) == frame && Bit(e, PTE_A) == a && Bit(e, PTE_D) == d
      && forall k: Access :: Faults(e, k) == (!a || (k == Store && !d))
  {
    hide Bit, ShiftRight, Pack;
    var f, n := Flags(a, d), AddressOf(frame) / PGSIZE;
    assert n == DRAM_PPN + frame;
    PackShift(f, n);
    forall k | 0 <= k < 10
      ensures Bit(Pack(f, n), k) == f[k]
    {
      PackBit(f, n, k);
    }
    ZeroHasNoBits(PTE_V);
  }

  /** Shifting is dividing. */
  lemma {:induction false} ShiftDivides(e: nat)
    ensures ShiftRight(e, PTE_PPN_SHIFT) == e / 0x400
  {
    ShiftFive(e, 5);
    ShiftFive(e / 32, 0);
    assert ShiftRight(e, 10) == ShiftRight(e / 32, 5) == ShiftRight(e / 32 / 32, 0);
  }

  lemma ShiftFive(e: nat, k: nat)
    ensures ShiftRight(e, k + 5) == ShiftRight(e / 32, k)
  {
    assert ShiftRight(e, k + 5) == ShiftRight(e / 2, k + 4);
    assert ShiftRight(e / 2, k + 4) == ShiftRight(e / 2 / 2, k + 3) == ShiftRight(e / 4, k + 3);
    assert ShiftRight(e / 4, k + 3) == ShiftRight(e / 4 / 2, k + 2) == ShiftRight(e / 8, k + 2);
    assert ShiftRight(e / 8, k + 2) == ShiftRight(e / 8 / 2, k + 1) == ShiftRight(e / 16, k + 1);
    assert ShiftRight(e / 16, k + 1) == ShiftRight(e / 16 / 2, k) == ShiftRight(e / 32, k);
  }

  /** The frame number in an entry is that of the address. */
  lemma EntryNumber(addr: nat, a: bool, d: bool)
    ensures EntryOf(addr, a, d) / 0x400 == addr / 0x1000
  {
    PackShift(Flags(a, d), addr / PGSIZE);
    ShiftDivides(EntryOf(addr, a, d));
  }

  lemma {:induction false} ZeroHasNoBits(k: nat)
    ensures !Bit(0, k)
    decreases k
  {
    if k > 0 {
      ZeroHasNoBits(k - 1);
    }
  }

  /** `|= PTE_A` and `|= PTE_D`. */
  lemma SetFlags(addr: nat, a: bool, d: bool)
    ensures SetBit(EntryOf(addr, a, d), PTE_A) == EntryOf(addr, true, d)
    ensures SetBit(EntryOf(addr, a, d), PTE_D) == EntryOf(addr, a, true)
  {
    hide SetBit, Pack;
    PackSet(Flags(a, d), addr / PGSIZE, PTE_A);
    PackSet(Flags(a, d), addr / PGSIZE, PTE_D);
    assert Flags(a, d)[PTE_A := true] == Flags(true, d);
    assert Flags(a, d)[PTE_D := true] == Flags(a, true);
  }

  /** Absent, no A, no D, or complete: how many faults a page has taken. */
  function Stage(e: nat): nat {
    if e == 0 then 0 else if !Bit(e, PTE_A) then 1 else if !Bit(e, PTE_D) then 2 else 3
  }

  // ---------------------------------------------------------------------------
  // The state as one value
  // ---------------------------------------------------------------------------

  datatype Vm = Vm(
    start: nat,            // where the shift register started
    pt: seq<nat>,          // user_l3pt
    mapping: seq<nat>,     // user_mapping[].addr
    used: seq<nat>,        // pages in the order they were faulted in
    mem: seq<Page>,        // physical memory
    image: seq<Page>,      // every page as it was when it was loaded, or is if it is not loaded yet
    tlb: seq<set<nat>>,    // entries the TLB may hold for each page
    faults: seq<nat>)      // faults taken by each page

  /** The `i`-th free-list node's frame. */
  function Frame(start: nat, i: nat): nat {
    MAX_TEST_PAGES + Lfsr.Steps(start, i)
  }

  ghost predicate Shape(v: Vm) {
    && 1 <= v.start <= 63
    && |v.pt| == |v.mapping| == |v.tlb| == |v.faults| == |v.image| == 63 && |v.mem| == 127
    && |v.used| <= 62
    && (forall k :: 0 <= k < |v.used| ==> 1 <= v.used[k] < 63)
    && (forall j, k :: 0 <= j < k < |v.used| ==> v.used[j] != v.used[k])
  }

  /** The `k`-th page that was faulted in is mapped to the `k`-th frame of the free list. */
  ghost predicate MappedRight(v: Vm, k: nat, pending: nat)
    requires Shape(v) && k < |v.used|
  {
    var p, f := v.used[k], Frame(v.start, k);
    && v.mapping[p] == AddressOf(f)
    && Marked(v, p, f, pending, Bit(v.pt[p], PTE_A), Bit(v.pt[p], PTE_D))
  }

  /**
    Page `p` is mapped to frame `f` with these two bits.  Only the page whose access is being
    retried may lack A, and without D the frame still equals the image.
   */
  ghost predicate Marked(v: Vm, p: nat, f: nat, pending: nat, a: bool, d: bool)
    requires Shape(v) && p < 63
  {
    && 64 <= f < 127
    && v.pt[p] == EntryOf(AddressOf(f), a, d)
    && (d ==> a)
    && (a || p == pending)
    && (d || v.mem[f] == v.image[p])
  }

  /** A page without a frame has an empty mapping slot; no stale entry is cached; faults are counted. */
  ghost predicate SlotRight(v: Vm, p: nat)
    requires Shape(v) && p < 63
  {
    && (p !in v.used ==> v.pt[p] == 0 && v.mapping[p] == 0)
    && v.tlb[p] == {v.pt[p]}
    && v.faults[p] == Stage(v.pt[p])
    && (1 <= p && p !in v.used ==> v.mem[p] == v.image[p])
  }

  /**
    The invariant.  `pending` is the page whose access is being retried.  With `pending == 0`
    every mapped page has A.
   */
  ghost predicate Good(v: Vm, pending: nat) {
    && Shape(v)
    && (forall k :: 0 <= k < |v.used| ==> MappedRight(v, k, pending))
    && (forall p :: 0 <= p < 63 ==> SlotRight(v, p))
  }

  /** What the user sees at page `p`: the frame if there is one, else the image. */
  ghost function Seen(v: Vm, p: nat): Page
    requires |v.pt| == |v.image| == 63 && p < 63
  {
    if v.pt[p] != 0 && 0 <= FrameOf(v.pt[p]) < |v.mem| then v.mem[FrameOf(v.pt[p])] else v.image[p]
  }

  /** The user's memory as one flat sequence of pages. */
  ghost function Flat(v: Vm): (r: seq<Page>)
    requires |v.pt| == |v.image| == 63
    ensures |r| == 63
  {
    seq(63, p requires 0 <= p < 63 => Seen(v, p))
  }

  /** Nothing is mapped yet, and all 63 nodes are free. */
  ghost function Booted(start: nat, dram: seq<Page>): Vm
    requires |dram| == 127
  {
    Vm(start, seq(63, _ => 0), seq(63, _ => 0), [], dram, dram[..63], seq(63, _ => {0}), seq(63, _ => 0))
  }

  lemma BootedGood(start: nat, dram: seq<Page>)
    requires |dram| == 127 && 1 <= start <= 63
    ensures Good(Booted(start, dram), 0) && Flat(Booted(start, dram)) == dram[..63]
  {
    hide Bit;
    var v := Booted(start, dram);
    assert forall p :: 0 <= p < 63 ==> SlotRight(v, p);
    assert Flat(v) == dram[..63];
  }

  lemma FramesDiffer(start: nat, i: nat, j: nat)
    requires 1 <= start <= 63 && i < 63 && j < 63
    ensures 64 <= Frame(start, i) < 127
    ensures i != j ==> Frame(start, i) != Frame(start, j)
  {
    if i < j {
      Lfsr.AllDifferent(start, i, j);
    } else if j < i {
      Lfsr.AllDifferent(start, j, i);
    }
    Lfsr.LogOfSteps(start, i);
  }

  // ---------------------------------------------------------------------------
  // What each kind of fault does
  // ---------------------------------------------------------------------------

  /** The slot of page `p` after its entry became `e` and the page was flushed. */
  ghost function WithEntry(v: Vm, p: nat, e: nat): Vm
    requires Shape(v) && p < 63
  {
    v.(pt := v.pt[p := e], tlb := v.tlb[p := {e}], faults := v.faults[p := v.faults[p] + 1])
  }

  /** A page without a frame gets the first free one, filled from the image, without A and D. */
  ghost function MapPage(v: Vm, p: nat): Vm
    requires Shape(v) && p < 63 && |v.used| < 63 && 0 <= Frame(v.start, |v.used|) < 127
  {
    var f := Frame(v.start, |v.used|);
    WithEntry(v, p, EntryOf(AddressOf(f), false, false)).(
      mapping := v.mapping[p := AddressOf(f)], used := v.used + [p], mem := v.mem[f := v.mem[p]])
  }

  /** The state `handle_fault` leaves behind. */
  ghost function Handled(v: Vm, p: nat): Vm
    requires Shape(v) && p < 63
  {
    if v.pt[p] != 0 then
      WithEntry(v, p, SetBit(v.pt[p], if Bit(v.pt[p], PTE_A) then PTE_D else PTE_A))
    else if 0 <= Frame(v.start, |v.used|) < 127 then MapPage(v, p) else v
  }

  /** Page `p` has a frame; these are its marks. */
  lemma MarksOf(v: Vm, p: nat, pending: nat) returns (k: nat, f: nat)
    requires Good(v, pending) && p < 63 && p in v.used
    ensures k < |v.used| && v.used[k] == p && f == Frame(v.start, k) && 64 <= f < 127
    ensures v.mapping[p] == AddressOf(f) && FrameOf(v.pt[p]) == f && v.pt[p] != 0
    ensures Marked(v, p, f, pending, Bit(v.pt[p], PTE_A), Bit(v.pt[p], PTE_D))
    ensures forall a: Access :: Faults(v.pt[p], a) == (!Bit(v.pt[p], PTE_A) || (a == Store && !Bit(v.pt[p], PTE_D)))
  {
    hide Bit, Pack, Faults, FrameOf, Frame, SlotRight;
    k :| 0 <= k < |v.used| && v.used[k] == p;
    f := Frame(v.start, k);
    assert MappedRight(v, k, pending);
    EntryFields(f, Bit(v.pt[p], PTE_A), Bit(v.pt[p], PTE_D));
  }

  /** Distinct pages 1 to 62: there are at most 62 of them, so the 63 nodes never run out. */
  lemma {:induction false} AtMost(s: seq<nat>, n: nat)
    requires forall k :: 0 <= k < |s| ==> 1 <= s[k] <= n
    requires forall j, k :: 0 <= j < k < |s| ==> s[j] != s[k]
    ensures |s| <= n
  {
    if n in s {
      var i :| 0 <= i < |s| && s[i] == n;
      AtMost(s[..i] + s[i + 1..], n - 1);
    } else if s != [] {
      assert s[0] < n;
      AtMost(s, n - 1);
    }
  }

  lemma FreeNodeLeft(v: Vm, p: nat)
    requires Shape(v) && 1 <= p < 63 && p !in v.used
    ensures |v.used| < 62
  {
    AtMost(v.used + [p], 62);
  }

  lemma Weaken(v: Vm, p: nat)
    requires Good(v, 0)
    ensures Good(v, p)
  {
    hide Bit, EntryOf, Frame, SlotRight, AddressOf;
    forall k | 0 <= k < |v.used|
      ensures MappedRight(v, k, p)
    {
      assert MappedRight(v, k, 0);
    }
  }

  /**
    Two mapped pages never share a frame, no frame is an image page or still on the free list,
    and the entry's page number gives back the address the node had.
   */
  lemma MappedFramesApart(v: Vm, pending: nat, p: nat, q: nat, free: nat)
    requires Good(v, pending) && p < 63 && q < 63 && p != q && p in v.used && q in v.used
    requires |v.used| <= free < 63
    ensures FrameOf(v.pt[p]) != FrameOf(v.pt[q]) && FrameOf(v.pt[p]) != Frame(v.start, free)
    ensures 64 <= FrameOf(v.pt[p]) < 127 && AddressOf(FrameOf(v.pt[p])) == v.mapping[p]
  {
    hide Bit, EntryOf, FrameOf, Faults, Frame, SlotRight;
    var i, f := MarksOf(v, p, pending);
    var j, g := MarksOf(v, q, pending);
    FramesDiffer(v.start, i, j);
    FramesDiffer(v.start, i, free);
  }

  /** Once the page that was being retried has A, the invariant holds outright. */
  lemma Settle(v: Vm, p: nat)
    requires Good(v, p) && 1 <= p < 63 && (p in v.used ==> Bit(v.pt[p], PTE_A))
    ensures Good(v, 0)
  {
    hide Bit, EntryOf, Frame, SlotRight, AddressOf;
    forall k | 0 <= k < |v.used|
      ensures MappedRight(v, k, 0)
    {
      assert MappedRight(v, k, p);
      assert v.used[k] == p ==> p in v.used;
    }
  }

  // ---------------------------------------------------------------------------
  // The invariant is kept and the user's memory does not change
  // ---------------------------------------------------------------------------

  lemma StageOf(frame: nat, a: bool, d: bool)
    requires d ==> a
    ensures Stage(EntryOf(AddressOf(frame), a, d)) == if !a then 1 else if !d then 2 else 3
  {
    hide Bit, EntryOf, FrameOf, Faults;
    EntryFields(frame, a, d);
  }

  /** A new entry for a page that has a frame: same frame, one more flag. */
  lemma FlagSet(v: Vm, p: nat, a: bool, d: bool) returns (f: nat)
    requires Good(v, p) && 1 <= p < 63 && p in v.used
    requires Bit(v.pt[p], PTE_A) == d && !Bit(v.pt[p], PTE_D) && a
    ensures 64 <= f < 127 && FrameOf(v.pt[p]) == f && v.pt[p] != 0
    ensures var w := WithEntry(v, p, EntryOf(AddressOf(f), a, d));
      Good(w, 0) && Flat(w) == Flat(v) && Stage(w.pt[p]) == Stage(v.pt[p]) + 1
  {
    hide Bit, EntryOf, FrameOf, Faults, Frame, AddressOf, Stage;
    var i;
    i, f := MarksOf(v, p, p);
    var w := WithEntry(v, p, EntryOf(AddressOf(f), a, d));
    EntryFields(f, a, d);
    StageOf(f, a, d);
    StageOf(f, d, false);
    forall k | 0 <= k < |w.used|
      ensures MappedRight(w, k, 0)
    {
      assert MappedRight(v, k, p);
    }
    forall q | 0 <= q < 63
      ensures SlotRight(w, q)
    {
      assert SlotRight(v, q);
    }
    assert Flat(w) == Flat(v);
  }

  lemma MapPageKeeps(v: Vm, p: nat)
    requires Good(v, p) && 1 <= p < 63 && p !in v.used
    ensures |v.used| < 62 && 64 <= Frame(v.start, |v.used|) < 127
    ensures var w := MapPage(v, p);
      Good(w, p) && Flat(w) == Flat(v) && Stage(w.pt[p]) == 1
  {
    hide Bit, EntryOf, FrameOf, Faults, Frame, AddressOf;
    FreeNodeLeft(v, p);
    var n := |v.used|;
    var f := Frame(v.start, n);
    FramesDiffer(v.start, n, n);
    var w := MapPage(v, p);
    EntryFields(f, false, false);
    StageOf(f, false, false);
    assert SlotRight(v, p);
    forall k | 0 <= k < |w.used|
      ensures MappedRight(w, k, p)
    {
      if k < n {
        FramesDiffer(v.start, k, n);
        assert MappedRight(v, k, p);
      }
    }
    forall q | 0 <= q < 63
      ensures SlotRight(w, q)
    {
      assert SlotRight(v, q);
      assert q in w.used <==> q in v.used || q == p;
    }
    forall q | 0 <= q < 63
      ensures Seen(w, q) == Seen(v, q)
    {
      assert SlotRight(v, q);
      if q in v.used {
        var k, g := MarksOf(v, q, p);
        FramesDiffer(v.start, k, n);
      }
    }
  }

  /** Any fault on a page that is not complete: the invariant is kept, and the user sees the same memory. */
  lemma HandledKeeps(v: Vm, p: nat)
    requires Good(v, p) && 1 <= p < 63 && Stage(v.pt[p]) < 3
    ensures var w := Handled(v, p);
      && Good(w, p) && Flat(w) == Flat(v) && w.image == v.image && w.start == v.start
      && Stage(w.pt[p]) == Stage(v.pt[p]) + 1
  {
    hide Bit, EntryOf, FrameOf, Faults, Frame, AddressOf, Flat;
    assert SlotRight(v, p);
    if p in v.used {
      var k, g := MarksOf(v, p, p);
      var a := Bit(v.pt[p], PTE_A);
      SetFlags(AddressOf(g), a, false);
      var f := FlagSet(v, p, true, a);
      Weaken(Handled(v, p), p);
    } else {
      MapPageKeeps(v, p);
    }
  }

  /** The user writes page `p` through its entry. */
  ghost function Written(v: Vm, p: nat, page: Page): Vm
    requires Shape(v) && p < 63 && 0 <= FrameOf(v.pt[p]) < 127
  {
    v.(mem := v.mem[FrameOf(v.pt[p]) := page])
  }

  lemma WrittenKeeps(v: Vm, p: nat, page: Page)
    requires Good(v, 0) && 1 <= p < 63 && p in v.used && Bit(v.pt[p], PTE_D)
    ensures 64 <= FrameOf(v.pt[p]) < 127
    ensures Good(Written(v, p, page), 0) && Flat(Written(v, p, page)) == Flat(v)[p := page]
  {
    hide Bit, EntryOf, FrameOf, Faults, Frame, AddressOf, Stage;
    var i, f := MarksOf(v, p, 0);
    var w := Written(v, p, page);
    forall k | 0 <= k < |w.used|
      ensures MappedRight(w, k, 0)
    {
      FramesDiffer(v.start, k, i);
      assert MappedRight(v, k, 0);
    }
    forall q | 0 <= q < 63
      ensures SlotRight(w, q)
    {
      assert SlotRight(v, q);
    }
    forall q | 0 <= q < 63
      ensures Seen(w, q) == if q == p then page else Seen(v, q)
    {
      assert SlotRight(v, q);
      if q in v.used && q != p {
        var k, g := MarksOf(v, q, 0);
        FramesDiffer(v.start, k, i);
      }
    }
  }

  /** The kernel writes to a page of its own image, perhaps one that the user can load. */
  ghost function KernelWritten(v: Vm, p: nat, page: Page): Vm
    requires Shape(v) && p < 63
  {
    v.(mem := v.mem[p := page], image := if p in v.used then v.image else v.image[p := page])
  }

  /** The user sees it only if the page is not loaded yet. */
  lemma KernelWrittenKeeps(v: Vm, p: nat, page: Page)
    requires Good(v, 0) && 1 <= p < 63
    ensures var w := KernelWritten(v, p, page);
      Good(w, 0) && Flat(w) == if p in v.used then Flat(v) else Flat(v)[p := page]
  {
    hide Bit, EntryOf, FrameOf, Faults, Frame, AddressOf, Stage;
    var w := KernelWritten(v, p, page);
    forall k | 0 <= k < |w.used|
      ensures MappedRight(w, k, 0)
    {
      assert MappedRight(v, k, 0);
    }
    forall q | 0 <= q < 63
      ensures SlotRight(w, q)
      ensures Seen(w, q) == if q == p && p !in v.used then page else Seen(v, q)
    {
      assert SlotRight(v, q);
      if q in v.used {
        var k, f := MarksOf(v, q, 0);
      }
    }
  }

  // ---------------------------------------------------------------------------
  // Flat memory
  // ---------------------------------------------------------------------------

  /** A user access; one access stays inside one page. */
  datatype Op =
    | Get(fetch: bool, addr: nat, len: nat)
    | Put(addr: nat, data: seq<Byte>)

  predicate Fits(op: Op) {
    && 1 <= op.addr / PGSIZE < MAX_TEST_PAGES
    && op.addr % PGSIZE + (if op.Put? then |op.data| else op.len) <= PGSIZE
  }

  function KindOf(op: Op): Access {
    if op.Put? then Store else if op.fetch then Fetch else Load
  }

  /** `page` with `data` written at `offset`. */
  function Patch(page: Page, offset: nat, data: seq<Byte>): Page
    requires offset + |data| <= PGSIZE
  {
    page[..offset] + data + page[offset + |data|..]
  }

  /** One access to a flat memory: what is read, and the memory afterwards. */
  function FlatStep(m: seq<Page>, op: Op): (seq<Byte>, seq<Page>)
    requires |m| == 63 && Fits(op)
  {
    var p, off := op.addr / PGSIZE, op.addr % PGSIZE;
    match op
    case Get(_, _, len) => (m[p][off..off + len], m)
    case Put(_, data) => ([], m[p := Patch(m[p], off, data)])
  }

  /** All results of a run, and the memory at the end. */
  function FlatRun(m: seq<Page>, ops: seq<Op>): (r: (seq<seq<Byte>>, seq<Page>))
    requires |m| == 63 && forall k :: 0 <= k < |ops| ==> Fits(ops[k])
    ensures |r.0| == |ops| && |r.1| == 63
    decreases |ops|
  {
    if ops == [] then ([], m) else
      var before := FlatRun(m, ops[..|ops| - 1]);
      var (got, after) := FlatStep(before.1, ops[|ops| - 1]);
      (before.0 + [got], after)
  }

  // ---------------------------------------------------------------------------
  // A user program and a kernel that share the image
  // ---------------------------------------------------------------------------

  /** The user makes an access, or the kernel changes one of its own pages. */
  datatype Action =
    | User(op: Op)
    | Kernel(page: nat, content: Page)

  predicate Allowed(a: Action) {
    match a
    case User(op) => Fits(op)
    case Kernel(p, _) => 1 <= p < MAX_TEST_PAGES
  }

  predicate AllAllowed(acts: seq<Action>) {
    forall k :: 0 <= k < |acts| ==> Allowed(acts[k])
  }

  /**
    The user's flat memory, the kernel's image, the pages in the order of their first accesses, and those stored
    to.
   */
  datatype World = World(flat: seq<Page>, image: seq<Page>, touched: seq<nat>, stored: set<nat>)

  predicate Sized(w: World) {
    |w.flat| == |w.image| == 63
  }

  /** What one action does: a page that was never accessed shows what the kernel writes to it. */
  function WorldStep(w: World, a: Action): (r: (seq<seq<Byte>>, World))
    requires Sized(w) && Allowed(a)
    ensures Sized(r.1)
  {
    match a
    case User(op) =>
      var p, (got, after) := op.addr / PGSIZE, FlatStep(w.flat, op);
      var touched := if p in w.touched then w.touched else w.touched + [p];
      ([got], World(after, w.image, touched, if op.Put? then w.stored + {p} else w.stored))
    case Kernel(p, content) =>
      ([], w.(flat := if p in w.touched then w.flat else w.flat[p := content], image := w.image[p := content]))
  }

  /** The results of all accesses, and the world at the end. */
  function WorldRun(w: World, acts: seq<Action>): (r: (seq<seq<Byte>>, World))
    requires Sized(w) && AllAllowed(acts)
    ensures Sized(r.1)
    decreases |acts|
  {
    if acts == [] then ([], w) else
      var before := WorldRun(w, acts[..|acts| - 1]);
      var (got, after) := WorldStep(before.1, acts[|acts| - 1]);
      (before.0 + got, after)
  }

  function Loaded(image: seq<Page>): World {
    World(image, image, [], {})
  }

  /** Every accessed page was stored to, or is still as the kernel has it. */
  predicate Survives(w: World)
    requires Sized(w)
  {
    forall p :: p in w.touched && p < MAX_TEST_PAGES ==> p in w.stored || w.flat[p] == w.image[p]
  }

  /** The user's accesses. */
  function Ops(acts: seq<Action>): (ops: seq<Op>)
    decreases |acts|
  {
    if acts == [] then [] else
      Ops(acts[..|acts| - 1]) + (if acts[|acts| - 1].User? then [acts[|acts| - 1].op] else [])
  }

  /** The user stays away from the pages that the kernel changes. */
  predicate Apart(acts: seq<Action>, kernel: set<nat>) {
    forall k :: 0 <= k < |acts| ==>
      match acts[k]
      case User(op) => op.addr / PGSIZE !in kernel
      case Kernel(p, _) => p in kernel
  }

  /** What a run leaves alone when the two stay apart. */
  predicate Separate(w: World, flat: seq<Page>, kernel: set<nat>) {
    && Sized(w) && |flat| == 63
    && (forall p :: 0 <= p < 63 && p !in kernel ==> w.flat[p] == flat[p])
    && (forall p :: 0 <= p < 63 && p !in kernel && p !in w.stored ==> w.flat[p] == w.image[p])
    && (forall p :: p in w.touched ==> p !in kernel)
  }

  lemma SeparateStep(w: World, a: Action, flat: seq<Page>, kernel: set<nat>)
    requires Separate(w, flat, kernel) && Allowed(a) && Apart([a], kernel)
    ensures var (got, after) := WorldStep(w, a);
      match a
      case User(op) => got == [FlatStep(flat, op).0] && Separate(after, FlatStep(flat, op).1, kernel)
      case Kernel(_, _) => got == [] && Separate(after, flat, kernel)
  {
    assert match [a][0] case User(op) => op.addr / PGSIZE !in kernel case Kernel(p, _) => p in kernel;
    hide Patch;
  }

  /**
    When the user stays away from the pages that the kernel changes, the accesses see one flat
    memory that starts as the image, and the sweep's asserts hold.
   */
  lemma {:induction false} ApartSurvives(image: seq<Page>, acts: seq<Action>, kernel: set<nat>)
    requires |image| == 63 && AllAllowed(acts) && Apart(acts, kernel)
    ensures forall k :: 0 <= k < |Ops(acts)| ==> Fits(Ops(acts)[k])
    ensures var (results, w) := WorldRun(Loaded(image), acts);
      && results == FlatRun(image, Ops(acts)).0 && Survives(w)
      && Separate(w, FlatRun(image, Ops(acts)).1, kernel)
    decreases |acts|
  {
    if acts != [] {
      var before, a := acts[..|acts| - 1], acts[|acts| - 1];
      assert Allowed(a) && Apart([a], kernel) by {
        assert [a][0] == acts[|acts| - 1];
      }
      assert AllAllowed(before) && Apart(before, kernel);
      ApartSurvives(image, before, kernel);
      var w := WorldRun(Loaded(image), before).1;
      SeparateStep(w, a, FlatRun(image, Ops(before)).1, kernel);
      if a.User? {
        assert Ops(acts)[..|Ops(acts)| - 1] == Ops(before);
      } else {
        assert Ops(acts) == Ops(before);
      }
      hide WorldStep, FlatStep;
    }
  }

  /** Otherwise an assert can fire: a page is loaded, and then the kernel changes it. */
  lemma LoadedThenChanged(image: seq<Page>, addr: nat, page: Page)
    requires |image| == 63 && 1 <= addr / PGSIZE < MAX_TEST_PAGES && page != image[addr / PGSIZE]
    ensures var acts := [User(Get(false, addr, 0)), Kernel(addr / PGSIZE, page)];
      AllAllowed(acts) && !Survives(WorldRun(Loaded(image), acts).1)
  {
    var load, change := User(Get(false, addr, 0)), Kernel(addr / PGSIZE, page);
    assert [load, change][..1] == [load] && [load][..0] == [];
    assert WorldRun(Loaded(image), []) == ([], Loaded(image));
    var w := WorldRun(Loaded(image), [load]).1;
    assert addr / PGSIZE in w.touched && w.flat == image && w.stored == {};
  }

  // ---------------------------------------------------------------------------
  // The sweep at the end of a test
  // ---------------------------------------------------------------------------

  /** Memory `m` when pages 1 to `done - 1` of state `v` have been evicted. */
  ghost predicate Swept(v: Vm, m: seq<Page>, done: nat)
    requires Shape(v)
  {
    && |m| == 127
    && (forall p :: 1 <= p < 63 ==> m[p] == v.mem[p])
    && (forall k :: 0 <= k < |v.used| ==> FrameSwept(v, m, done, k))
  }

  /** The frame of an evicted page equals the kernel's page again; the others are as they were. */
  ghost predicate FrameSwept(v: Vm, m: seq<Page>, done: nat, k: nat)
    requires Shape(v) && |m| == 127 && k < |v.used|
  {
    var f := Frame(v.start, k);
    && 64 <= f < 127
    && m[f] == if v.used[k] < done then v.mem[v.used[k]] else v.mem[f]
  }

  lemma NothingSwept(v: Vm)
    requires Good(v, 0)
    ensures Swept(v, v.mem, 1)
  {
    hide Bit, EntryOf, FrameOf, Frame, AddressOf;
    forall k | 0 <= k < |v.used|
      ensures FrameSwept(v, v.mem, 1, k)
    {
      assert MappedRight(v, k, 0);
    }
  }

  /** One page is swept: its frame is overwritten with the image, or equals it already. */
  lemma PageSwept(v: Vm, m: seq<Page>, p: nat, f: nat)
    requires Good(v, 0) && 1 <= p < 63 && Swept(v, m, p)
    requires p in v.used ==> f == FrameOf(v.pt[p]) && 64 <= f < 127
    ensures Swept(v, if p in v.used then m[f := m[p]] else m, p + 1)
  {
    hide Bit, EntryOf, FrameOf, Frame, AddressOf, Faults;
    var done := p + 1;
    if p in v.used {
      var i, g := MarksOf(v, p, 0);
      var n := m[f := m[p]];
      forall k | 0 <= k < |v.used|
        ensures FrameSwept(v, n, done, k)
      {
        FramesDiffer(v.start, k, i);
        assert FrameSwept(v, m, p, k);
      }
    } else {
      forall k | 0 <= k < |v.used|
        ensures FrameSwept(v, m, done, k)
      {
        assert FrameSwept(v, m, p, k);
      }
    }
  }

  /** The assert on D holds for page `p`: if it is mapped, it has D or its frame equals the kernel's page. */
  ghost predicate Evictable(v: Vm, p: nat)
    requires |v.pt| == 63 && |v.mem| == 127 && p < 63
  {
    p in v.used && 0 <= FrameOf(v.pt[p]) < 127 && v.mem[FrameOf(v.pt[p])] != v.mem[p] ==> Bit(v.pt[p], PTE_D)
  }

  /** What the sweep finds at page `p`: a mapped page has A, and what it compares is as before the sweep. */
  lemma SweepAsserts(v: Vm, m: seq<Page>, p: nat)
    requires Good(v, 0) && 1 <= p < 63 && Swept(v, m, p)
    ensures p in v.used <==> v.mapping[p] != 0
    ensures p in v.used ==> 64 <= FrameOf(v.pt[p]) < 127 && Bit(v.pt[p], PTE_A) && !Faults(v.pt[p], Load)
    ensures p in v.used ==> (Evictable(v, p) <==> m[FrameOf(v.pt[p])] == m[p] || Bit(v.pt[p], PTE_D))
    ensures p in v.used && Bit(v.pt[p], PTE_D) ==> !Faults(v.pt[p], Store)
  {
    hide Bit, EntryOf, FrameOf, Frame, Faults;
    assert SlotRight(v, p);
    if p in v.used {
      var i, g := MarksOf(v, p, 0);
      assert FrameSwept(v, m, p, i);
    }
  }

  /** The page table and the world agree on what was accessed and stored to. */
  ghost predicate Shows(v: Vm, w: World)
    requires Shape(v) && Sized(w)
  {
    && Flat(v) == w.flat
    && (forall p :: 1 <= p < 63 ==> v.mem[p] == w.image[p])
    && v.used == w.touched
    && (forall p :: p in w.stored ==> p in w.touched)
    && (forall p :: p in v.used ==> p < 63 && (p in w.stored <==> Bit(v.pt[p], PTE_D)))
  }

  /** The sweep's asserts hold exactly when the world survives. */
  lemma SurvivesMeans(v: Vm, w: World)
    requires Good(v, 0) && Sized(w) && Shows(v, w)
    ensures Survives(w) <==> forall p :: 1 <= p < 63 ==> Evictable(v, p)
  {
    hide Bit, EntryOf, FrameOf, Frame, AddressOf, Faults;
    forall p | 1 <= p < 63 && p in v.used
      ensures Evictable(v, p) <==> p in w.stored || w.flat[p] == w.image[p]
    {
      var k, f := MarksOf(v, p, 0);
      assert Flat(v)[p] == v.mem[f];
    }
    forall p | p in w.touched && p < MAX_TEST_PAGES
      ensures 1 <= p < 63
    {
      var k :| 0 <= k < |v.used| && v.used[k] == p;
    }
    hide Evictable, Flat;
  }

  /** How a fault, or several, on page `p` change the marks: other pages' stay, and D is set only for a store. */
  ghost predicate Marks(v: Vm, w: Vm, p: nat, store: bool)
    requires Shape(v) && Shape(w) && p < 63
  {
    && (forall q :: 1 <= q < 63 ==> w.mem[q] == v.mem[q])
    && (w.used == v.used || (p !in v.used && w.used == v.used + [p]))
    && (forall q :: 0 <= q < 63 && q != p ==> w.pt[q] == v.pt[q])
    && (Bit(v.pt[p], PTE_D) ==> Bit(w.pt[p], PTE_D))
    && (Bit(w.pt[p], PTE_D) ==> Bit(v.pt[p], PTE_D) || store)
  }

  lemma MarksTwice(u: Vm, v: Vm, w: Vm, p: nat, store: bool)
    requires Shape(u) && Shape(v) && Shape(w) && p < 63 && Marks(u, v, p, store) && Marks(v, w, p, store)
    ensures Marks(u, w, p, store)
  {
    hide Bit;
  }

  lemma HandledMarks(v: Vm, p: nat, cause: Access)
    requires Good(v, p) && 1 <= p < 63 && Faults(v.pt[p], cause)
    ensures Stage(v.pt[p]) < 3 && Shape(Handled(v, p)) && Marks(v, Handled(v, p), p, cause == Store)
  {
    hide Bit, EntryOf, FrameOf, Faults, Frame, AddressOf, Flat;
    assert SlotRight(v, p);
    if p in v.used {
      var k, f := MarksOf(v, p, p);
      var a := Bit(v.pt[p], PTE_A);
      assert !Bit(v.pt[p], PTE_D);
      SetFlags(AddressOf(f), a, false);
      EntryFields(f, true, a);
      var g := FlagSet(v, p, true, a);
    } else {
      MapPageKeeps(v, p);
      ZeroHasNoBits(PTE_D);
      EntryFields(Frame(v.start, |v.used|), false, false);
    }
  }

  /** The `i`-th page that was faulted in has the `i`-th frame in its entry. */
  lemma EntriesHold(v: Vm, i: nat)
    requires Good(v, 0) && i < |v.used|
    ensures v.used[i] < 63 && v.pt[v.used[i]] / 0x400 == AddressOf(Frame(v.start, i)) / 0x1000
  {
    hide Bit, EntryOf, Frame, AddressOf, SlotRight;
    assert MappedRight(v, i, 0);
    var p := v.used[i];
    EntryNumber(AddressOf(Frame(v.start, i)), Bit(v.pt[p], PTE_A), Bit(v.pt[p], PTE_D));
  }
}
