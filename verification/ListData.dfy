/**
  The cells of CoreMark's linked list and the two comparators that the sort calls
  (`sw/coremark/core_list_join.c`, lines 62-117).

  A `data16` is held as the unsigned value of its 16 bits: the upper byte is the backup of
  the original data, bit 7 says that the lower seven bits are a cached result.
 */
module CoreListData {
  import Bits
  import Crc

  type U16 = x: int | 0 <= x < 0x10000
  type S16 = x: int | -0x8000 <= x < 0x8000

  class ListData {
    var data16: U16
    var idx: S16

    constructor (data16: U16, idx: S16)
      ensures this.data16 == data16 && this.idx == idx
    {
      this.data16, this.idx := data16, idx;
    }
  }

  class ListHead {
    var next: ListHead?
    var info: ListData

    constructor (info: ListData)
      ensures this.info == info && next == null
    {
      this.info, this.next := info, null;
    }
  }

  /** The fields of `core_results` that the list code touches. */
  class CoreResults {
    var seed3: S16
    var list: ListHead
    var crc: U16
    var crcstate: U16
    var crcmatrix: U16
    ghost var start: Start   // what the sort under way started from
    ghost var log: seq<U16>  // results of the operations it has run

    constructor (list: ListHead, seed3: S16)
      ensures this.list == list && this.seed3 == seed3
    {
      this.list, this.seed3 := list, seed3;
    }
  }

  function Upper(d: U16): U16 {
    d / 0x100
  }

  function Lower(d: U16): U16 {
    d % 0x100
  }

  predicate Cached(d: U16) {
    (d / 0x80) % 2 == 1
  }

  function CachedValue(d: U16): U16 {
    d % 0x80
  }

  /** The lower byte is the backup in the upper byte. */
  predicate Regenerated(d: U16) {
    Lower(d) == Upper(d)
  }

  function ToWord(w: U16): Crc.Word {
    Bits.BitsOf(w, 16)
  }

  function OfWord(w: Crc.Word): U16 {
    Bits.BitsOfNat(w);
    Bits.PowerOf16();
    Bits.NatOf(w)
  }

  /** `crc16(w, c)` on numbers. */
  function Crc16(w: U16, c: U16): U16 {
    OfWord(Crc.Fold([ToWord(w)], ToWord(c)))
  }

  /** Storing a seven-bit result with the cached bit keeps the upper byte. */
  lemma StoreCached(d: U16, v: int)
    requires 0 <= v < 0x80
    ensures 0 <= Upper(d) * 0x100 + 0x80 + v < 0x10000
    ensures var d' := Upper(d) * 0x100 + 0x80 + v; Upper(d') == Upper(d) && Cached(d') && CachedValue(d') == v
  {
  }

  lemma StoreBackup(d: U16)
    ensures 0 <= Upper(d) * 0x100 + Upper(d) < 0x10000
    ensures var d' := Upper(d) * 0x100 + Upper(d);
      Upper(d') == Upper(d) && Regenerated(d') && (Regenerated(d) ==> d' == d)
  {
  }

  // ---------------------------------------------------------------------------
  // Comparators
  // ---------------------------------------------------------------------------

  /** `core_bench_state` and `core_bench_matrix`: any result. */
  method BenchState(step: U16, crc: U16) returns (r: U16) {
    r := *;
  }

  method BenchMatrix(seed: U16, crc: U16) returns (r: U16) {
    r := *;
  }

  /**
    The switch at lines 70-86: the operation that bits 0-2 select, on the input in bits 3-6,
    which is given twice.  The step of the state machine is at least 0x22.
   */
  method RunOperation(data: U16, res: CoreResults) returns (retval: U16, ghost input: U16)
    modifies res`crcstate, res`crcmatrix
    ensures data % 8 >= 2 ==> retval == data
    ensures data % 8 != 0 ==> res.crcstate == old(res.crcstate)
    ensures data % 8 != 1 ==> res.crcmatrix == old(res.crcmatrix)
    ensures data % 8 == 0 ==> res.crcstate == if old(res.crcstate) == 0 then retval else old(res.crcstate)
    ensures data % 8 == 1 ==> res.crcmatrix == if old(res.crcmatrix) == 0 then retval else old(res.crcmatrix)
    ensures data % 8 == 1 ==> input % 0x10 == data / 8 % 0x10 && input / 0x10 == data / 8 % 0x10
    ensures data % 8 == 0 && data / 8 % 0x10 >= 2 ==> input % 0x10 == data / 8 % 0x10 && input / 0x10 == data / 8 % 0x10
    ensures data % 8 == 0 && data / 8 % 0x10 < 2 ==> input == 0x22
  {
    var flag := data % 8;
    var dtype := (data / 8) % 16;
    dtype := dtype + 16 * dtype;
    if flag == 0 {
      if dtype < 0x22 {
        dtype := 0x22;
      }
      retval := BenchState(dtype, res.crc);
      if res.crcstate == 0 {
        res.crcstate := retval;
      }
    } else if flag == 1 {
      retval := BenchMatrix(dtype, res.crc);
      if res.crcmatrix == 0 {
        res.crcmatrix := retval;
      }
    } else {
      retval := data;
    }
    input := dtype;
  }

  /** `raw` is the untruncated result of the operation, when one is run. */
  method CalcFunc(d: ListData, res: CoreResults) returns (r: int, ghost raw: U16)
    modifies d`data16, res`crc, res`crcstate, res`crcmatrix
    ensures Cached(d.data16) && r == CachedValue(d.data16)
    ensures Upper(d.data16) == Upper(old(d.data16))
    ensures old(d.data16) / 0x80 % 2 == 1 ==> d.data16 == old(d.data16) && unchanged(res)
    ensures old(d.data16) / 0x80 % 2 == 0 ==>
      && Stored(old(d.data16), d.data16, raw) && r == raw % 0x80
      && res.crc == Crc16(raw, old(res.crc))
      && res.crcstate == FirstOf(0, old(d.data16), raw, old(res.crcstate))
      && res.crcmatrix == FirstOf(1, old(d.data16), raw, old(res.crcmatrix))
  {
    var data := d.data16;
    raw := data;
    if Cached(data) {
      r := CachedValue(data);
    } else {
      ghost var input;
      var retval;
      retval, input := RunOperation(data, res);
      raw := retval;
      res.crc := Crc16(retval, res.crc);
      r := retval % 0x80;
      StoreCached(data, r);
      d.data16 := Upper(data) * 0x100 + 0x80 + r;
    }
  }

  /** Operation `op`'s register after one more result: the first result other than zero stays. */
  ghost function FirstOf(op: nat, data: U16, result: U16, register: U16): U16 {
    if register == 0 && data % 8 == op then result else register
  }

  /** A data word before and after its operation was run: an unknown operation gives the word itself. */
  ghost predicate Stored(before: U16, after: U16, result: U16) {
    && (before % 8 >= 2 ==> result == before)
    && after / 0x100 == before / 0x100 && after % 0x100 == 0x80 + result % 0x80
  }

  datatype Comparator = CmpComplex | CmpIdx

  /** Has the comparator already been applied to this data?  From then on it leaves it alone. */
  ghost predicate SettledWord(cmp: Comparator, res: CoreResults?, data16: U16) {
    match cmp
    case CmpComplex => Cached(data16)
    case CmpIdx => res == null ==> Regenerated(data16)
  }

  ghost predicate Settled(cmp: Comparator, res: CoreResults?, d: ListData)
    reads d`data16
  {
    SettledWord(cmp, res, d.data16)
  }

  /** What the comparator compares, once settled. */
  ghost function KeyOf(cmp: Comparator, d: ListData): int
    reads d`data16, d`idx
  {
    match cmp
    case CmpComplex => CachedValue(d.data16)
    case CmpIdx => d.idx
  }

  datatype Datum = Datum(data16: U16, idx: S16)

  ghost function DataOf(infos: set<ListData>): map<ListData, Datum>
    reads infos`data16, infos`idx
  {
    map d | d in infos :: Datum(d.data16, d.idx)
  }

  /**
    What comparisons may do to the data: `idx` and upper byte stay, and the rest changes at
    most once, from unsettled to settled.
   */
  ghost predicate Refreshed(cmp: Comparator, res: CoreResults?, a: map<ListData, Datum>, b: map<ListData, Datum>) {
    && a.Keys == b.Keys
    && forall d :: d in a.Keys ==>
      && b[d].idx == a[d].idx
      && Upper(b[d].data16) == Upper(a[d].data16)
      && (b[d].data16 == a[d].data16 || (!SettledWord(cmp, res, a[d].data16) && SettledWord(cmp, res, b[d].data16)))
  }

  lemma RefreshedNot(cmp: Comparator, res: CoreResults?, a: map<ListData, Datum>)
    ensures Refreshed(cmp, res, a, a)
  {
  }

  lemma RefreshedTwice(cmp: Comparator, res: CoreResults?, a: map<ListData, Datum>, b: map<ListData, Datum>,
                       c: map<ListData, Datum>)
    requires Refreshed(cmp, res, a, b) && Refreshed(cmp, res, b, c)
    ensures Refreshed(cmp, res, a, c)
  {
  }

  /** The results structure a comparison may write to, if one is passed. */
  ghost function Results(res: CoreResults?): set<CoreResults> {
    if res == null then {} else {res}
  }

  // ---------------------------------------------------------------------------
  // Which operations were run, in which order
  // ---------------------------------------------------------------------------

  /** The registers that the operations write. */
  datatype Tally = Tally(crc: U16, crcstate: U16, crcmatrix: U16)

  ghost function TallyOf(res: CoreResults): Tally
    reads res`crc, res`crcstate, res`crcmatrix
  {
    Tally(res.crc, res.crcstate, res.crcmatrix)
  }

  /** Nodes in list order, the cells they point to, and all data and registers at that moment. */
  datatype Start = Start(nodes: seq<ListHead>, cells: seq<ListData>, data: map<ListData, Datum>, tally: Tally)

  /** The CRC of results, from a start value. */
  ghost function CrcOf(results: seq<U16>, c: U16): U16 {
    OfWord(Crc.Fold(seq(|results|, i requires 0 <= i < |results| => ToWord(results[i])), ToWord(c)))
  }

  /** Those of `cells` that have no cached result, each where it comes first. */
  ghost function Fresh(data: map<ListData, Datum>, cells: seq<ListData>): seq<ListData>
    decreases |cells|
  {
    if cells == [] then [] else
      var before, c := cells[..|cells| - 1], cells[|cells| - 1];
      Fresh(data, before) + (if c !in before && c in data && data[c].data16 / 0x80 % 2 == 0 then [c] else [])
  }

  /** Operation `op`'s register after these results of these cells. */
  ghost function FirstNonzero(op: nat, data: map<ListData, Datum>, cells: seq<ListData>, results: seq<U16>, c: U16): U16
    requires |results| == |cells| && forall d :: d in cells ==> d in data
    decreases |cells|
  {
    if cells == [] then c else
      var n := |cells| - 1;
      FirstOf(op, data[cells[n]].data16, results[n], FirstNonzero(op, data, cells[..n], results[..n], c))
  }

  /**
    `calc_func` was called on these cells, in this order: it ran one operation for each cell that
    had no cached result, when it first came to it, and these are the results.
   */
  ghost predicate Ran(d0: map<ListData, Datum>, t0: Tally, cells: seq<ListData>, results: seq<U16>,
                      d1: map<ListData, Datum>, t1: Tally)
  {
    var newly := Fresh(d0, cells);
    && d1.Keys == d0.Keys && (forall c :: c in cells ==> c in d0) && (forall c :: c in newly ==> c in d0)
    && |results| == |newly|
    && t1 == Tally(CrcOf(results, t0.crc),
                   FirstNonzero(0, d0, newly, results, t0.crcstate), FirstNonzero(1, d0, newly, results, t0.crcmatrix))
    && (forall k :: 0 <= k < |newly| ==> StoredIn(d0, d1, newly[k], results[k]))
    && (forall c :: c in cells ==> d1[c].data16 / 0x80 % 2 == 1)
    && (forall c :: c in d0 && c !in newly ==> d1[c] == d0[c])
  }

  ghost predicate StoredIn(d0: map<ListData, Datum>, d1: map<ListData, Datum>, c: ListData, result: U16)
    requires c in d0 && c in d1
  {
    Stored(d0[c].data16, d1[c].data16, result) && d1[c].idx == d0[c].idx
  }

  lemma StoredCached(before: U16, after: U16, result: U16)
    requires Stored(before, after, result)
    ensures after / 0x80 % 2 == 1
  {
  }

  lemma {:induction false} FreshIn(data: map<ListData, Datum>, cells: seq<ListData>)
    ensures forall c :: c in Fresh(data, cells) <==> c in cells && c in data && data[c].data16 / 0x80 % 2 == 0
    decreases |cells|
  {
    if cells != [] {
      FreshIn(data, cells[..|cells| - 1]);
      assert cells == cells[..|cells| - 1] + [cells[|cells| - 1]];
    }
  }

  lemma FreshNext(data: map<ListData, Datum>, cells: seq<ListData>, c: ListData)
    ensures Fresh(data, cells + [c]) ==
      Fresh(data, cells) + (if c !in cells && c in data && data[c].data16 / 0x80 % 2 == 0 then [c] else [])
  {
    assert (cells + [c])[..|cells|] == cells;
  }

  lemma CrcOfNone(c: U16)
    ensures CrcOf([], c) == c
  {
    OneWord(c);
  }

  /** A number fits its 16 digits. */
  lemma OneWord(c: U16)
    ensures OfWord(ToWord(c)) == c
  {
    Bits.PowerOf16();
    Bits.NatOfBits(c, 16);
  }

  lemma WordOf(w: Crc.Word)
    ensures ToWord(OfWord(w)) == w
  {
    Bits.BitsOfNat(w);
  }

  lemma CrcOfNext(results: seq<U16>, r: U16, c: U16)
    ensures CrcOf(results + [r], c) == Crc16(r, CrcOf(results, c))
  {
    hide Crc.Fold, ToWord, OfWord;
    var a := seq(|results|, i requires 0 <= i < |results| => ToWord(results[i]));
    var b := seq(|results| + 1, i requires 0 <= i < |results| + 1 => ToWord((results + [r])[i]));
    assert b == a + [ToWord(r)];
    Crc.TwoParts(a, [ToWord(r)], ToWord(c));
    WordOf(Crc.Fold(a, ToWord(c)));
  }

  lemma RanNone(d: map<ListData, Datum>, t: Tally)
    ensures Ran(d, t, [], [], d, t)
  {
    CrcOfNone(t.crc);
  }

  /** What one call of `calc_func` on cell `c` does to the data and the registers. */
  ghost predicate Called(d0: map<ListData, Datum>, t0: Tally, c: ListData, raw: U16, d1: map<ListData, Datum>,
                         t1: Tally)
  {
    && c in d0 && c in d1
    && if d0[c].data16 / 0x80 % 2 == 1 then d1 == d0 && t1 == t0 else
      && d1 == d0[c := d1[c]] && StoredIn(d0, d1, c, raw)
      && t1 == Tally(Crc16(raw, t0.crc), FirstOf(0, d0[c].data16, raw, t0.crcstate),
                     FirstOf(1, d0[c].data16, raw, t0.crcmatrix))
  }

  /** One more call, on a cell with a cached result. */
  lemma RanCached(d0: map<ListData, Datum>, t0: Tally, cells: seq<ListData>, results: seq<U16>,
                  d1: map<ListData, Datum>, t1: Tally, c: ListData)
    requires Ran(d0, t0, cells, results, d1, t1) && c in d1 && d1[c].data16 / 0x80 % 2 == 1
    ensures Ran(d0, t0, cells + [c], results, d1, t1)
  {
    FreshIn(d0, cells);
    FreshNext(d0, cells, c);
    assert Fresh(d0, cells + [c]) == Fresh(d0, cells);
    hide CrcOf, Fresh, FirstNonzero, StoredIn;
  }

  lemma {:induction false} FirstNonzeroNext(op: nat, data: map<ListData, Datum>, cells: seq<ListData>,
                                            results: seq<U16>, c: U16, cell: ListData, raw: U16)
    requires |results| == |cells| && (forall d :: d in cells ==> d in data) && cell in data
    ensures FirstNonzero(op, data, cells + [cell], results + [raw], c) ==
      FirstOf(op, data[cell].data16, raw, FirstNonzero(op, data, cells, results, c))
  {
    assert (cells + [cell])[..|cells|] == cells && (results + [raw])[..|results|] == results;
  }

  /** One more call, on a cell without one. */
  lemma RanUncached(d0: map<ListData, Datum>, t0: Tally, cells: seq<ListData>, results: seq<U16>,
                    d1: map<ListData, Datum>, t1: Tally, c: ListData, raw: U16, d2: map<ListData, Datum>, t2: Tally)
    requires Ran(d0, t0, cells, results, d1, t1) && c in d1 && d1[c].data16 / 0x80 % 2 == 0
    requires Called(d1, t1, c, raw, d2, t2)
    ensures Ran(d0, t0, cells + [c], results + [raw], d2, t2)
  {
    var first := Fresh(d0, cells);
    FreshIn(d0, cells);
    hide CrcOf, Fresh, FirstNonzero, FirstOf, Crc16, Stored;
    FreshNext(d0, cells, c);
    assert c !in cells && d1[c] == d0[c];
    assert Fresh(d0, cells + [c]) == first + [c];
    CrcOfNext(results, raw, t0.crc);
    FirstNonzeroNext(0, d0, first, results, t0.crcstate, c, raw);
    FirstNonzeroNext(1, d0, first, results, t0.crcmatrix, c, raw);
    forall k | 0 <= k < |first| + 1
      ensures StoredIn(d0, d2, (first + [c])[k], (results + [raw])[k])
    {
      if k < |first| {
        assert StoredIn(d0, d1, first[k], results[k]) && first[k] in cells;
      }
    }
    StoredCached(d1[c].data16, d2[c].data16, raw);
    RanParts(d0, t0, cells + [c], results + [raw], d2, t2, first + [c]);
  }

  lemma RanParts(d0: map<ListData, Datum>, t0: Tally, cells: seq<ListData>, results: seq<U16>,
                 d1: map<ListData, Datum>, t1: Tally, first: seq<ListData>)
    requires first == Fresh(d0, cells) && d1.Keys == d0.Keys && |results| == |first|
    requires (forall c :: c in cells ==> c in d0) && (forall c :: c in first ==> c in d0)
    requires t1 == Tally(CrcOf(results, t0.crc), FirstNonzero(0, d0, first, results, t0.crcstate),
                         FirstNonzero(1, d0, first, results, t0.crcmatrix))
    requires forall k :: 0 <= k < |first| ==> StoredIn(d0, d1, first[k], results[k])
    requires forall c :: c in cells ==> d1[c].data16 / 0x80 % 2 == 1
    requires forall c :: c in d0 && c !in first ==> d1[c] == d0[c]
    ensures Ran(d0, t0, cells, results, d1, t1)
  {
  }

  /** One more call. */
  lemma RanNext(d0: map<ListData, Datum>, t0: Tally, cells: seq<ListData>, results: seq<U16>,
                d1: map<ListData, Datum>, t1: Tally, c: ListData, raw: U16, d2: map<ListData, Datum>, t2: Tally)
    requires Ran(d0, t0, cells, results, d1, t1) && Called(d1, t1, c, raw, d2, t2)
    ensures Ran(d0, t0, cells + [c], if d1[c].data16 / 0x80 % 2 == 1 then results else results + [raw], d2, t2)
  {
    hide Ran;
    if d1[c].data16 / 0x80 % 2 == 1 {
      RanCached(d0, t0, cells, results, d1, t1, c);
    } else {
      RanUncached(d0, t0, cells, results, d1, t1, c, raw, d2, t2);
    }
  }

  lemma CrcOfTwo(a: seq<U16>, b: seq<U16>, c: U16)
    ensures CrcOf(a + b, c) == CrcOf(b, CrcOf(a, c))
  {
    hide Crc.Fold, ToWord, OfWord;
    var x := seq(|a|, i requires 0 <= i < |a| => ToWord(a[i]));
    var y := seq(|b|, i requires 0 <= i < |b| => ToWord(b[i]));
    assert seq(|a + b|, i requires 0 <= i < |a + b| => ToWord((a + b)[i])) == x + y;
    Crc.TwoParts(x, y, ToWord(c));
    WordOf(Crc.Fold(x, ToWord(c)));
  }

  /** What is new after `a` is what had no result before, and is not in `a`. */
  lemma {:induction false} FreshTwo(d0: map<ListData, Datum>, d1: map<ListData, Datum>, a: seq<ListData>,
                                    b: seq<ListData>)
    requires d1.Keys == d0.Keys
    requires forall c :: c in d0 ==>
      (d1[c].data16 / 0x80 % 2 == 0 <==> d0[c].data16 / 0x80 % 2 == 0 && c !in a)
    ensures Fresh(d0, a + b) == Fresh(d0, a) + Fresh(d1, b)
    decreases |b|
  {
    if b == [] {
      assert a + b == a;
    } else {
      var before, c := b[..|b| - 1], b[|b| - 1];
      FreshTwo(d0, d1, a, before);
      assert a + b == a + before + [c];
      FreshNext(d0, a + before, c);
    }
  }

  lemma {:induction false} FirstNonzeroTwo(op: nat, d0: map<ListData, Datum>, d1: map<ListData, Datum>,
                                           a: seq<ListData>, b: seq<ListData>, r: seq<U16>, s: seq<U16>, c: U16)
    requires |r| == |a| && |s| == |b| && (forall d :: d in a ==> d in d0) && forall d :: d in b ==> d in d0 && d in d1
    requires forall d :: d in b ==> d1[d].data16 == d0[d].data16
    ensures FirstNonzero(op, d0, a + b, r + s, c) == FirstNonzero(op, d1, b, s, FirstNonzero(op, d0, a, r, c))
    decreases |b|
  {
    if b == [] {
      assert a + b == a && r + s == r;
    } else {
      var n := |b| - 1;
      FirstNonzeroTwo(op, d0, d1, a, b[..n], r, s[..n], c);
      assert a + b == a + b[..n] + [b[n]] && r + s == r + s[..n] + [s[n]];
      FirstNonzeroNext(op, d0, a + b[..n], r + s[..n], c, b[n], s[n]);
    }
  }

  /** Calls, and then more calls. */
  lemma RanTwice(d0: map<ListData, Datum>, t0: Tally, a: seq<ListData>, r: seq<U16>, d1: map<ListData, Datum>,
                 t1: Tally, b: seq<ListData>, s: seq<U16>, d2: map<ListData, Datum>, t2: Tally)
    requires Ran(d0, t0, a, r, d1, t1) && Ran(d1, t1, b, s, d2, t2)
    ensures Ran(d0, t0, a + b, r + s, d2, t2)
  {
    var x, y := Fresh(d0, a), Fresh(d1, b);
    FreshIn(d0, a);
    FreshIn(d1, b);
    hide CrcOf, Fresh, FirstNonzero, FirstOf, Stored;
    CrcOfTwo(r, s, t0.crc);
    assert forall c :: c in d0 && c !in x ==> d1[c] == d0[c];
    FreshTwo(d0, d1, a, b);
    FirstNonzeroTwo(0, d0, d1, x, y, r, s, t0.crcstate);
    FirstNonzeroTwo(1, d0, d1, x, y, r, s, t0.crcmatrix);
    forall k | 0 <= k < |x + y|
      ensures StoredIn(d0, d2, (x + y)[k], (r + s)[k])
    {
      if k < |x| {
        assert StoredIn(d0, d1, x[k], r[k]) && x[k] in a && x[k] !in y;
      } else {
        assert StoredIn(d1, d2, y[k - |x|], s[k - |x|]) && y[k - |x|] in b;
      }
    }
    StaysCached(d1, d2, b, y, s);
    RanParts(d0, t0, a + b, r + s, d2, t2, x + y);
  }

  lemma StaysCached(d1: map<ListData, Datum>, d2: map<ListData, Datum>, b: seq<ListData>, y: seq<ListData>, s: seq<U16>)
    requires d2.Keys == d1.Keys && |s| == |y| && forall c :: c in y ==> c in d1
    requires forall k :: 0 <= k < |y| ==> StoredIn(d1, d2, y[k], s[k])
    requires forall c :: c in d1 && c !in y ==> d2[c] == d1[c]
    ensures forall c :: c in d1 && d1[c].data16 / 0x80 % 2 == 1 ==> d2[c].data16 / 0x80 % 2 == 1
  {
    forall c | c in d1 && d1[c].data16 / 0x80 % 2 == 1
      ensures d2[c].data16 / 0x80 % 2 == 1
    {
      if c in y {
        var k :| 0 <= k < |y| && y[k] == c;
        StoredCached(d1[c].data16, d2[c].data16, s[k]);
      }
    }
  }

  /** Only the first call on a cell counts. */
  lemma RanSame(d0: map<ListData, Datum>, t0: Tally, a: seq<ListData>, b: seq<ListData>, results: seq<U16>,
                d1: map<ListData, Datum>, t1: Tally)
    requires Ran(d0, t0, a, results, d1, t1) && Fresh(d0, a) == Fresh(d0, b) && forall c :: c in a <==> c in b
    ensures Ran(d0, t0, b, results, d1, t1)
  {
    hide CrcOf, Fresh, FirstNonzero, StoredIn;
  }

  /** Sequences with the same first occurrences still have the same after one more. */
  lemma FreshAlike(data: map<ListData, Datum>, a: seq<ListData>, b: seq<ListData>, c: ListData)
    requires Fresh(data, a) == Fresh(data, b) && forall d :: d in a <==> d in b
    ensures Fresh(data, a + [c]) == Fresh(data, b + [c]) && forall d :: d in a + [c] <==> d in b + [c]
  {
    FreshNext(data, a, c);
    FreshNext(data, b, c);
    hide Fresh;
  }

  /** A call on the next cell of a list, or on an earlier one. */
  lemma FreshAlong(data: map<ListData, Datum>, cells: seq<ListData>, f: nat, c: ListData, again: bool)
    requires f <= |cells| && if again then c in cells[..f] else f < |cells| && c == cells[f]
    ensures var n := if again then f else f + 1;
      Fresh(data, cells[..f] + [c]) == Fresh(data, cells[..n]) && forall d :: d in cells[..f] + [c] <==> d in cells[..n]
  {
    if again {
      FreshNext(data, cells[..f], c);
    } else {
      assert cells[..f] + [c] == cells[..f + 1];
    }
    hide Fresh;
  }

  /** A call of `calc_func`, seen from all data. */
  method CallOnce(c: ListData, res: CoreResults, ghost infos: set<ListData>) returns (r: int, ghost raw: U16)
    requires c in infos
    modifies c`data16, res`crc, res`crcstate, res`crcmatrix
    ensures Settled(CmpComplex, res, c) && r == KeyOf(CmpComplex, c)
    ensures Refreshed(CmpComplex, res, old(DataOf(infos)), DataOf(infos))
    ensures Called(old(DataOf(infos)), old(TallyOf(res)), c, raw, DataOf(infos), TallyOf(res))
    ensures old(Cached(c.data16)) ==> c.data16 == old(c.data16)
  {
    hide CachedValue, Crc16, FirstOf, Stored;
    r, raw := CalcFunc(c, res);
    ghost var d0, d1 := old(DataOf(infos)), DataOf(infos);
    assert d1 == d0[c := d1[c]];
    if old(c.data16) / 0x80 % 2 == 1 {
      assert d1 == d0;
    }
  }

  /** `cmp_complex` (lines 99-104): `a` comes first.  `results` are those of the operations run. */
  method CompareComplex(a: ListData, b: ListData, res: CoreResults, ghost infos: set<ListData>)
    returns (r: int, ghost results: seq<U16>)
    requires a in infos && b in infos
    modifies a`data16, b`data16, res`crc, res`crcstate, res`crcmatrix
    ensures Settled(CmpComplex, res, a) && Settled(CmpComplex, res, b)
    ensures Refreshed(CmpComplex, res, old(DataOf(infos)), DataOf(infos))
    ensures Ran(old(DataOf(infos)), old(TallyOf(res)), [a, b], results, DataOf(infos), TallyOf(res))
    ensures r == KeyOf(CmpComplex, a) - KeyOf(CmpComplex, b)
  {
    hide Upper, Cached, CachedValue, Crc16, Ran, Called, Refreshed;
    ghost var d0, t0 := DataOf(infos), TallyOf(res);
    RanNone(d0, t0);
    var val1, raw1 := CallOnce(a, res, infos);
    ghost var d1, t1 := DataOf(infos), TallyOf(res);
    RanNext(d0, t0, [], [], d0, t0, a, raw1, d1, t1);
    assert [] + [a] == [a] && [a] + [b] == [a, b];
    results := if d0[a].data16 / 0x80 % 2 == 1 then [] else [] + [raw1];
    var val2, raw2 := CallOnce(b, res, infos);
    RanNext(d0, t0, [a], results, d1, t1, b, raw2, DataOf(infos), TallyOf(res));
    RefreshedTwice(CmpComplex, res, d0, d1, DataOf(infos));
    results := if d1[b].data16 / 0x80 % 2 == 1 then results else results + [raw2];
    r := val1 - val2;
  }

  /** `cmp_idx` (lines 111-117). */
  method CompareIdx(a: ListData, b: ListData, res: CoreResults?, ghost infos: set<ListData>) returns (r: int)
    requires a in infos && b in infos
    modifies a`data16, b`data16
    ensures Settled(CmpIdx, res, a) && Settled(CmpIdx, res, b)
    ensures Refreshed(CmpIdx, res, old(DataOf(infos)), DataOf(infos))
    ensures r == KeyOf(CmpIdx, a) - KeyOf(CmpIdx, b)
  {
    if res == null {
      Regenerate(a);
      Regenerate(b);
    }
    r := a.idx - b.idx;
  }

  method Regenerate(a: ListData)
    modifies a`data16
    ensures Upper(a.data16) == Upper(old(a.data16)) && Regenerated(a.data16)
    ensures old(Regenerated(a.data16)) ==> a.data16 == old(a.data16)
  {
    StoreBackup(a.data16);
    a.data16 := Upper(a.data16) * 0x100 + Upper(a.data16);
  }

  method Compare(cmp: Comparator, a: ListData, b: ListData, res: CoreResults?, ghost infos: set<ListData>)
    returns (r: int, ghost results: seq<U16>)
    requires a in infos && b in infos
    requires cmp.CmpComplex? ==> res != null
    modifies a`data16, b`data16, Results(res)`crc, Results(res)`crcstate, Results(res)`crcmatrix
    ensures Settled(cmp, res, a) && Settled(cmp, res, b)
    ensures Refreshed(cmp, res, old(DataOf(infos)), DataOf(infos))
    ensures cmp.CmpComplex? ==>
      Ran(old(DataOf(infos)), old(TallyOf(res)), [a, b], results, DataOf(infos), TallyOf(res))
    ensures cmp.CmpIdx? ==> forall x :: x in Results(res) ==> unchanged(x)
    ensures r == KeyOf(cmp, a) - KeyOf(cmp, b)
  {
    hide Ran, Cached, CachedValue, Upper;
    results := [];
    match cmp
    case CmpComplex => r, results := CompareComplex(a, b, res, infos);
    case CmpIdx => r := CompareIdx(a, b, res, infos);
  }
}
