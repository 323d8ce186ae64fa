/** CoreMark's list from its construction through one benchmark run. */
module CoreListLife {
  import opened StableOrder
  import opened CoreListData
  import opened CoreListSort
  import opened CoreListInit
  import opened CoreListBench
  import opened CoreListRestored

  /** The `idx` that position `t` of the unsorted list ends with. */
  function FinalIdx(size: nat, seed: int, t: nat): int
    requires size >= 3
  {
    IdxAt(size, seed, size - 1, size - 2, t)
  }

  /** No two items of the list get the same `idx`. */
  predicate DistinctIdx(size: nat, seed: int)
    requires size >= 3
  {
    forall s, t :: 0 <= s < t < size - 1 ==> FinalIdx(size, seed, s) != FinalIdx(size, seed, t)
  }

  ghost predicate KeysDiffer<T>(key: map<T, int>, nodes: seq<T>) {
    forall i, j :: 0 <= i < j < |nodes| ==> nodes[i] in key && nodes[j] in key && key[nodes[i]] != key[nodes[j]]
  }

  /** A stable sort is strictly ascending exactly when no two keys are equal. */
  lemma AscendingWhenDistinct<T>(key: map<T, int>, nodes: seq<T>)
    requires Distinct(nodes) && forall x :: x in nodes ==> x in key
    ensures Ascending(key, StableSort(key, nodes)) <==> KeysDiffer(key, nodes)
  {
    hide StableSort, Positions, KeysDiffer, Ascending, Distinct, Ordered;
    var s := StableSort(key, nodes);
    StableSortKeeps(key, nodes);
    PositionsKnown(nodes);
    StableSortOrdered(key, Positions(nodes), nodes);
    SameElements(s, nodes);
    PermutationDistinct(s, nodes);
    if KeysDiffer(key, nodes) {
      DifferAscends(key, Positions(nodes), nodes, s);
    }
    if Ascending(key, s) {
      AscendsDiffer(key, nodes, s);
    }
  }

  lemma PositionsKnown<T>(nodes: seq<T>)
    requires Distinct(nodes)
    ensures forall i :: 0 <= i < |nodes| ==> nodes[i] in Positions(nodes)
    ensures forall i, j :: 0 <= i < j < |nodes| ==> Positions(nodes)[nodes[i]] < Positions(nodes)[nodes[j]]
  {
    forall i, j | 0 <= i < j < |nodes|
      ensures Positions(nodes)[nodes[i]] < Positions(nodes)[nodes[j]]
    {
      assert Positions(nodes)[nodes[i]] == i && Positions(nodes)[nodes[j]] == j;
    }
  }

  lemma DifferAscends<T>(key: map<T, int>, pos: map<T, nat>, nodes: seq<T>, s: seq<T>)
    requires Ordered(key, pos, s) && Distinct(s) && (forall x :: x in s ==> x in nodes) && KeysDiffer(key, nodes)
    ensures Ascending(key, s)
  {
    forall i: int, j: int | 0 <= i < j < |s|
      ensures s[i] in key
      ensures s[j] in key
      ensures key[s[i]] < key[s[j]]
    {
      DifferLess(key, pos, nodes, s, i, j);
    }
  }

  lemma DifferLess<T>(key: map<T, int>, pos: map<T, nat>, nodes: seq<T>, s: seq<T>, i: nat, j: nat)
    requires Ordered(key, pos, s) && Distinct(s) && (forall x :: x in s ==> x in nodes) && KeysDiffer(key, nodes)
    requires i < j < |s|
    ensures s[i] in key && s[j] in key && key[s[i]] < key[s[j]]
  {
    assert s[i] in nodes && s[j] in nodes && s[i] != s[j];
    var a, b :| 0 <= a < |nodes| && nodes[a] == s[i] && 0 <= b < |nodes| && nodes[b] == s[j];
    assert Less(key, pos, s[i], s[j]);
    assert a < b || b < a;
  }

  lemma AscendsDiffer<T>(key: map<T, int>, nodes: seq<T>, s: seq<T>)
    requires Ascending(key, s) && Distinct(nodes) && forall x :: x in nodes ==> x in s && x in key
    ensures KeysDiffer(key, nodes)
  {
    forall i, j | 0 <= i < j < |nodes|
      ensures key[nodes[i]] != key[nodes[j]]
    {
      assert nodes[i] in s && nodes[j] in s && nodes[i] != nodes[j];
      var a, b :| 0 <= a < |s| && s[a] == nodes[i] && 0 <= b < |s| && s[b] == nodes[j];
      assert a < b || b < a;
    }
  }

  /** The data cells in use. */
  ghost function UsedCells(datas: seq<ListData>, n: nat): set<ListData>
    requires n <= |datas|
  {
    set d | d in datas[..n]
  }

  lemma KeysOfDistinct(key: map<ListHead, int>, nodes: seq<ListHead>, size: nat, seed: int)
    requires size >= 3 && |nodes| == size - 1 && IdxKeys(key, nodes, size, seed) && DistinctIdx(size, seed)
    ensures KeysDiffer(key, nodes) && forall x :: x in nodes ==> x in key
  {
    hide IdxAt;
    forall i, j | 0 <= i < j < |nodes|
      ensures key[nodes[i]] != key[nodes[j]]
    {
      assert FinalIdx(size, seed, i) != FinalIdx(size, seed, j);
    }
  }

  /**
    A seed that ties: when item `i` is a mixed one, its number is one less than a multiple of
    eight and the seed is that number, item and head both get 0.
   */
  lemma SeedWithTie(size: nat, i: nat)
    requires size >= 3 && size / 5 <= i < size - 2 && 0 < i < 0x7fff && (i + 1) % 8 == 0
    ensures !DistinctIdx(size, i)
  {
    MixedTie(i);
    hide MixedIdx;
    assert FinalIdx(size, i, 0) == 0 && FinalIdx(size, i, i) == 0;
  }

  lemma DistinctOfKeys(key: map<ListHead, int>, nodes: seq<ListHead>, size: nat, seed: int)
    requires size >= 3 && |nodes| == size - 1 && IdxKeys(key, nodes, size, seed)
    ensures KeysDiffer(key, nodes) <==> DistinctIdx(size, seed)
    ensures forall x :: x in nodes ==> x in key
  {
    hide IdxAt;
    forall t | 0 <= t < |nodes|
      ensures nodes[t] in key && key[nodes[t]] == FinalIdx(size, seed, t)
    {
    }
    if KeysDiffer(key, nodes) {
      forall s, t | 0 <= s < t < size - 1
        ensures FinalIdx(size, seed, s) != FinalIdx(size, seed, t)
      {
        assert key[nodes[s]] != key[nodes[t]];
      }
    }
    if DistinctIdx(size, seed) {
      KeysOfDistinct(key, nodes, size, seed);
    }
  }

  /**
    The list that `core_list_init` makes is given back by every run of the benchmark, for every
    search index and every number of searches, if and only if no two items got the same `idx`.
   */
  lemma InitRestoredIff(key: map<ListHead, int>, nodes: seq<ListHead>, size: nat, seed: int, sorted: seq<ListHead>,
                        data: map<ListHead, Datum>)
    requires size >= 4 && |nodes| == size - 1 && Distinct(nodes) && IdxKeys(key, nodes, size, seed)
    requires sorted == StableSort(key, nodes) && data.Keys == (set x | x in nodes) && IdxMap(data) == key
    ensures DistinctIdx(size, seed) <==>
      forall finderIdx: S16, garbage: U16, seed3: S16, after: map<ListHead, Datum>,
             mid: seq<ListHead>, last: seq<ListHead> ::
        RunEnds(sorted, data, finderIdx, garbage, seed3, after, mid, last) ==> last == sorted
  {
    hide StableSort, RunEnds, Ascending, KeysDiffer, IdxKeys, DistinctIdx, IdxMap;
    StableSortKeeps(key, nodes);
    SameElements(sorted, nodes);
    PermutationDistinct(sorted, nodes);
    DistinctOfKeys(key, nodes, size, seed);
    AscendingWhenDistinct(key, nodes);
    assert data.Keys == set x | x in sorted;
    RestoredIff(sorted, data);
  }

  /** The sort's keys are those that the benchmark would find along the list. */
  lemma KeysAre(key: map<ListHead, int>, nodes: seq<ListHead>, sorted: seq<ListHead>, size: nat, seed: int,
                infos: set<ListData>)
    requires InfosIn(nodes, infos) && (forall x :: x in sorted <==> x in nodes) && KeysFor(key, nodes)
    requires IdxKeys(key, nodes, size, seed) && IdxKeys(Keys(CmpIdx, nodes, infos), nodes, size, seed)
    ensures InfosIn(sorted, infos) && Keys(CmpIdx, sorted, infos) == key
  {
    hide IdxAt;
    forall x | x in nodes
      ensures Keys(CmpIdx, nodes, infos)[x] == key[x]
    {
      var t :| 0 <= t < |nodes| && nodes[t] == x;
    }
  }

  /** The list as `core_list_init` leaves it: the sorted nodes and their keys. */
  ghost predicate Constructed(heads: seq<ListHead>, datas: seq<ListData>, size: nat, seed: int,
                              sorted: seq<ListHead>, key: map<ListHead, int>)
    reads (set x | x in heads)`info, (set d | d in datas)`data16, (set d | d in datas)`idx
  {
    && Regions(heads, datas) && |heads| == size && size >= 4 && size / 5 <= 0x7fff
    && Contents(heads, datas, size, seed, size - 1)
    && IdxKeys(key, Built(heads, size - 1), size, seed) && KeysFor(key, Built(heads, size - 1))
    && sorted == StableSort(key, Built(heads, size - 1))
  }

  /** It is strictly ascending exactly when the `idx` differ. */
  lemma ForBench(heads: seq<ListHead>, datas: seq<ListData>, size: nat, seed: int, sorted: seq<ListHead>,
                 key: map<ListHead, int>, infos: set<ListData>)
    requires Constructed(heads, datas, size, seed, sorted, key) && infos == UsedCells(datas, size - 1)
    ensures |sorted| == size - 1 && InfosIn(sorted, infos) && Keys(CmpIdx, sorted, infos) == key
    ensures Ascending(key, sorted) <==> DistinctIdx(size, seed)
    ensures KeysAscend(key, sorted)
  {
    hide IdxAt, CellDatum, StableSort, Ascending, Contents, Built, IdxKeys, KeysDiffer, DistinctIdx, KeysAscend;
    var nodes := Built(heads, size - 1);
    BuiltInHeads(heads, size - 1);
    BuiltDistinct(heads, size - 1);
    KeysFromContents(heads, datas, size, seed, size - 1, infos);
    SortSorts(key, nodes);
    SameElements(sorted, nodes);
    DistinctOfKeys(key, nodes, size, seed);
    AscendingWhenDistinct(key, nodes);
    KeysAre(key, nodes, sorted, size, seed, infos);
  }

  lemma DataRegenerated(heads: seq<ListHead>, datas: seq<ListData>, size: nat, seed: int, sorted: seq<ListHead>,
                        infos: set<ListData>)
    requires 3 <= size <= |heads| == |datas| && size / 5 <= 0x7fff
    requires Contents(heads, datas, size, seed, size - 1) && infos == UsedCells(datas, size - 1)
    requires InfosIn(sorted, infos)
    ensures AllRegenerated(NodeData(sorted, infos))
  {
    hide CellData, IdxAt;
    forall d | d in infos
      ensures Regenerated(d.data16)
    {
      var k :| 0 <= k < size - 1 && datas[..size - 1][k] == d;
      assert Datum(datas[k].data16, datas[k].idx) == CellDatum(size, seed, size - 1, k);
    }
  }

  ghost function CellsOf(s: seq<ListHead>): map<ListHead, ListData>
    reads (set x | x in s)`info
  {
    map x | x in s :: x.info
  }

  lemma CellsInSorted(heads: seq<ListHead>, n: nat, sorted: seq<ListHead>)
    requires n <= |heads| && multiset(sorted) == multiset(heads[..n])
    ensures forall k :: 0 <= k < n ==> heads[k] in sorted
    ensures forall x :: x in sorted ==> x in heads
  {
    SameElements(heads[..n], sorted);
    forall k | 0 <= k < n
      ensures heads[k] in sorted
    {
      assert heads[..n][k] == heads[k];
    }
  }

  /** The contents of the cells, read off the pointers and the data along the list. */
  ghost predicate Snapshot(heads: seq<ListHead>, datas: seq<ListData>, size: nat, seed: int,
    cells: map<ListHead, ListData>, data: map<ListHead, Datum>)
    requires 3 <= size <= |heads| == |datas| && size / 5 <= 0x7fff
  {
    forall k :: 0 <= k < size - 1 ==>
      && heads[k] in cells && cells[heads[k]] == datas[k]
      && heads[k] in data && data[heads[k]] == CellDatum(size, seed, size - 1, k)
  }

  lemma ContentsSeen(heads: seq<ListHead>, datas: seq<ListData>, size: nat, seed: int, sorted: seq<ListHead>,
    cells: map<ListHead, ListData>, data: map<ListHead, Datum>, infos: set<ListData>)
    requires 3 <= size <= |heads| == |datas| && size / 5 <= 0x7fff && InfosIn(sorted, infos)
    requires forall k :: 0 <= k < size - 1 ==> heads[k] in sorted
    requires cells == CellsOf(sorted) && data == NodeData(sorted, infos)
    ensures Contents(heads, datas, size, seed, size - 1) <==> Snapshot(heads, datas, size, seed, cells, data)
  {
    hide CellDatum;
    if Snapshot(heads, datas, size, seed, cells, data) {
      forall k | 0 <= k < size - 1
        ensures heads[k].info == datas[k] && Datum(datas[k].data16, datas[k].idx) == CellDatum(size, seed, size - 1, k)
      {
        assert heads[k] in sorted;
      }
    }
  }

  /** One run of the benchmark on the constructed list. */
  method BenchOnce(list: ListHead, heads: seq<ListHead>, datas: seq<ListData>, size: nat, seed: S16, seed3: S16,
                   finderIdx: S16, garbage: U16, ghost sorted: seq<ListHead>, ghost key: map<ListHead, int>)
    returns (res: CoreResults)
    requires Constructed(heads, datas, size, seed, sorted, key) && DistinctIdx(size, seed)
    requires Chain(sorted, list) && multiset(sorted) == multiset(heads[..size - 1])
    modifies (set x | x in heads), (set d | d in datas)
    ensures fresh(res) && Chain(sorted, res.list) && Contents(heads, datas, size, seed, size - 1)
  {
    hide Chain, StableSort, IdxAt, CellDatum, Built, NodeData, CellsOf, Snapshot, Ascending, AllRegenerated, Keys,
      IdxKeys, DistinctIdx, Contents, UsedCells;
    ghost var infos := UsedCells(datas, size - 1);
    UsedInside(datas, size - 1);
    ForBench(heads, datas, size, seed, sorted, key, infos);
    DataRegenerated(heads, datas, size, seed, sorted, infos);
    res := new CoreResults(list, seed3);
    ghost var cells, before := CellsOf(sorted), NodeData(sorted, infos);
    CellsKnown(sorted, cells);
    CellsInSorted(heads, size - 1, sorted);
    ContentsSeen(heads, datas, size, seed, sorted, cells, before, infos);
    var retval := BenchListRestores(res, finderIdx, garbage, sorted, infos);
    SameCells(sorted, cells);
    ContentsSeen(heads, datas, size, seed, sorted, cells, before, infos);
  }

  lemma UsedInside(datas: seq<ListData>, n: nat)
    requires n <= |datas|
    ensures forall d :: d in UsedCells(datas, n) ==> d in datas
  {
  }

  /**
    Construction and then one run of the benchmark: when no two items got the same `idx`, the
    list is afterwards exactly the list that was constructed.
   */
  method InitAndBench(blksize: nat, heads: seq<ListHead>, datas: seq<ListData>, seed: S16, seed3: S16, finderIdx: S16,
                      garbage: U16)
    returns (res: CoreResults, ghost sorted: seq<ListHead>, ghost key: map<ListHead, int>)
    requires ListSize(blksize) >= 4 && ListSize(blksize) / 5 <= 0x7fff && DistinctIdx(ListSize(blksize), seed)
    requires Regions(heads, datas) && |heads| == ListSize(blksize)
    modifies (set x | x in heads), (set d | d in datas)
    ensures fresh(res) && Chain(sorted, res.list) && multiset(sorted) == multiset(heads[..|heads| - 1])
    ensures IdxKeys(key, Built(heads, |heads| - 1), |heads|, seed)
    ensures sorted == StableSort(key, Built(heads, |heads| - 1))
    ensures Contents(heads, datas, |heads|, seed, |heads| - 1)
  {
    hide Chain, StableSort, IdxAt, CellDatum, Built, IdxKeys, DistinctIdx, Contents;
    var list;
    list, sorted, key := InitList(blksize, heads, datas, seed);
    res := BenchOnce(list, heads, datas, |heads|, seed, seed3, finderIdx, garbage, sorted, key);
  }

  /**
    Construction and then one run of the benchmark, for a seed that gives two items the same
    `idx`: after one search for `idx` 0 the list is not the one that was constructed.
   */
  method InitAndBenchFails(blksize: nat, heads: seq<ListHead>, datas: seq<ListData>, seed: S16, garbage: U16)
    returns (res: CoreResults, ghost sorted: seq<ListHead>, ghost key: map<ListHead, int>, ghost last: seq<ListHead>)
    requires ListSize(blksize) >= 4 && ListSize(blksize) / 5 <= 0x7fff && !DistinctIdx(ListSize(blksize), seed)
    requires Regions(heads, datas) && |heads| == ListSize(blksize)
    modifies (set x | x in heads), (set d | d in datas)
    ensures IdxKeys(key, Built(heads, |heads| - 1), |heads|, seed)
    ensures sorted == StableSort(key, Built(heads, |heads| - 1))
    ensures last != [] && Chain(last, last[0]) && last != sorted
  {
    hide Chain, StableSort, IdxAt, CellDatum, Built, IdxKeys, DistinctIdx, Contents, Keys, NodeData, Ascending,
      UsedCells, KeysAscend, Exposed, FailingTurns;
    var list, retval;
    list, sorted, key := InitList(blksize, heads, datas, seed);
    ghost var infos := UsedCells(datas, |heads| - 1);
    UsedInside(datas, |heads| - 1);
    ForBench(heads, datas, |heads|, seed, sorted, key, infos);
    OneSearch(sorted, key, infos);
    NodesInside(heads, |heads| - 1, sorted);
    res := new CoreResults(list, 1);
    retval, last := BenchListFails(res, 0, garbage, sorted, infos);
  }

  lemma NodesInside(heads: seq<ListHead>, n: nat, sorted: seq<ListHead>)
    requires n <= |heads| && multiset(sorted) == multiset(heads[..n])
    ensures forall x :: x in sorted ==> x in heads
  {
    SameElements(heads[..n], sorted);
  }

  /** On a sorted list one search is enough. */
  lemma OneSearch(sorted: seq<ListHead>, key: map<ListHead, int>, infos: set<ListData>)
    requires InfosIn(sorted, infos) && Keys(CmpIdx, sorted, infos) == key && KeysAscend(key, sorted)
    ensures Exposed(sorted, NodeData(sorted, infos), 0) && FailingTurns(sorted, NodeData(sorted, infos)) == 1
  {
    KeysKnown(sorted, infos);
  }

  lemma SameCells(s: seq<ListHead>, cells: map<ListHead, ListData>)
    requires cells.Keys == (set x | x in s) && forall x :: x in s ==> x.info == cells[x]
    ensures CellsOf(s) == cells
  {
  }

  lemma CellsKnown(s: seq<ListHead>, cells: map<ListHead, ListData>)
    requires cells == CellsOf(s)
    ensures cells.Keys == (set x | x in s) && forall x :: x in s ==> x.info == cells[x]
  {
  }
}
