/**
  When CoreMark's list benchmark gives the list back (the claim at line 129 of
  `sw/coremark/core_list_join.c`): for every search index and every number of searches exactly
  when the `idx` strictly ascend along the list.
 */
module CoreListRestored {
  import opened StableOrder
  import opened CoreListData
  import opened CoreListSort
  import opened CoreListBench

  /** The list before a run: at least three different nodes with known data. */
  ghost predicate Listed(nodes: seq<ListHead>, data: map<ListHead, Datum>) {
    |nodes| >= 3 && Distinct(nodes) && data.Keys == set x | x in nodes
  }

  // ---------------------------------------------------------------------------
  // Strictly ascending lists are restored
  // ---------------------------------------------------------------------------

  lemma ListedKnown(nodes: seq<ListHead>, data: map<ListHead, Datum>)
    requires Listed(nodes, data)
    ensures Known(nodes, data) && IdxMap(data).Keys == data.Keys && forall x :: x in nodes ==> x in data
  {
  }

  lemma RunRestores(nodes: seq<ListHead>, data: map<ListHead, Datum>, finderIdx: S16, garbage: U16, seed3: S16,
                    after: map<ListHead, Datum>, mid: seq<ListHead>, last: seq<ListHead>)
    requires Listed(nodes, data) && Ascending(IdxMap(data), nodes)
    requires RunEnds(nodes, data, finderIdx, garbage, seed3, after, mid, last)
    ensures last == nodes
  {
    hide StableSort, FindsAfter, IdxMap, Ascending, CachedMap;
    ListedKnown(nodes, data);
    var order := FindsOf(nodes, data, finderIdx, garbage, seed3).order;
    FindsRearrange(Finds(nodes, finderIdx, garbage, 0, 0, 0), Turns(seed3), data);
    StableSortKeeps(CachedMap(after), order);
    SameElements(mid, nodes);
    assert forall x :: x in mid ==> x in IdxMap(data);
    AscendingRestored(IdxMap(data), mid, nodes);
  }

  // ---------------------------------------------------------------------------
  // Others are not
  // ---------------------------------------------------------------------------

  /** No find turn: the list is only sorted, so it ends in weakly ascending order. */
  lemma UnsortedNotRestored(key: map<ListHead, int>, nodes: seq<ListHead>, i: nat, j: nat)
    requires Distinct(nodes) && (forall x :: x in nodes ==> x in key) && i < j < |nodes|
    requires key[nodes[i]] > key[nodes[j]]
    ensures StableSort(key, nodes) != nodes
  {
    var pos, s := Positions(nodes), StableSort(key, nodes);
    StableSortOrdered(key, pos, nodes);
    StableSortKeeps(key, nodes);
    SameElements(s, nodes);
    assert Less(key, pos, s[i], s[j]);
  }

  /** Of two nodes with the same key the one that comes first before the sort comes first after it. */
  lemma TieKept(key: map<ListHead, int>, nodes: seq<ListHead>, order: seq<ListHead>, i: nat, j: nat, a: nat, b: nat)
    requires Distinct(order) && (forall x :: x in order ==> x in key) && i < j < |nodes| == |order| && a < b < |order|
    requires order[a] == nodes[j] && order[b] == nodes[i] && key[nodes[i]] == key[nodes[j]]
    ensures StableSort(key, order) != nodes
  {
    var pos, s := Positions(order), StableSort(key, order);
    StableSortOrdered(key, pos, order);
    StableSortKeeps(key, order);
    SameElements(s, order);
    assert Less(key, pos, s[i], s[j]);
  }

  /** Where `MovedUp` puts the node of position `q`. */
  function NewPlace(at: nat, q: nat): nat {
    if q == 0 then 0 else if q == at + 1 then 1 else if q <= at then q + 1 else q
  }

  lemma MovedTo(s: seq<ListHead>, at: nat, q: nat)
    requires at < |s| && q < |s|
    ensures at + 1 < |s| ==> NewPlace(at, q) < |s| && MovedUp(s, at)[NewPlace(at, q)] == s[q]
    ensures |MovedUp(s, at)| == |s| && (at + 1 == |s| ==> MovedUp(s, at) == s)
  {
  }

  /** After one turn two nodes have changed places, unless the first of them is the one that was moved. */
  lemma TurnSwaps(nodes: seq<ListHead>, i: nat, j: nat, k: nat) returns (a: nat, b: nat)
    requires i < j < |nodes| && k <= |nodes| && i + 1 != k
    ensures var r := if k < |nodes| then MovedUp(Reversed(nodes), |nodes| - 1 - k) else Reversed(nodes);
      a < b < |r| && r[a] == nodes[j] && r[b] == nodes[i]
  {
    hide MovedUp, Reversed;
    var n := |nodes|;
    var s := Reversed(nodes);
    a, b := n - 1 - j, n - 1 - i;
    assert s[a] == nodes[j] && s[b] == nodes[i];
    if k < n {
      var at := n - 1 - k;
      MovedTo(s, at, a);
      MovedTo(s, at, b);
      if k > 0 {
        a, b := NewPlace(at, a), NewPlace(at, b);
      }
    }
  }

  /** The order after a single search. */
  lemma OneTurn(nodes: seq<ListHead>, data: map<ListHead, Datum>, finderIdx: S16, garbage: U16, k: nat)
    requires Known(nodes, data) && k == FirstFrom(finderIdx, 0, data, nodes, 0)
    ensures FindsOf(nodes, data, finderIdx, garbage, 1).order ==
      if k < |nodes| then MovedUp(Reversed(nodes), |nodes| - 1 - k) else Reversed(nodes)
  {
    hide MovedUp, Reversed, FirstFrom, Bit;
    var s := Finds(nodes, finderIdx, garbage, 0, 0, 0);
    assert FindsAfter(s, 0, data) == s;
    assert FindsAfter(s, 1, data) == FindOnce(s, 0, data);
  }

  lemma {:induction false} FirstFromIs(idx: S16, data16: U16, data: map<ListHead, Datum>, order: seq<ListHead>, k: nat)
    requires k <= |order| && forall x :: x in order ==> x in data
    ensures var r := FirstFrom(idx, data16, data, order, k);
      && (r < |order| ==> Wanted(idx, data16, data[order[r]]))
      && (forall t :: k <= t < r ==> !Wanted(idx, data16, data[order[t]]))
    decreases |order| - k
  {
    if k < |order| && !Wanted(idx, data16, data[order[k]]) {
      FirstFromIs(idx, data16, data, order, k + 1);
    }
  }

  /** The node in front of the found one has a smaller `idx` than that, so it is not tied with a later node. */
  lemma NotMoved(data: map<ListHead, Datum>, nodes: seq<ListHead>, i: nat, j: nat, k: nat)
    requires (forall x :: x in nodes ==> x in data) && i < j < |nodes| && data[nodes[i]].idx == data[nodes[j]].idx
    requires forall p, q :: 0 <= p < q < |nodes| ==> data[nodes[p]].idx <= data[nodes[q]].idx
    requires k == FirstFrom(0, 0, data, nodes, 0)
    ensures i + 1 != k
  {
    FirstFromIs(0, 0, data, nodes, 0);
    assert k < |nodes| ==> data[nodes[k]].idx == 0;
    assert i < k ==> data[nodes[i]].idx != 0;
    assert i < k < |nodes| ==> data[nodes[i]].idx <= data[nodes[k]].idx;
    assert k < j ==> data[nodes[k]].idx <= data[nodes[j]].idx;
  }

  /** Two nodes with the same `idx`, the first not in front of the node that the search finds, end swapped. */
  lemma TieEndsSwapped(nodes: seq<ListHead>, data: map<ListHead, Datum>, finderIdx: S16, garbage: U16, i: nat, j: nat)
    requires Listed(nodes, data) && i < j < |nodes| && data[nodes[i]].idx == data[nodes[j]].idx
    requires i + 1 != FirstFrom(finderIdx, 0, data, nodes, 0)
    ensures StableSort(IdxMap(data), FindsOf(nodes, data, finderIdx, garbage, 1).order) != nodes
  {
    ListedKnown(nodes, data);
    var k := FirstFrom(finderIdx, 0, data, nodes, 0);
    OneTurn(nodes, data, finderIdx, garbage, k);
    var a, b := TurnSwaps(nodes, i, j, k);
    var s := Finds(nodes, finderIdx, garbage, 0, 0, 0);
    FindsRearrange(s, Turns(1), data);
    var order := FindsOf(nodes, data, finderIdx, garbage, 1).order;
    PermutationDistinct(order, nodes);
    SameElements(order, nodes);
    hide StableSort, FindsAfter, MovedUp, Reversed, FirstFrom;
    TieKept(IdxMap(data), nodes, order, i, j, a, b);
  }

  /** A run without sort by content is determined by its inputs. */
  lemma PlainRun(nodes: seq<ListHead>, data: map<ListHead, Datum>, finderIdx: S16, garbage: U16, seed3: S16)
    requires finderIdx <= 0
    ensures var order := FindsOf(nodes, data, finderIdx, garbage, seed3).order;
      RunEnds(nodes, data, finderIdx, garbage, seed3, data, order, StableSort(IdxMap(data), order))
  {
  }

  lemma PlainRunEnds(nodes: seq<ListHead>, data: map<ListHead, Datum>, finderIdx: S16, garbage: U16, seed3: S16,
                     after: map<ListHead, Datum>, mid: seq<ListHead>, last: seq<ListHead>)
    requires finderIdx <= 0 && RunEnds(nodes, data, finderIdx, garbage, seed3, after, mid, last)
    ensures last == StableSort(IdxMap(data), FindsOf(nodes, data, finderIdx, garbage, seed3).order)
  {
  }

  /** How many searches it takes to see that the `idx` do not strictly ascend. */
  ghost function FailingTurns(nodes: seq<ListHead>, data: map<ListHead, Datum>): S16
    requires forall x :: x in nodes ==> x in data
  {
    if WeaklyAscending(nodes, data) then 1 else 0
  }

  ghost predicate WeaklyAscending(nodes: seq<ListHead>, data: map<ListHead, Datum>)
    requires forall x :: x in nodes ==> x in data
  {
    forall p, q :: 0 <= p < q < |nodes| ==> data[nodes[p]].idx <= data[nodes[q]].idx
  }

  /** The nodes at `i` and `j` have the same `idx`. */
  ghost predicate Tied(nodes: seq<ListHead>, data: map<ListHead, Datum>, i: int, j: int)
    requires forall x :: x in nodes ==> x in data
  {
    0 <= i < j < |nodes| && data[nodes[i]].idx == data[nodes[j]].idx
  }

  /**
    A search that shows the order to be lost: by `idx` any will do; by the low byte, the node
    behind the first of two tied ones must not have the byte 0 that is searched for first.
   */
  ghost predicate Exposed(nodes: seq<ListHead>, data: map<ListHead, Datum>, finderIdx: S16)
    requires forall x :: x in nodes ==> x in data
  {
    WeaklyAscending(nodes, data) && finderIdx < 0 ==>
      exists i, j :: Tied(nodes, data, i, j) && Lower(data[nodes[i + 1]].data16) != 0
  }

  lemma NoSearchFails(nodes: seq<ListHead>, data: map<ListHead, Datum>, finderIdx: S16, garbage: U16)
    requires Listed(nodes, data) && !WeaklyAscending(nodes, data)
    ensures StableSort(IdxMap(data), FindsOf(nodes, data, finderIdx, garbage, 0).order) != nodes
  {
    var p, q :| 0 <= p < q < |nodes| && data[nodes[p]].idx > data[nodes[q]].idx;
    UnsortedNotRestored(IdxMap(data), nodes, p, q);
    assert FindsOf(nodes, data, finderIdx, garbage, 0).order == nodes;
  }

  lemma TieOf(nodes: seq<ListHead>, data: map<ListHead, Datum>) returns (i: nat, j: nat)
    requires Listed(nodes, data) && WeaklyAscending(nodes, data) && !Ascending(IdxMap(data), nodes)
    ensures Tied(nodes, data, i, j)
  {
    var key := IdxMap(data);
    i, j :| 0 <= i < j < |nodes| && key[nodes[i]] >= key[nodes[j]];
  }

  lemma TieExists(nodes: seq<ListHead>, data: map<ListHead, Datum>, finderIdx: S16) returns (i: nat, j: nat)
    requires Listed(nodes, data) && WeaklyAscending(nodes, data) && !Ascending(IdxMap(data), nodes)
    requires finderIdx <= 0 && Exposed(nodes, data, finderIdx)
    ensures Tied(nodes, data, i, j) && i + 1 != FirstFrom(finderIdx, 0, data, nodes, 0)
  {
    hide FirstFrom;
    FirstFromIs(finderIdx, 0, data, nodes, 0);
    if finderIdx < 0 {
      i, j :| Tied(nodes, data, i, j) && Lower(data[nodes[i + 1]].data16) != 0;
    } else {
      i, j := TieOf(nodes, data);
      NotMoved(data, nodes, i, j, FirstFrom(0, 0, data, nodes, 0));
    }
  }

  /** If the `idx` do not strictly ascend, that many searches end with another order. */
  lemma FailingRun(nodes: seq<ListHead>, data: map<ListHead, Datum>, finderIdx: S16, garbage: U16)
    requires Listed(nodes, data) && !Ascending(IdxMap(data), nodes) && finderIdx <= 0 && Exposed(nodes, data, finderIdx)
    ensures StableSort(IdxMap(data), FindsOf(nodes, data, finderIdx, garbage, FailingTurns(nodes, data)).order) != nodes
  {
    hide StableSort, FindsOf, IdxMap, Ascending, Exposed;
    if WeaklyAscending(nodes, data) {
      var i, j := TieExists(nodes, data, finderIdx);
      TieEndsSwapped(nodes, data, finderIdx, garbage, i, j);
    } else {
      NoSearchFails(nodes, data, finderIdx, garbage);
    }
  }

  // ---------------------------------------------------------------------------
  // Runs with a sort by content
  // ---------------------------------------------------------------------------

  /** What is known of a sequence `mid` that was sorted by these keys. */
  ghost predicate KeysAscend(key: map<ListHead, int>, mid: seq<ListHead>) {
    && Distinct(mid) && (forall x :: x in mid ==> x in key)
    && forall i, j :: 0 <= i < j < |mid| ==> key[mid[i]] <= key[mid[j]]
  }

  lemma SortSorts(key: map<ListHead, int>, order: seq<ListHead>)
    requires Distinct(order) && forall x :: x in order ==> x in key
    ensures multiset(StableSort(key, order)) == multiset(order) && KeysAscend(key, StableSort(key, order))
  {
    var mid, pos := StableSort(key, order), Positions(order);
    StableSortOrdered(key, pos, order);
    StableSortKeeps(key, order);
    PermutationDistinct(mid, order);
    SameElements(mid, order);
    hide StableSort, Positions;
    forall i, j | 0 <= i < j < |mid|
      ensures key[mid[i]] <= key[mid[j]]
    {
      assert Less(key, pos, mid[i], mid[j]);
    }
  }

  /** In a sorted sequence a smaller key stands before a greater one. */
  lemma SmallerFirst(key: map<ListHead, int>, mid: seq<ListHead>, x: ListHead, y: ListHead)
    requires KeysAscend(key, mid) && x in mid && y in mid && key[x] < key[y]
    ensures x in Positions(mid) && y in Positions(mid) && Positions(mid)[x] < Positions(mid)[y]
  {
    var i :| 0 <= i < |mid| && mid[i] == x;
    var j :| 0 <= j < |mid| && mid[j] == y;
  }

  /** Of tied nodes the one with the smaller content comes first. */
  ghost predicate ContentAscends(nodes: seq<ListHead>, data: map<ListHead, Datum>, content: map<ListHead, int>)
    requires forall x :: x in nodes ==> x in data && x in content
  {
    forall i, j :: Tied(nodes, data, i, j) ==> content[nodes[i]] < content[nodes[j]]
  }

  ghost predicate ContentDiffers(nodes: seq<ListHead>, data: map<ListHead, Datum>, content: map<ListHead, int>)
    requires forall x :: x in nodes ==> x in data && x in content
  {
    forall i, j :: Tied(nodes, data, i, j) ==> content[nodes[i]] != content[nodes[j]]
  }

  /** A sorted list, sorted by content and then by `idx` again. */
  lemma {:induction false} SortedTwice(nodes: seq<ListHead>, data: map<ListHead, Datum>, content: map<ListHead, int>,
                                       mid: seq<ListHead>)
    requires Listed(nodes, data) && WeaklyAscending(nodes, data) && forall x :: x in nodes ==> x in data && x in content
    requires KeysAscend(content, mid) && multiset(mid) == multiset(nodes) && ContentDiffers(nodes, data, content)
    ensures StableSort(IdxMap(data), mid) == nodes <==> ContentAscends(nodes, data, content)
  {
    var key, pos := IdxMap(data), Positions(mid);
    SameElements(mid, nodes);
    hide StableSort, Positions, KeysAscend;
    if ContentAscends(nodes, data, content) {
      forall i, j | 0 <= i < j < |nodes|
        ensures Less(key, pos, nodes[i], nodes[j])
      {
        PositionOf(mid, nodes[i]);
        PositionOf(mid, nodes[j]);
        if Tied(nodes, data, i, j) {
          SmallerFirst(content, mid, nodes[i], nodes[j]);
        }
      }
      StableSortUnique(key, mid, nodes);
    }
    if StableSort(key, mid) == nodes {
      InOrderOf(key, mid, nodes);
      forall i, j | Tied(nodes, data, i, j)
        ensures content[nodes[i]] < content[nodes[j]]
      {
        assert Less(key, pos, nodes[i], nodes[j]);
      }
    }
  }

  lemma PositionOf(mid: seq<ListHead>, x: ListHead)
    requires Distinct(mid) && x in mid
    ensures x in Positions(mid)
  {
  }

  lemma InOrderOf(key: map<ListHead, int>, mid: seq<ListHead>, last: seq<ListHead>)
    requires Distinct(mid) && (forall x :: x in mid ==> x in key) && last == StableSort(key, mid)
    ensures Ordered(key, Positions(mid), last)
  {
    StableSortOrdered(key, Positions(mid), mid);
  }

  lemma ContentKnown(nodes: seq<ListHead>, data: map<ListHead, Datum>, finderIdx: S16, garbage: U16, seed3: S16,
                     after: map<ListHead, Datum>, mid: seq<ListHead>, last: seq<ListHead>)
    requires Listed(nodes, data) && finderIdx > 0 && RunEnds(nodes, data, finderIdx, garbage, seed3, after, mid, last)
    ensures forall x :: x in nodes ==> x in data && x in CachedMap(after)
  {
  }

  /**
    With a positive `finder_idx` the content decides: when the contents of tied nodes differ, the
    list is restored, for every number of searches, if and only if they ascend along it.
   */
  lemma {:induction false} ContentDecides(nodes: seq<ListHead>, data: map<ListHead, Datum>, finderIdx: S16,
                                          garbage: U16, seed3: S16,
                       after: map<ListHead, Datum>, mid: seq<ListHead>, last: seq<ListHead>)
    requires Listed(nodes, data) && WeaklyAscending(nodes, data) && finderIdx > 0
    requires RunEnds(nodes, data, finderIdx, garbage, seed3, after, mid, last)
    ensures forall x :: x in nodes ==> x in data && x in CachedMap(after)
    ensures ContentDiffers(nodes, data, CachedMap(after)) ==>
      (last == nodes <==> ContentAscends(nodes, data, CachedMap(after)))
  {
    ContentKnown(nodes, data, finderIdx, garbage, seed3, after, mid, last);
    var order := FindsOf(nodes, data, finderIdx, garbage, seed3).order;
    FindsRearrange(Finds(nodes, finderIdx, garbage, 0, 0, 0), Turns(seed3), data);
    hide StableSort, FindsAfter, IdxMap, CachedMap, ContentDiffers, ContentAscends, KeysAscend;
    PermutationDistinct(order, nodes);
    SameElements(order, nodes);
    SortSorts(CachedMap(after), order);
    if ContentDiffers(nodes, data, CachedMap(after)) {
      SortedTwice(nodes, data, CachedMap(after), mid);
    }
  }

  lemma ChainListed(nodes: seq<ListHead>, list: ListHead, infos: set<ListData>)
    requires |nodes| >= 3 && Chain(nodes, list) && InfosIn(nodes, infos)
    ensures Listed(nodes, NodeData(nodes, infos))
  {
  }

  /**
    The benchmark itself, on a list whose `idx` do not strictly ascend, without a search or with
    one search, for `idx` 0 or by the low byte: the chain that it leaves is not the one it
    started from.
   */
  method BenchListFails(res: CoreResults, finderIdx: S16, garbage: U16, ghost nodes: seq<ListHead>,
                        ghost infos: set<ListData>)
    returns (retval: U16, ghost last: seq<ListHead>)
    requires |nodes| >= 3 && Chain(nodes, res.list) && InfosIn(nodes, infos)
    requires !Ascending(Keys(CmpIdx, nodes, infos), nodes)
    requires finderIdx <= 0 && Exposed(nodes, NodeData(nodes, infos), finderIdx)
    requires res.seed3 == FailingTurns(nodes, NodeData(nodes, infos))
    modifies (set x | x in nodes), infos`data16
    modifies res`crc, res`crcstate, res`crcmatrix, res`log, res`start
    ensures last != [] && Chain(last, last[0]) && last != nodes
  {
    hide Chain, NodeData, Ascending, Keys, StableSort, RunEnds, MiddleValue, CrcTimes, Regeneration, Ready, Listed,
      FailingTurns, Exposed, IdxMap;
    ghost var data, seed3 := NodeData(nodes, infos), res.seed3;
    KeysKnown(nodes, infos);
    ChainListed(nodes, res.list, infos);
    FailingRun(nodes, data, finderIdx, garbage);
    ghost var t;
    retval, t := BenchList(res, finderIdx, garbage, nodes, infos);
    last := t.sorted;
    PlainRunEnds(nodes, data, finderIdx, garbage, seed3, t.midData, t.mid, last);
  }

  /**
    The claim of the benchmark, exactly: whatever the search index, the number of searches, the
    uninitialised word and the sub-benchmarks' results, a run ends with the original order, if
    and only if the `idx` strictly ascend along the list.
   */
  lemma RestoredIff(nodes: seq<ListHead>, data: map<ListHead, Datum>)
    requires Listed(nodes, data)
    ensures Ascending(IdxMap(data), nodes) <==>
      forall finderIdx: S16, garbage: U16, seed3: S16, after: map<ListHead, Datum>,
             mid: seq<ListHead>, last: seq<ListHead> ::
        RunEnds(nodes, data, finderIdx, garbage, seed3, after, mid, last) ==> last == nodes
  {
    hide RunEnds, Ascending, IdxMap;
    if Ascending(IdxMap(data), nodes) {
      forall finderIdx: S16, garbage: U16, seed3: S16, after: map<ListHead, Datum>,
             mid: seq<ListHead>, last: seq<ListHead>
        | RunEnds(nodes, data, finderIdx, garbage, seed3, after, mid, last)
        ensures last == nodes
      {
        RunRestores(nodes, data, finderIdx, garbage, seed3, after, mid, last);
      }
    } else {
      var turns := FailingTurns(nodes, data);
      FailingRun(nodes, data, 0, 0);
      PlainRun(nodes, data, 0, 0, turns);
      var order := FindsOf(nodes, data, 0, 0, turns).order;
      assert StableSort(IdxMap(data), order) != nodes;
    }
  }
}
