/**
  What the search turns of CoreMark's list benchmark do (`sw/coremark/core_list_join.c`,
  lines 142-169), said of the data along the list and of the order of the nodes alone.
 */
module CoreListSearch {
  import opened CoreListData

  /** What is searched for: an `idx`, or a low byte of the data word. */
  datatype Key = ByIdx(idx: int) | ByByte(byte: int)

  predicate Carries(key: Key, d: Datum) {
    match key
    case ByIdx(v) => d.idx == v
    case ByByte(v) => d.data16 % 256 == v
  }

  /** The key of turn `i`: the `idx` counts up from `finder_idx` until it would not fit 16 bits. */
  function KeyAt(finderIdx: S16, i: nat): Key {
    if 0 <= finderIdx && finderIdx + i <= 0x7fff then ByIdx(finderIdx + i) else ByByte(i % 256)
  }

  /** The key that is left after `n` turns, for the search in the shortened list. */
  function KeyLeft(finderIdx: S16, garbage: U16, n: nat): Key {
    if 0 <= finderIdx && finderIdx + n <= 0x7fff then ByIdx(finderIdx + n)
    else ByByte(if n == 0 then garbage else (n - 1) % 256)
  }

  /** The data along the list. */
  function Along(data: map<ListHead, Datum>, order: seq<ListHead>): (ds: seq<Datum>)
    requires forall x :: x in order ==> x in data
    ensures |ds| == |order| && forall i :: 0 <= i < |order| ==> ds[i] == data[order[i]]
  {
    seq(|order|, i requires 0 <= i < |order| => data[order[i]])
  }

  /** The first place that carries the key, or the length. */
  function Place(key: Key, ds: seq<Datum>): (k: nat)
    ensures k <= |ds| && (k < |ds| ==> Carries(key, ds[k])) && forall i :: 0 <= i < k ==> !Carries(key, ds[i])
    decreases |ds|
  {
    if ds == [] || Carries(key, ds[0]) then 0 else 1 + Place(key, ds[1..])
  }

  /** Does some node carry the key?  That does not depend on the order. */
  predicate IsHit(key: Key, data: map<ListHead, Datum>, nodes: seq<ListHead>) {
    exists x :: x in nodes && x in data && Carries(key, data[x])
  }

  /** How many of the first `n` turns find a node. */
  ghost function Hits(finderIdx: S16, n: nat, data: map<ListHead, Datum>, nodes: seq<ListHead>): (h: nat)
    ensures h <= n
    decreases n
  {
    if n == 0 then 0 else
      Hits(finderIdx, n - 1, data, nodes) + (if IsHit(KeyAt(finderIdx, n - 1), data, nodes) then 1 else 0)
  }

  /**
    What a turn adds to the result: bit 9 of the found data word if that is odd; without a find,
    bit 8 of the word that comes second after the reversal.
   */
  function Gain(key: Key, ds: seq<Datum>): nat
    requires |ds| >= 2
  {
    var k := Place(key, ds);
    if k == |ds| then ds[|ds| - 2].data16 / 256 % 2
    else if ds[k].data16 % 2 == 1 then ds[k].data16 / 512 % 2
    else 0
  }

  /** The order after a turn: reversed, and the node that was in front of the found one is second. */
  predicate Turned(key: Key, data: map<ListHead, Datum>, a: seq<ListHead>, b: seq<ListHead>)
    requires forall x :: x in a ==> x in data
  {
    var n, k := |a|, Place(key, Along(data, a));
    && |b| == n
    && forall t :: 0 <= t < n ==>
      b[t] == if k == n || k == 0 || t == 0 || t > n - k then a[n - 1 - t] else if t == 1 then a[k - 1] else a[n - t]
  }

  /** The orders that `n` turns go through. */
  ghost predicate Orders(finderIdx: S16, n: nat, data: map<ListHead, Datum>, orders: seq<seq<ListHead>>) {
    && |orders| == n + 1
    && (forall i :: 0 <= i <= n ==> |orders[i]| >= 2 && forall x :: x in orders[i] ==> x in data)
    && forall i :: 0 <= i < n ==> Turned(KeyAt(finderIdx, i), data, orders[i], orders[i + 1])
  }

  /** What all turns add. */
  ghost function Gains(finderIdx: S16, n: nat, data: map<ListHead, Datum>, orders: seq<seq<ListHead>>): nat
    requires n < |orders| && forall i :: 0 <= i <= n ==> |orders[i]| >= 2 && forall x :: x in orders[i] ==> x in data
    decreases n
  {
    if n == 0 then 0 else
      Gains(finderIdx, n - 1, data, orders) + Gain(KeyAt(finderIdx, n - 1), Along(data, orders[n - 1]))
  }

  /** The list without its second element, in which the last search looks. */
  function Shortened(ds: seq<Datum>): seq<Datum>
    requires |ds| >= 2
  {
    ds[..1] + ds[2..]
  }

  /** How often that search folds the first word: from the found place to the end, or from the second. */
  function Folds(key: Key, ds: seq<Datum>): nat
    requires |ds| >= 3
  {
    var k, n := Place(key, Shortened(ds)), |ds| - 1;
    if k < n then n - k else n - 1
  }
}
