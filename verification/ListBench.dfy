/**
  Finding, reversing, removing and re-inserting, and the list benchmark built from them
  (`sw/coremark/core_list_join.c`, lines 131-198 and 315-403).
 */
module CoreListBench {
  import opened StableOrder
  import opened CoreListData
  import opened CoreListSort
  import opened CoreListSearch

  // ---------------------------------------------------------------------------
  // core_list_find and core_list_reverse
  // ---------------------------------------------------------------------------

  /** What `core_list_find` looks for: an `idx` if it is not negative, else a low data byte. */
  predicate Wanted(idx: S16, data16: U16, d: Datum) {
    if idx >= 0 then d.idx == idx else Lower(d.data16) == data16
  }

  /** `data` records the data of every node. */
  ghost predicate DataIs(nodes: seq<ListHead>, data: map<ListHead, Datum>, infos: set<ListData>)
    reads (set x | x in nodes)`info, infos`data16, infos`idx
  {
    forall x :: x in nodes ==> x in data && x.info in infos && data[x] == Datum(x.info.data16, x.info.idx)
  }

  /** `i` is the first wanted position in `order`, or the length when there is none. */
  ghost predicate FirstWanted(idx: S16, data16: U16, data: map<ListHead, Datum>, order: seq<ListHead>, i: nat) {
    && i <= |order| && (forall x :: x in order ==> x in data)
    && (i < |order| ==> Wanted(idx, data16, data[order[i]]))
    && forall k :: 0 <= k < i ==> !Wanted(idx, data16, data[order[k]])
  }

  method Find(list: ListHead?, idx: S16, data16: U16, ghost nodes: seq<ListHead>, ghost data: map<ListHead, Datum>,
              ghost infos: set<ListData>)
    returns (r: ListHead?, ghost i: nat)
    requires Chain(nodes, list) && DataIs(nodes, data, infos)
    ensures FirstWanted(idx, data16, data, nodes, i) && r == At(nodes, i)
  {
    r := list;
    i := 0;
    if idx >= 0 {
      while r != null && r.info.idx != idx
        invariant i <= |nodes| && r == At(nodes, i)
        invariant forall k :: 0 <= k < i ==> !Wanted(idx, data16, data[nodes[k]])
        decreases |nodes| - i
      {
        r := r.next;
        i := i + 1;
      }
    } else {
      while r != null && Lower(r.info.data16) != data16
        invariant i <= |nodes| && r == At(nodes, i)
        invariant forall k :: 0 <= k < i ==> !Wanted(idx, data16, data[nodes[k]])
        decreases |nodes| - i
      {
        r := r.next;
        i := i + 1;
      }
    }
  }

  ghost function Reversed<T>(s: seq<T>): (r: seq<T>)
    ensures |r| == |s| && forall i :: 0 <= i < |s| ==> r[i] == s[|s| - 1 - i]
  {
    seq(|s|, i requires 0 <= i < |s| => s[|s| - 1 - i])
  }

  /** Half-way through the reversal: `nodes[..i]` points backwards, the rest still forwards. */
  ghost predicate HalfReversed(nodes: seq<ListHead>, i: nat)
    reads (set x | x in nodes)`next
  {
    && i <= |nodes| && Distinct(nodes)
    && (forall k :: 0 <= k < i ==> nodes[k].next == BackFrom(nodes, k))
    && (forall k :: i <= k < |nodes| ==> nodes[k].next == At(nodes, k + 1))
  }

  ghost function BackFrom(nodes: seq<ListHead>, k: nat): ListHead?
    requires k <= |nodes|
  {
    if k == 0 then null else nodes[k - 1]
  }

  /** One turn of the loop at lines 396-401. */
  method TurnLink(list0: ListHead, next0: ListHead?, ghost nodes: seq<ListHead>, ghost i: nat)
    returns (list: ListHead?, next: ListHead)
    requires i < |nodes| && HalfReversed(nodes, i) && list0 == nodes[i] && next0 == BackFrom(nodes, i)
    modifies (set x | x in nodes)`next
    ensures HalfReversed(nodes, i + 1) && list == At(nodes, i + 1) && next == BackFrom(nodes, i + 1)
  {
    var tmp := list0.next;
    assert tmp == At(nodes, i + 1);
    list0.next := next0;
    next := list0;
    list := tmp;
    assert forall k :: 0 <= k < |nodes| && k != i ==> nodes[k].next == old(nodes[k].next);
  }

  method Reverse(list0: ListHead?, ghost nodes: seq<ListHead>) returns (r: ListHead?)
    requires Chain(nodes, list0)
    modifies (set x | x in nodes)`next
    ensures Chain(Reversed(nodes), r)
  {
    var list, next: ListHead? := list0, null;
    ghost var i := 0;
    NoneReversed(nodes, list0);
    hide HalfReversed, Chain, Reversed;
    while list != null
      invariant i <= |nodes| && HalfReversed(nodes, i) && list == At(nodes, i) && next == BackFrom(nodes, i)
      decreases |nodes| - i
    {
      list, next := TurnLink(list, next, nodes, i);
      i := i + 1;
    }
    r := next;
    AllReversed(nodes, r);
  }

  lemma NoneReversed(nodes: seq<ListHead>, list: ListHead?)
    requires Chain(nodes, list)
    ensures HalfReversed(nodes, 0)
  {
  }

  lemma AllReversed(nodes: seq<ListHead>, r: ListHead?)
    requires HalfReversed(nodes, |nodes|) && r == BackFrom(nodes, |nodes|)
    ensures Chain(Reversed(nodes), r)
  {
    var s := Reversed(nodes);
    forall i | 0 <= i < |s|
      ensures s[i].next == At(s, i + 1)
    {
      assert s[i] == nodes[|nodes| - 1 - i];
    }
  }

  // ---------------------------------------------------------------------------
  // core_list_remove and core_list_undo_remove
  // ---------------------------------------------------------------------------

  ghost function Without<T>(s: seq<T>, k: nat): seq<T>
    requires k < |s|
  {
    s[..k] + s[k + 1..]
  }

  ghost function With<T>(s: seq<T>, k: nat, x: T): seq<T>
    requires k <= |s|
  {
    s[..k] + [x] + s[k..]
  }

  method Remove(item: ListHead, ghost list: ListHead, ghost nodes: seq<ListHead>, ghost k: nat) returns (ret: ListHead)
    requires Chain(nodes, list) && k + 1 < |nodes| && item == nodes[k]
    modifies nodes[k], nodes[k + 1]
    ensures ret == nodes[k + 1] && Chain(Without(nodes, k + 1), list)
    ensures ret.next == null && item.info == old(ret.info) && ret.info == old(item.info)
  {
    ret := item.next;
    var tmp := item.info;
    item.info := ret.info;
    ret.info := tmp;
    item.next := item.next.next;
    ret.next := null;
    Unlinked(nodes, k, list);
  }

  lemma Unlinked(nodes: seq<ListHead>, k: nat, list: ListHead)
    requires Distinct(nodes) && k + 1 < |nodes| && list == nodes[0]
    requires forall i :: 0 <= i < |nodes| && i != k && i != k + 1 ==> nodes[i].next == At(nodes, i + 1)
    requires nodes[k].next == At(nodes, k + 2)
    ensures Chain(Without(nodes, k + 1), list)
  {
    var s := Without(nodes, k + 1);
    forall i | 0 <= i < |s|
      ensures s[i].next == At(s, i + 1)
    {
      assert s[i] == if i <= k then nodes[i] else nodes[i + 1];
    }
  }

  method UndoRemove(itemRemoved: ListHead, itemModified: ListHead, ghost list: ListHead, ghost nodes: seq<ListHead>,
                    ghost k: nat)
    returns (r: ListHead)
    requires Chain(nodes, list) && k < |nodes| && itemModified == nodes[k] && itemRemoved !in nodes
    modifies itemRemoved, itemModified
    ensures r == itemRemoved && Chain(With(nodes, k + 1, itemRemoved), list)
    ensures itemModified.info == old(itemRemoved.info) && itemRemoved.info == old(itemModified.info)
  {
    var tmp := itemRemoved.info;
    itemRemoved.info := itemModified.info;
    itemModified.info := tmp;
    itemRemoved.next := itemModified.next;
    itemModified.next := itemRemoved;
    r := itemRemoved;
    Relinked(nodes, k, itemRemoved, list);
  }

  lemma Relinked(nodes: seq<ListHead>, k: nat, x: ListHead, list: ListHead)
    requires Distinct(nodes) && k < |nodes| && x !in nodes && list == nodes[0]
    requires forall i :: 0 <= i < |nodes| && i != k ==> nodes[i].next == At(nodes, i + 1)
    requires nodes[k].next == x && x.next == At(nodes, k + 1)
    ensures Chain(With(nodes, k + 1, x), list)
  {
    var s := With(nodes, k + 1, x);
    forall i | 0 <= i < |s|
      ensures s[i].next == At(s, i + 1)
    {
      assert s[i] == if i <= k then nodes[i] else if i == k + 1 then x else nodes[i - 1];
    }
  }

  // ---------------------------------------------------------------------------
  // The find loop (lines 142-169) as a function of the order of the list
  // ---------------------------------------------------------------------------

  datatype Finds = Finds(order: seq<ListHead>, idx: S16, data16: U16, retval: U16, found: U16, missed: U16)

  /** The first wanted position in `order` from `k` on. */
  ghost function FirstFrom(idx: S16, data16: U16, data: map<ListHead, Datum>, order: seq<ListHead>, k: nat): (r: nat)
    requires k <= |order| && forall x :: x in order ==> x in data
    ensures k <= r <= |order|
    decreases |order| - k
  {
    if k == |order| || Wanted(idx, data16, data[order[k]]) then k else FirstFrom(idx, data16, data, order, k + 1)
  }

  lemma {:induction false} FirstIsFirst(idx: S16, data16: U16, data: map<ListHead, Datum>, order: seq<ListHead>,
                                        k: nat, i: nat)
    requires FirstWanted(idx, data16, data, order, i) && k <= i
    ensures FirstFrom(idx, data16, data, order, k) == i
    decreases i - k
  {
    if k < i {
      FirstIsFirst(idx, data16, data, order, k + 1, i);
    }
  }

  /** The node after position `at` is moved to right behind the head. */
  ghost function MovedUp<T>(s: seq<T>, at: nat): seq<T>
    requires at < |s|
  {
    if at + 1 < |s| then With(Without(s, at + 1), 1, s[at + 1]) else s
  }

  function Bit(d: U16, n: nat): U16 {
    if n == 8 then (d / 0x100) % 2 else if n == 9 then (d / 0x200) % 2 else d % 2
  }

  /** Addition of `ee_u16` values. */
  function Add16(a: U16, b: int): U16 {
    (a + b) % 0x10000
  }

  function Score(found: int, missed: int): int {
    found * 4 - missed
  }

  lemma Add16Zero(a: U16)
    ensures Add16(a, 0) == a
  {
  }

  function Bumped(idx: S16): S16 {
    if idx < 0 then idx else if idx == 0x7fff then -0x8000 else idx + 1
  }

  /** A list of at least two nodes whose data are known. */
  ghost predicate Known(order: seq<ListHead>, data: map<ListHead, Datum>) {
    |order| >= 2 && forall x :: x in order ==> x in data
  }

  lemma KnownRearranged(r: seq<ListHead>, s: seq<ListHead>, data: map<ListHead, Datum>)
    requires Known(s, data) && multiset(r) == multiset(s)
    ensures Known(r, data)
  {
    SameElements(r, s);
  }

  /** One turn of the loop with counter `i`. */
  ghost function FindOnce(s: Finds, i: nat, data: map<ListHead, Datum>): (r: Finds)
    requires Known(s.order, data)
  {
    var data16 := i % 0x100;
    var k := FirstFrom(s.idx, data16, data, s.order, 0);
    var reversed := Reversed(s.order);
    var idx := Bumped(s.idx);
    if k == |s.order| then
      Finds(reversed, idx, data16, Add16(s.retval, Bit(data[reversed[1]].data16, 8)), s.found, Add16(s.missed, 1))
    else
      var d := data[s.order[k]].data16;
      Finds(MovedUp(reversed, |s.order| - 1 - k), idx, data16,
            Add16(s.retval, if Bit(d, 0) == 1 then Bit(d, 9) else 0), Add16(s.found, 1), s.missed)
  }

  lemma FindOnceRearranges(s: Finds, i: nat, data: map<ListHead, Datum>)
    requires Known(s.order, data)
    ensures multiset(FindOnce(s, i, data).order) == multiset(s.order) && Known(FindOnce(s, i, data).order, data)
  {
    ReversedRearranges(s.order);
    var k := FirstFrom(s.idx, i % 0x100, data, s.order, 0);
    if k < |s.order| {
      MovedUpRearranges(Reversed(s.order), |s.order| - 1 - k);
    }
    KnownRearranged(FindOnce(s, i, data).order, s.order, data);
  }

  lemma {:induction false} ReversedRearranges<T>(s: seq<T>)
    ensures multiset(Reversed(s)) == multiset(s)
    decreases |s|
  {
    if s != [] {
      assert s == [s[0]] + s[1..];
      assert Reversed(s) == Reversed(s[1..]) + [s[0]];
      ReversedRearranges(s[1..]);
    }
  }

  lemma MovedUpRearranges<T>(s: seq<T>, at: nat)
    requires at < |s|
    ensures multiset(MovedUp(s, at)) == multiset(s)
  {
    if at + 1 < |s| {
      var r := Without(s, at + 1);
      assert s == s[..at + 1] + [s[at + 1]] + s[at + 2..];
      assert r == r[..1] + r[1..];
      assert multiset(r) + multiset{s[at + 1]} == multiset(s);
    }
  }

  /** The state after `n` turns. */
  ghost function FindsAfter(s: Finds, n: nat, data: map<ListHead, Datum>): Finds
    decreases n
  {
    if n == 0 then s
    else if !Known(FindsAfter(s, n - 1, data).order, data) then s
    else FindOnce(FindsAfter(s, n - 1, data), n - 1, data)
  }

  /** The find loop only rearranges the nodes. */
  lemma {:induction false} FindsRearrange(s: Finds, n: nat, data: map<ListHead, Datum>)
    requires Known(s.order, data)
    ensures multiset(FindsAfter(s, n, data).order) == multiset(s.order) && Known(FindsAfter(s, n, data).order, data)
    decreases n
  {
    hide FindOnce, Known;
    if n > 0 {
      FindsRearrange(s, n - 1, data);
      FindOnceRearranges(FindsAfter(s, n - 1, data), n - 1, data);
    }
  }

  // ---------------------------------------------------------------------------
  // What all turns together find
  // ---------------------------------------------------------------------------

  /** The search key `info.idx` after `n` turns. */
  function IdxAfter(finderIdx: S16, n: nat): S16 {
    if finderIdx < 0 then finderIdx else if finderIdx + n <= 0x7fff then finderIdx + n else -0x8000
  }

  /** The search finds the first place that carries the key. */
  lemma PlaceWanted(idx: S16, data16: U16, data: map<ListHead, Datum>, order: seq<ListHead>, key: Key)
    requires forall x :: x in order ==> x in data
    requires forall d: Datum :: Wanted(idx, data16, d) <==> Carries(key, d)
    ensures FirstWanted(idx, data16, data, order, Place(key, Along(data, order)))
  {
    hide Carries, Wanted;
  }

  lemma TurnedIs(key: Key, data: map<ListHead, Datum>, a: seq<ListHead>)
    requires forall x :: x in a ==> x in data
    ensures var k := Place(key, Along(data, a));
      Turned(key, data, a, if k == |a| then Reversed(a) else MovedUp(Reversed(a), |a| - 1 - k))
  {
    hide Place, Along, MovedUp, Reversed;
    TurnElements(a, Place(key, Along(data, a)));
  }

  lemma TurnElements(a: seq<ListHead>, k: nat)
    requires k <= |a|
    ensures var n, b := |a|, if k == |a| then Reversed(a) else MovedUp(Reversed(a), |a| - 1 - k);
      |b| == n && forall t :: 0 <= t < n ==>
        b[t] == if k == n || k == 0 || t == 0 || t > n - k then a[n - 1 - t] else if t == 1 then a[k - 1] else a[n - t]
  {
    var n, r := |a|, Reversed(a);
    if 0 < k < n {
      var b := MovedUp(r, n - 1 - k);
      MovedElements(r, n - 1 - k);
      forall t | 0 <= t < n
        ensures b[t] == if t == 0 || t > n - k then a[n - 1 - t] else if t == 1 then a[k - 1] else a[n - t]
      {
        assert b[t] == MovedFrom(r, n - 1 - k, t);
      }
      hide MovedUp, Reversed, MovedFrom;
    } else if k == 0 < n {
      LastStays(r);
    }
  }

  lemma LastStays<T>(s: seq<T>)
    requires s != []
    ensures MovedUp(s, |s| - 1) == s
  {
  }

  lemma MovedElements(s: seq<ListHead>, at: nat)
    requires at + 1 < |s|
    ensures |MovedUp(s, at)| == |s|
    ensures forall i :: 0 <= i < |s| ==> MovedUp(s, at)[i] == MovedFrom(s, at, i)
  {
  }

  lemma KeyIs(finderIdx: S16, i: nat)
    requires i < 0x8000
    ensures forall d: Datum :: Wanted(IdxAfter(finderIdx, i), i % 256, d) <==> Carries(KeyAt(finderIdx, i), d)
  {
  }

  /** The state `r` after a turn from `s`, said of the data along the list. */
  ghost predicate Turn(s: Finds, r: Finds, finderIdx: S16, i: nat, data: map<ListHead, Datum>)
    requires Known(s.order, data)
  {
    var key := KeyAt(finderIdx, i);
    && r.idx == IdxAfter(finderIdx, i + 1) && r.data16 == i % 256
    && r.retval == (s.retval + Gain(key, Along(data, s.order))) % 0x10000
    && r.found == (s.found + (if IsHit(key, data, s.order) then 1 else 0)) % 0x10000
    && r.missed == (s.missed + (if IsHit(key, data, s.order) then 0 else 1)) % 0x10000
    && Turned(key, data, s.order, r.order)
  }

  lemma MissedTurn(s: Finds, finderIdx: S16, i: nat, data: map<ListHead, Datum>)
    requires Known(s.order, data) && s.idx == IdxAfter(finderIdx, i) && i < 0x8000
    requires Bumped(s.idx) == IdxAfter(finderIdx, i + 1)
    requires var key := KeyAt(finderIdx, i);
      && Place(key, Along(data, s.order)) == |s.order| && !IsHit(key, data, s.order)
      && FirstWanted(s.idx, i % 0x100, data, s.order, |s.order|) && Turned(key, data, s.order, Reversed(s.order))
    ensures Turn(s, FindOnce(s, i, data), finderIdx, i, data)
  {
    hide Turned, Reversed, IsHit, FindOnce, KeyAt, IdxAfter, FirstWanted, Bumped, Place;
    FindOnceMissed(s, i, data);
    assert Gain(KeyAt(finderIdx, i), Along(data, s.order)) == Bit(data[s.order[|s.order| - 2]].data16, 8);
    hide Gain, Along;
  }

  lemma FoundTurn(s: Finds, finderIdx: S16, i: nat, data: map<ListHead, Datum>, k: nat)
    requires Known(s.order, data) && s.idx == IdxAfter(finderIdx, i) && i < 0x8000
    requires Bumped(s.idx) == IdxAfter(finderIdx, i + 1)
    requires var key := KeyAt(finderIdx, i);
      && k == Place(key, Along(data, s.order)) < |s.order| && IsHit(key, data, s.order)
      && FirstWanted(s.idx, i % 0x100, data, s.order, k)
      && Turned(key, data, s.order, MovedUp(Reversed(s.order), |s.order| - 1 - k))
    ensures Turn(s, FindOnce(s, i, data), finderIdx, i, data)
  {
    hide Turned, Reversed, MovedUp, IsHit, FindOnce, KeyAt, IdxAfter, FirstWanted, Bumped, Place;
    FindOnceFound(s, i, data, k);
    var d := data[s.order[k]].data16;
    assert Gain(KeyAt(finderIdx, i), Along(data, s.order)) == if Bit(d, 0) == 1 then Bit(d, 9) else 0;
    hide Gain, Along;
  }

  /** What a turn adds, and whether it finds. */
  lemma TurnIs(s: Finds, finderIdx: S16, i: nat, data: map<ListHead, Datum>)
    requires Known(s.order, data) && s.idx == IdxAfter(finderIdx, i) && i < 0x8000
    ensures Turn(s, FindOnce(s, i, data), finderIdx, i, data)
  {
    var key := KeyAt(finderIdx, i);
    var k := Place(key, Along(data, s.order));
    KeyIs(finderIdx, i);
    assert Bumped(s.idx) == IdxAfter(finderIdx, i + 1);
    hide Wanted, Carries, KeyAt, IdxAfter, Bumped, Turn, FindOnce, Turned, FirstWanted, MovedUp, Reversed, IsHit, Gain;
    PlaceWanted(s.idx, i % 256, data, s.order, key);
    PlaceOrHit(key, data, s.order);
    TurnedIs(key, data, s.order);
    if k == |s.order| {
      MissedTurn(s, finderIdx, i, data);
    } else {
      FoundTurn(s, finderIdx, i, data, k);
    }
  }

  lemma PlaceOrHit(key: Key, data: map<ListHead, Datum>, order: seq<ListHead>)
    requires forall x :: x in order ==> x in data
    ensures IsHit(key, data, order) <==> Place(key, Along(data, order)) < |order|
  {
    hide Carries;
    var k := Place(key, Along(data, order));
    if k < |order| {
      assert order[k] in order;
    }
  }

  lemma HitRearranged(key: Key, data: map<ListHead, Datum>, a: seq<ListHead>, b: seq<ListHead>)
    requires multiset(a) == multiset(b)
    ensures IsHit(key, data, a) <==> IsHit(key, data, b)
  {
    SameElements(a, b);
  }

  /** The counters of the state `r` after `n` turns. */
  ghost predicate Counted(finderIdx: S16, n: nat, data: map<ListHead, Datum>, nodes: seq<ListHead>,
                          orders: seq<seq<ListHead>>, r: Finds)
    requires Orders(finderIdx, n, data, orders)
  {
    && r.found == Hits(finderIdx, n, data, nodes) % 0x10000
    && r.missed == (n - Hits(finderIdx, n, data, nodes)) % 0x10000
    && r.retval == Gains(finderIdx, n, data, orders) % 0x10000
  }

  /** The state `r` after `n` turns, said of the data along the list. */
  ghost predicate Searched(finderIdx: S16, garbage: U16, n: nat, data: map<ListHead, Datum>, nodes: seq<ListHead>,
                           orders: seq<seq<ListHead>>, r: Finds)
  {
    && Orders(finderIdx, n, data, orders) && orders[0] == nodes && orders[n] == r.order
    && r.idx == IdxAfter(finderIdx, n) && r.data16 == (if n == 0 then garbage else (n - 1) % 256)
    && Counted(finderIdx, n, data, nodes, orders, r)
  }

  lemma SearchedNone(finderIdx: S16, garbage: U16, data: map<ListHead, Datum>, nodes: seq<ListHead>)
    requires Known(nodes, data)
    ensures Searched(finderIdx, garbage, 0, data, nodes, [nodes], Finds(nodes, finderIdx, garbage, 0, 0, 0))
  {
  }

  lemma SearchedNext(finderIdx: S16, garbage: U16, n: nat, data: map<ListHead, Datum>, nodes: seq<ListHead>,
                     orders: seq<seq<ListHead>>, r: Finds)
    requires Searched(finderIdx, garbage, n, data, nodes, orders, r) && n < 0x8000
    requires Known(r.order, data) && Known(FindOnce(r, n, data).order, data) && multiset(r.order) == multiset(nodes)
    ensures var next := FindOnce(r, n, data);
      Searched(finderIdx, garbage, n + 1, data, nodes, orders + [next.order], next)
  {
    var next := FindOnce(r, n, data);
    hide FindOnce, Counted, Turned, Gain, IsHit, KeyAt, IdxAfter, Along;
    TurnIs(r, finderIdx, n, data);
    OrdersNext(finderIdx, n, data, orders, next.order);
    CountedNext(finderIdx, n, data, nodes, orders, r, next);
    hide Turn, Known;
  }

  lemma CountedNext(finderIdx: S16, n: nat, data: map<ListHead, Datum>, nodes: seq<ListHead>,
                    orders: seq<seq<ListHead>>, r: Finds, next: Finds)
    requires Orders(finderIdx, n, data, orders) && Counted(finderIdx, n, data, nodes, orders, r)
    requires Known(r.order, data) && orders[n] == r.order && multiset(r.order) == multiset(nodes)
    requires Turn(r, next, finderIdx, n, data) && Orders(finderIdx, n + 1, data, orders + [next.order])
    ensures Counted(finderIdx, n + 1, data, nodes, orders + [next.order], next)
  {
    hide Turned, Gain, IsHit, KeyAt, IdxAfter, Along, Known;
    var key := KeyAt(finderIdx, n);
    var gains, hits := Gains(finderIdx, n, data, orders), Hits(finderIdx, n, data, nodes);
    HitRearranged(key, data, r.order, nodes);
    GainsNext(finderIdx, n, data, orders, next.order);
    assert Hits(finderIdx, n + 1, data, nodes) == hits + (if IsHit(key, data, nodes) then 1 else 0);
    hide Gains, Hits, Orders;
    CountersNext(gains, hits, n, Gain(key, Along(data, r.order)), IsHit(key, data, nodes), r.retval, r.found, r.missed);
  }

  lemma CountersNext(gains: nat, hits: nat, n: nat, gain: nat, hit: bool, retval: U16, found: U16, missed: U16)
    requires hits <= n && retval == gains % 0x10000 && found == hits % 0x10000 && missed == (n - hits) % 0x10000
    ensures (retval + gain) % 0x10000 == (gains + gain) % 0x10000
    ensures (found + (if hit then 1 else 0)) % 0x10000 == (hits + (if hit then 1 else 0)) % 0x10000
    ensures (missed + (if hit then 0 else 1)) % 0x10000 == (n + 1 - (hits + (if hit then 1 else 0))) % 0x10000
  {
    SumMod(gains, gain);
    SumMod(hits, if hit then 1 else 0);
    SumMod(n - hits, if hit then 0 else 1);
  }

  lemma SumMod(a: nat, b: int)
    ensures (a % 0x10000 + b) % 0x10000 == (a + b) % 0x10000
  {
    var q := a / 0x10000;
    assert a + b == q * 0x10000 + (a % 0x10000 + b);
  }

  lemma GainsNext(finderIdx: S16, n: nat, data: map<ListHead, Datum>, orders: seq<seq<ListHead>>, order: seq<ListHead>)
    requires Orders(finderIdx, n, data, orders) && Orders(finderIdx, n + 1, data, orders + [order])
    ensures Gains(finderIdx, n + 1, data, orders + [order]) ==
      Gains(finderIdx, n, data, orders) + Gain(KeyAt(finderIdx, n), Along(data, orders[n]))
  {
    hide Turned, Gain, KeyAt, Along;
    GainsSame(finderIdx, n, data, orders, orders + [order]);
  }

  lemma OrdersNext(finderIdx: S16, n: nat, data: map<ListHead, Datum>, orders: seq<seq<ListHead>>, order: seq<ListHead>)
    requires Orders(finderIdx, n, data, orders) && Known(order, data)
    requires Turned(KeyAt(finderIdx, n), data, orders[n], order)
    ensures Orders(finderIdx, n + 1, data, orders + [order])
  {
    hide Turned, KeyAt;
  }

  /**
    All turns: the counters are the numbers of keys that some node carries and that none does,
    which does not depend on the order, and the value is the sum of what the turns add.
   */
  lemma {:induction false} SearchesAre(nodes: seq<ListHead>, finderIdx: S16, garbage: U16, n: nat,
                                       data: map<ListHead, Datum>) returns (orders: seq<seq<ListHead>>)
    requires Known(nodes, data) && n <= 0x8000
    ensures Searched(finderIdx, garbage, n, data, nodes, orders,
                     FindsAfter(Finds(nodes, finderIdx, garbage, 0, 0, 0), n, data))
    decreases n
  {
    var s := Finds(nodes, finderIdx, garbage, 0, 0, 0);
    if n == 0 {
      SearchedNone(finderIdx, garbage, data, nodes);
      orders := [nodes];
    } else {
      orders := SearchesAre(nodes, finderIdx, garbage, n - 1, data);
      FindsRearrange(s, n - 1, data);
      FindsRearrange(s, n, data);
      hide Searched, FindOnce, Known;
      var before := FindsAfter(s, n - 1, data);
      SearchedNext(finderIdx, garbage, n - 1, data, nodes, orders, before);
      orders := orders + [FindOnce(before, n - 1, data).order];
    }
  }

  lemma {:induction false} GainsSame(finderIdx: S16, n: nat, data: map<ListHead, Datum>, a: seq<seq<ListHead>>,
                                     b: seq<seq<ListHead>>)
    requires n < |a| && n < |b| && forall i :: 0 <= i <= n ==> a[i] == b[i]
    requires forall i :: 0 <= i <= n ==> |a[i]| >= 2 && forall x :: x in a[i] ==> x in data
    ensures Gains(finderIdx, n, data, a) == Gains(finderIdx, n, data, b)
    decreases n
  {
    if n > 0 {
      GainsSame(finderIdx, n - 1, data, a, b);
    }
  }

  /** Lines 155-161: move the node behind `thisFind` to right behind the head. */
  method CacheNext(list: ListHead, thisFind: ListHead, ghost nodes: seq<ListHead>, ghost at: nat)
    requires Chain(nodes, list) && at < |nodes| && thisFind == nodes[at]
    modifies (set x | x in nodes)`next
    ensures Chain(MovedUp(nodes, at), list)
  {
    if thisFind.next != null {
      var finder := thisFind.next;
      thisFind.next := finder.next;
      finder.next := list.next;
      list.next := finder;
      MovedChain(nodes, at, list);
    }
  }

  lemma MovedChain(nodes: seq<ListHead>, at: nat, list: ListHead)
    requires Distinct(nodes) && at + 1 < |nodes| && list == nodes[0]
    requires list.next == nodes[at + 1]
    requires nodes[at + 1].next == if at == 0 then At(nodes, 2) else nodes[1]
    requires at > 0 ==> nodes[at].next == At(nodes, at + 2)
    requires forall i :: 0 < i < |nodes| && i != at && i != at + 1 ==> nodes[i].next == At(nodes, i + 1)
    ensures Chain(MovedUp(nodes, at), list)
  {
    var s := MovedUp(nodes, at);
    MovedUpRearranges(nodes, at);
    PermutationDistinct(s, nodes);
    assert |s| == |nodes|;
    forall i | 0 <= i < |s|
      ensures s[i] == MovedFrom(nodes, at, i)
    {
    }
    forall i | 0 <= i < |s|
      ensures s[i].next == At(s, i + 1)
    {
      assert s[i] == MovedFrom(nodes, at, i);
    }
  }

  ghost function MovedFrom(nodes: seq<ListHead>, at: nat, i: nat): ListHead
    requires at + 1 < |nodes| && i < |nodes|
  {
    if i == 0 then nodes[0] else if i == 1 then nodes[at + 1] else if i <= at + 1 then nodes[i - 1] else nodes[i]
  }

  lemma FindOnceMissed(s: Finds, i: nat, data: map<ListHead, Datum>)
    requires Known(s.order, data) && FirstWanted(s.idx, i % 0x100, data, s.order, |s.order|)
    ensures s.order[|s.order| - 2] in data
    ensures FindOnce(s, i, data) == Finds(Reversed(s.order), Bumped(s.idx), i % 0x100,
      Add16(s.retval, Bit(data[s.order[|s.order| - 2]].data16, 8)), s.found, Add16(s.missed, 1))
  {
    FirstIsFirst(s.idx, i % 0x100, data, s.order, 0, |s.order|);
  }

  lemma FindOnceFound(s: Finds, i: nat, data: map<ListHead, Datum>, k: nat)
    requires Known(s.order, data) && k < |s.order| && FirstWanted(s.idx, i % 0x100, data, s.order, k)
    ensures var d := data[s.order[k]].data16;
      FindOnce(s, i, data) == Finds(MovedUp(Reversed(s.order), |s.order| - 1 - k), Bumped(s.idx), i % 0x100,
        Add16(s.retval, if Bit(d, 0) == 1 then Bit(d, 9) else 0), Add16(s.found, 1), s.missed)
  {
    FirstIsFirst(s.idx, i % 0x100, data, s.order, 0, k);
  }

  /** Lines 147-150, after the reversal. */
  method Missed(list: ListHead, retval0: U16, missed0: U16, i: int, ghost s: Finds, ghost data: map<ListHead, Datum>,
                ghost infos: set<ListData>)
    returns (retval: U16, missed: U16)
    requires Known(s.order, data) && Chain(Reversed(s.order), list) && DataIs(s.order, data, infos) && 0 <= i
    requires s.retval == retval0 && s.missed == missed0 && FirstWanted(s.idx, i % 0x100, data, s.order, |s.order|)
    ensures FindOnce(s, i, data) == Finds(Reversed(s.order), Bumped(s.idx), i % 0x100, retval, s.found, missed)
  {
    hide FindOnce, FirstWanted, Bit, Add16, Bumped;
    FindOnceMissed(s, i, data);
    missed := Add16(missed0, 1);
    SecondOfReversed(s.order, list, data, infos);
    retval := Add16(retval0, Bit(list.next.info.data16, 8));
  }

  /** Lines 151-161, after the reversal. */
  method Hit(list: ListHead, thisFind: ListHead, retval0: U16, found0: U16, i: int, ghost s: Finds,
             ghost data: map<ListHead, Datum>, ghost k: nat, ghost infos: set<ListData>)
    returns (retval: U16, found: U16)
    requires Known(s.order, data) && Chain(Reversed(s.order), list) && DataIs(s.order, data, infos) && 0 <= i
    requires s.retval == retval0 && s.found == found0
    requires k < |s.order| && FirstWanted(s.idx, i % 0x100, data, s.order, k) && thisFind == s.order[k]
    modifies (set x | x in s.order)`next
    ensures Chain(FindOnce(s, i, data).order, list)
    ensures FindOnce(s, i, data) == Finds(FindOnce(s, i, data).order, Bumped(s.idx), i % 0x100, retval, found, s.missed)
  {
    hide FindOnce, FirstWanted, Bit, Add16, Bumped, MovedUp;
    FindOnceFound(s, i, data, k);
    found := Add16(found0, 1);
    retval := retval0;
    if Bit(thisFind.info.data16, 0) == 1 {
      retval := Add16(retval0, Bit(thisFind.info.data16, 9));
    } else {
      Add16Zero(retval0);
    }
    CacheNext(list, thisFind, Reversed(s.order), |s.order| - 1 - k);
  }

  /** One turn of the find loop, on the chain `s.order`. */
  method FindTurn(list0: ListHead, idx0: S16, retval0: U16, found0: U16, missed0: U16, i: int, ghost s: Finds,
                  ghost data: map<ListHead, Datum>, ghost infos: set<ListData>)
    returns (list: ListHead, idx: S16, data16: U16, retval: U16, found: U16, missed: U16)
    requires Known(s.order, data) && Chain(s.order, list0) && DataIs(s.order, data, infos) && 0 <= i
    requires s.idx == idx0 && s.retval == retval0 && s.found == found0 && s.missed == missed0
    modifies (set x | x in s.order)`next
    ensures Chain(FindOnce(s, i, data).order, list)
    ensures FindOnce(s, i, data) == Finds(FindOnce(s, i, data).order, idx, data16, retval, found, missed)
  {
    hide FindOnce, FirstWanted, Bumped, Chain, DataIs, Known, Reversed;
    data16 := i % 0x100;
    retval, found, missed, idx := retval0, found0, missed0, Bumped(idx0);
    var thisFind;
    ghost var k;
    thisFind, k := Find(list0, idx0, data16, s.order, data, infos);
    FirstInRange(idx0, data16, data, s.order, k);
    list := ReverseHead(list0, s.order);
    if thisFind == null {
      retval, missed := Missed(list, retval, missed, i, s, data, infos);
    } else {
      retval, found := Hit(list, thisFind, retval, found, i, s, data, k, infos);
    }
  }

  lemma FirstInRange(idx: S16, data16: U16, data: map<ListHead, Datum>, order: seq<ListHead>, k: nat)
    requires FirstWanted(idx, data16, data, order, k)
    ensures k <= |order|
  {
  }

  method ReverseHead(list0: ListHead, ghost nodes: seq<ListHead>) returns (list: ListHead)
    requires Chain(nodes, list0)
    modifies (set x | x in nodes)`next
    ensures Chain(Reversed(nodes), list)
  {
    var r := Reverse(list0, nodes);
    list := r;
  }

  lemma SecondOfReversed(nodes: seq<ListHead>, list: ListHead, data: map<ListHead, Datum>, infos: set<ListData>)
    requires Chain(Reversed(nodes), list) && DataIs(nodes, data, infos) && |nodes| >= 2
    ensures list.next == nodes[|nodes| - 2] && nodes[|nodes| - 2] in data
    ensures list.next.info.data16 == data[nodes[|nodes| - 2]].data16
  {
    assert Reversed(nodes)[1] == nodes[|nodes| - 2];
  }

  /** Lines 142-169. `garbage` is what the local `info.data16` holds before the first turn. */
  method FindPhase(list0: ListHead, finderIdx: S16, findNum: S16, garbage: U16, ghost nodes: seq<ListHead>,
                   ghost data: map<ListHead, Datum>, ghost infos: set<ListData>)
    returns (list: ListHead, idx: S16, data16: U16, retval: U16, found: U16, missed: U16, ghost order: seq<ListHead>)
    requires Known(nodes, data) && Chain(nodes, list0) && DataIs(nodes, data, infos)
    modifies (set x | x in nodes)`next
    ensures Chain(order, list) && multiset(order) == multiset(nodes)
    ensures Finds(order, idx, data16, retval, found, missed)
         == FindsAfter(Finds(nodes, finderIdx, garbage, 0, 0, 0), if findNum > 0 then findNum else 0, data)
  {
    hide FindOnce, Chain, DataIs, Known;
    list, idx, data16, retval, found, missed := list0, finderIdx, garbage, 0, 0, 0;
    ghost var s0 := Finds(nodes, finderIdx, garbage, 0, 0, 0);
    order := nodes;
    var i := 0;
    while i < findNum
      invariant 0 <= i && (0 < findNum ==> i <= findNum) && (findNum <= 0 ==> i == 0)
      invariant Chain(order, list) && DataIs(nodes, data, infos)
      invariant Finds(order, idx, data16, retval, found, missed) == FindsAfter(s0, i, data)
    {
      FindsRearrange(s0, i, data);
      ghost var s := FindsAfter(s0, i, data);
      DataOfRearranged(order, nodes, data, infos);
      list, idx, data16, retval, found, missed := FindTurn(list, idx, retval, found, missed, i, s, data, infos);
      order := FindOnce(s, i, data).order;
      i := i + 1;
    }
    FindsRearrange(s0, i, data);
  }

  lemma DataOfRearranged(order: seq<ListHead>, nodes: seq<ListHead>, data: map<ListHead, Datum>, infos: set<ListData>)
    requires multiset(order) == multiset(nodes) && DataIs(nodes, data, infos)
    ensures DataIs(order, data, infos) && forall x :: x in order ==> x in nodes
  {
    SameElements(order, nodes);
  }

  // ---------------------------------------------------------------------------
  // Remove, find, checksum, re-insert (lines 173-185)
  // ---------------------------------------------------------------------------

  /** The register after folding the same word in `n` times. */
  ghost function CrcTimes(d: U16, n: nat, c: U16): U16
    decreases n, c
  {
    if n == 0 then c else Crc16(d, CrcTimes(d, n - 1, c))
  }

  /** Lines 178-181 and 189-193: one fold of the head's data per node from `finder0` on. */
  method CrcAlong(list: ListHead, finder0: ListHead?, retval0: U16, ghost nodes: seq<ListHead>, ghost k: nat)
    returns (retval: U16)
    requires Chain(nodes, list) && k <= |nodes| && finder0 == At(nodes, k)
    ensures retval == CrcTimes(list.info.data16, |nodes| - k, retval0)
  {
    hide Crc16;
    retval := retval0;
    var finder := finder0;
    ghost var i := k;
    while finder != null
      invariant k <= i <= |nodes| && finder == At(nodes, i)
      invariant retval == CrcTimes(list.info.data16, i - k, retval0)
      decreases |nodes| - i
    {
      retval := Crc16(list.info.data16, retval);
      finder := finder.next;
      i := i + 1;
    }
  }

  /** How many folds follow when `f` is the first wanted position among `n` nodes. */
  function FoldsFrom(f: nat, n: nat): nat
    requires f <= n && n > 0
  {
    if f < n then n - f else n - 1
  }

  /** The data as they are while the third node is removed: its data sit in the second node. */
  ghost function Removed(data: map<ListHead, Datum>, nodes: seq<ListHead>): map<ListHead, Datum>
    requires |nodes| >= 3 && nodes[2] in data
  {
    data[nodes[1] := data[nodes[2]]]
  }

  lemma WithoutWith<T>(s: seq<T>, k: nat)
    requires k < |s|
    ensures With(Without(s, k), k, s[k]) == s
  {
  }

  lemma RemovedData(nodes: seq<ListHead>, data: map<ListHead, Datum>, infos: set<ListData>)
    requires |nodes| >= 3 && Distinct(nodes) && nodes[2] in data
    requires forall i :: 0 <= i < |nodes| && i != 1 && i != 2 ==>
      nodes[i] in data && nodes[i].info in infos && data[nodes[i]] == Datum(nodes[i].info.data16, nodes[i].info.idx)
    requires nodes[1].info in infos && data[nodes[2]] == Datum(nodes[1].info.data16, nodes[1].info.idx)
    ensures DataIs(Without(nodes, 2), Removed(data, nodes), infos)
    ensures nodes[2] !in Without(nodes, 2)
  {
    var s := Without(nodes, 2);
    forall x | x in s
      ensures x in Removed(data, nodes) && x.info in infos
      ensures Removed(data, nodes)[x] == Datum(x.info.data16, x.info.idx) && x != nodes[2]
    {
      var i :| 0 <= i < |s| && s[i] == x;
      assert s[i] == if i < 2 then nodes[i] else nodes[i + 1];
    }
  }

  /** Lines 175-181. */
  method FindAndFold(list: ListHead, idx: S16, data16: U16, retval0: U16,
                     ghost nodes: seq<ListHead>, ghost data: map<ListHead, Datum>, ghost infos: set<ListData>)
    returns (retval: U16, ghost f: nat)
    requires |nodes| >= 2 && Chain(nodes, list) && DataIs(nodes, data, infos)
    ensures FirstWanted(idx, data16, data, nodes, f) && f <= |nodes|
    ensures retval == CrcTimes(list.info.data16, FoldsFrom(f, |nodes|), retval0)
  {
    hide CrcTimes, DataIs;
    var finder;
    finder, f := Find(list, idx, data16, nodes, data, infos);
    FirstInRange(idx, data16, data, nodes, f);
    if finder == null {
      retval := CrcAlong(list, list.next, retval0, nodes, 1);
    } else {
      retval := CrcAlong(list, finder, retval0, nodes, f);
    }
  }

  /** Lines 173-185: the chain and every node's data are back at the end. */
  method RemoveFindUndo(list: ListHead, idx: S16, data16: U16, retval0: U16,
                        ghost nodes: seq<ListHead>, ghost data: map<ListHead, Datum>, ghost infos: set<ListData>)
    returns (retval: U16, ghost f: nat)
    requires |nodes| >= 3 && Chain(nodes, list) && DataIs(nodes, data, infos) && nodes[0] in data && nodes[2] in data
    modifies nodes[1], nodes[2]
    ensures Chain(nodes, list)
    ensures nodes[1].info == old(nodes[1].info) && nodes[2].info == old(nodes[2].info)
    ensures FirstWanted(idx, data16, Removed(data, nodes), Without(nodes, 2), f)
    ensures f <= |nodes| - 1 && retval == CrcTimes(data[nodes[0]].data16, FoldsFrom(f, |nodes| - 1), retval0)
  {
    hide CrcTimes, FirstWanted, FoldsFrom;
    assert forall i :: 0 <= i < |nodes| ==> nodes[i] in nodes;
    var remover := Remove(list.next, list, nodes, 1);
    RemovedData(nodes, data, infos);
    hide DataIs, Removed;
    retval, f := FindAndFold(list, idx, data16, retval0, Without(nodes, 2), Removed(data, nodes), infos);
    SecondKept(nodes, list);
    remover := UndoRemove(remover, list.next, list, Without(nodes, 2), 1);
    WithoutWith(nodes, 2);
  }

  lemma SecondKept(nodes: seq<ListHead>, list: ListHead)
    requires |nodes| >= 3 && Chain(Without(nodes, 2), list)
    ensures |Without(nodes, 2)| == |nodes| - 1 && list.next == nodes[1] && Without(nodes, 2)[1] == nodes[1]
  {
    assert Without(nodes, 2)[0] == nodes[0];
  }

  // ---------------------------------------------------------------------------
  // core_bench_list
  // ---------------------------------------------------------------------------

  ghost function NodeData(nodes: seq<ListHead>, infos: set<ListData>): (data: map<ListHead, Datum>)
    requires InfosIn(nodes, infos)
    reads (set x | x in nodes)`info, infos`data16, infos`idx
    ensures DataIs(nodes, data, infos)
  {
    map x | x in nodes :: Datum(x.info.data16, x.info.idx)
  }

  /** Every node points to the data cell that `cells` names. */
  ghost predicate InfosAre(nodes: seq<ListHead>, cells: map<ListHead, ListData>)
    reads (set x | x in nodes)`info
  {
    forall x :: x in nodes ==> x in cells && x.info == cells[x]
  }

  /** Lines 171-172. */
  method SortIfAsked(list0: ListHead, finderIdx: S16, res: CoreResults, ghost order: seq<ListHead>,
                     ghost infos: set<ListData>)
    returns (list: ListHead, ghost mid: seq<ListHead>)
    requires |order| >= 3 && Chain(order, list0) && InfosIn(order, infos)
    modifies (set x | x in order)`next, infos`data16
    modifies res`crc, res`crcstate, res`crcmatrix, res`log, res`start
    ensures Chain(mid, list) && multiset(mid) == multiset(order) && InfosIn(order, infos)
    ensures Refreshed(CmpComplex, res, old(DataOf(infos)), DataOf(infos))
    ensures finderIdx <= 0 ==> mid == order && DataOf(infos) == old(DataOf(infos))
    ensures finderIdx <= 0 ==> unchanged(res)
    ensures finderIdx > 0 ==>
      Ran(old(DataOf(infos)), old(TallyOf(res)), old(CellsOf(order)), res.log, DataOf(infos), TallyOf(res))
    ensures finderIdx > 0 ==>
      AllSettled(CmpComplex, res, order, infos) && mid == StableSort(Keys(CmpComplex, order, infos), order)
  {
    hide Chain, Refreshed, DataOf, AllSettled, Keys, StableSort, Ran, CellsOf, TallyOf;
    list, mid := list0, order;
    RefreshedNot(CmpComplex, res, DataOf(infos));
    if finderIdx > 0 {
      list, mid := Mergesort(list0, CmpComplex, res, order, infos);
    }
  }

  /** The cells of these nodes, by `cells`. */
  ghost function CellsAlong(nodes: seq<ListHead>, cells: map<ListHead, ListData>): (s: seq<ListData>)
    ensures (forall x :: x in nodes ==> x in cells) ==>
      |s| == |nodes| && forall i :: 0 <= i < |nodes| ==> s[i] == cells[nodes[i]]
    decreases |nodes|
  {
    if nodes == [] then [] else (if nodes[0] in cells then [cells[nodes[0]]] else []) + CellsAlong(nodes[1..], cells)
  }

  lemma CellsAre(nodes: seq<ListHead>, cells: map<ListHead, ListData>)
    requires InfosAre(nodes, cells)
    ensures CellsOf(nodes) == CellsAlong(nodes, cells)
  {
    assert forall i :: 0 <= i < |nodes| ==> nodes[i] in nodes;
  }

  /** Lines 171-185: sort by content if asked to, then remove, find, checksum and re-insert. */
  method MiddlePart(list0: ListHead, idx: S16, data16: U16, retval0: U16, finderIdx: S16, res: CoreResults,
                    ghost order: seq<ListHead>, ghost infos: set<ListData>, ghost cells: map<ListHead, ListData>)
    returns (list: ListHead, retval: U16, ghost mid: seq<ListHead>, ghost f: nat)
    requires |order| >= 3 && Chain(order, list0) && InfosIn(order, infos) && InfosAre(order, cells)
    modifies (set x | x in order), infos`data16
    modifies res`crc, res`crcstate, res`crcmatrix, res`log, res`start
    ensures Chain(mid, list) && multiset(mid) == multiset(order) && InfosAre(order, cells) && InfosIn(order, infos)
    ensures Refreshed(CmpComplex, res, old(DataOf(infos)), DataOf(infos))
    ensures finderIdx <= 0 ==> mid == order && DataOf(infos) == old(DataOf(infos))
    ensures finderIdx <= 0 ==> unchanged(res)
    ensures finderIdx > 0 ==>
      Ran(old(DataOf(infos)), old(TallyOf(res)), CellsAlong(order, cells), res.log, DataOf(infos), TallyOf(res))
    ensures finderIdx > 0 ==>
      AllSettled(CmpComplex, res, order, infos) && mid == StableSort(Keys(CmpComplex, order, infos), order)
    ensures |mid| == |order| && Ready(mid, NodeData(order, infos)) && mid[0] in NodeData(order, infos)
    ensures mid[2] in NodeData(order, infos)
    ensures FirstWanted(idx, data16, Removed(NodeData(order, infos), mid), Without(mid, 2), f)
    ensures f < |order| && retval == CrcTimes(NodeData(order, infos)[mid[0]].data16, FoldsFrom(f, |order| - 1), retval0)
  {
    hide Chain, Refreshed, DataOf, AllSettled, Keys, StableSort, CrcTimes, FirstWanted, Removed, FoldsFrom, DataIs,
      NodeData, Ready, Ran, CellsOf, CellsAlong, TallyOf, InfosAre;
    CellsAre(order, cells);
    list, mid := SortIfAsked(list0, finderIdx, res, order, infos);
    ghost var data := NodeData(order, infos);
    DataOfRearranged(mid, order, data, infos);
    SameElements(mid, order);
    FirstThree(mid, list, data, infos);
    retval, f := RemoveFindUndo(list, idx, data16, retval0, mid, data, infos);
  }

  lemma FirstThree(mid: seq<ListHead>, list: ListHead, data: map<ListHead, Datum>, infos: set<ListData>)
    requires |mid| >= 3 && Chain(mid, list) && DataIs(mid, data, infos)
    ensures Ready(mid, data) && mid[0] in data && mid[2] in data && list == mid[0]
    ensures data[mid[0]].data16 == list.info.data16
    ensures mid[1] in mid && mid[2] in mid
  {
  }

  lemma SecondOfChain(s: seq<ListHead>, list: ListHead)
    requires Chain(s, list) && |s| >= 2
    ensures list == s[0] && list.next == At(s, 1)
  {
  }

  /** Lines 187-193: sort by `idx`, regenerating the data, and checksum. */
  method LastPart(list0: ListHead, retval0: U16, ghost mid: seq<ListHead>, ghost infos: set<ListData>)
    returns (list: ListHead, retval: U16, ghost sorted: seq<ListHead>)
    requires |mid| >= 2 && Chain(mid, list0) && InfosIn(mid, infos)
    modifies (set x | x in mid)`next, infos`data16
    ensures Chain(sorted, list) && multiset(sorted) == multiset(mid) && |sorted| == |mid| && InfosIn(mid, infos)
    ensures AllSettled(CmpIdx, null, mid, infos) && sorted == StableSort(Keys(CmpIdx, mid, infos), mid)
    ensures Refreshed(CmpIdx, null, old(DataOf(infos)), DataOf(infos))
    ensures retval == CrcTimes(sorted[0].info.data16, |sorted| - 1, retval0)
  {
    hide Chain, Refreshed, DataOf, AllSettled, Keys, StableSort, CrcTimes;
    list, sorted := Mergesort(list0, CmpIdx, null, mid, infos);
    SameElements(sorted, mid);
    SecondOfChain(sorted, list);
    retval := CrcAlong(list, list.next, retval0, sorted, 1);
  }

  /** The `idx` of every node, from the cells it points to and their data. */
  ghost function IdxOf(nodes: seq<ListHead>, cells: map<ListHead, ListData>,
                       data: map<ListData, Datum>): map<ListHead, int> {
    map x | x in nodes && x in cells && cells[x] in data :: data[cells[x]].idx
  }

  lemma KeysAreIdx(nodes: seq<ListHead>, cells: map<ListHead, ListData>, infos: set<ListData>)
    requires InfosIn(nodes, infos) && InfosAre(nodes, cells)
    ensures Keys(CmpIdx, nodes, infos) == IdxOf(nodes, cells, DataOf(infos))
  {
  }

  lemma IdxKept(nodes: seq<ListHead>, mid: seq<ListHead>, cells: map<ListHead, ListData>, res: CoreResults,
                d0: map<ListData, Datum>, d1: map<ListData, Datum>, d2: map<ListData, Datum>)
    requires multiset(mid) == multiset(nodes)
    requires Refreshed(CmpComplex, res, d0, d1) && Refreshed(CmpIdx, null, d1, d2)
    ensures IdxOf(mid, cells, d2) == IdxOf(nodes, cells, d0)
  {
    SameElements(mid, nodes);
  }

  /** The `idx` of every node. */
  ghost function IdxMap(data: map<ListHead, Datum>): map<ListHead, int> {
    map x | x in data :: data[x].idx
  }

  /** The cached result of every node. */
  ghost function CachedMap(data: map<ListHead, Datum>): map<ListHead, int> {
    map x | x in data :: CachedValue(data[x].data16)
  }

  /**
    The sort by content at line 172, if `finderIdx` asks for it: `after` holds whatever results
    the sub-benchmarks gave to the nodes that had none yet, and `mid` is the order by them.
   */
  ghost predicate ContentSorted(finderIdx: S16, order: seq<ListHead>, before: map<ListHead, Datum>,
                                after: map<ListHead, Datum>, mid: seq<ListHead>)
  {
    if finderIdx > 0 then
      && before.Keys == after.Keys && mid == StableSort(CachedMap(after), order)
      && forall x :: x in before ==> ContentCached(before[x], after[x])
    else
      mid == order && after == before
  }

  ghost predicate ContentCached(before: Datum, after: Datum) {
    && after.idx == before.idx && Upper(after.data16) == Upper(before.data16) && Cached(after.data16)
    && (Cached(before.data16) ==> after == before)
  }

  /** Where the find turns leave the list, its search key and the counters. */
  ghost function FindsOf(nodes: seq<ListHead>, data: map<ListHead, Datum>, finderIdx: S16, garbage: U16,
                         seed3: S16): Finds {
    FindsAfter(Finds(nodes, finderIdx, garbage, 0, 0, 0), Turns(seed3), data)
  }

  /**
    A run of the benchmark on the list `nodes` with these inputs, in which the sub-benchmarks
    make the data `after`, goes through the order `mid` and ends with the order `last`.
   */
  ghost predicate RunEnds(nodes: seq<ListHead>, data: map<ListHead, Datum>, finderIdx: S16, garbage: U16, seed3: S16,
                          after: map<ListHead, Datum>, mid: seq<ListHead>, last: seq<ListHead>)
  {
    && ContentSorted(finderIdx, FindsOf(nodes, data, finderIdx, garbage, seed3).order, data, after, mid)
    && last == StableSort(IdxMap(data), mid)
  }

  /** The data of at least three nodes are known. */
  ghost predicate Ready(mid: seq<ListHead>, data: map<ListHead, Datum>) {
    |mid| >= 3 && forall x :: x in mid ==> x in data
  }

  /** The value after the middle part: the head's data word folded once per node from the first wanted one on. */
  ghost function MiddleValue(finds: Finds, mid: seq<ListHead>, data: map<ListHead, Datum>): U16
    requires Ready(mid, data)
  {
    WithoutKnown(mid, data);
    var f := FirstFrom(finds.idx, finds.data16, Removed(data, mid), Without(mid, 2), 0);
    CrcTimes(data[mid[0]].data16, FoldsFrom(f, |mid| - 1), Add16(finds.retval, Score(finds.found, finds.missed)))
  }

  lemma WithoutKnown(mid: seq<ListHead>, data: map<ListHead, Datum>)
    requires Ready(mid, data)
    ensures mid[2] in data && |Without(mid, 2)| == |mid| - 1
    ensures forall x :: x in Without(mid, 2) ==> x in Removed(data, mid)
  {
  }

  lemma MiddleValueIs(finds: Finds, mid: seq<ListHead>, data: map<ListHead, Datum>, f: nat)
    requires Ready(mid, data) && mid[2] in data
    requires FirstWanted(finds.idx, finds.data16, Removed(data, mid), Without(mid, 2), f)
    ensures f <= |mid| - 1
    ensures MiddleValue(finds, mid, data) ==
      CrcTimes(data[mid[0]].data16, FoldsFrom(f, |mid| - 1), Add16(finds.retval, Score(finds.found, finds.missed)))
  {
    WithoutKnown(mid, data);
    FirstIsFirst(finds.idx, finds.data16, Removed(data, mid), Without(mid, 2), 0, f);
  }

  /** What one run of the benchmark went through.  `midCells` and `midData` are after the sort by content. */
  datatype Trace = Trace(
    orders: seq<seq<ListHead>>, finds: Finds,            // the find turns
    cells: seq<ListData>, midCells: map<ListData, Datum>, // the cells of the list after them, and the data of all cells
    midData: map<ListHead, Datum>, mid: seq<ListHead>, sorted: seq<ListHead>)

  ghost function Turns(n: S16): nat {
    if n > 0 then n else 0
  }

  /** Every data word is its own backup. */
  ghost predicate AllRegenerated(data: map<ListHead, Datum>) {
    forall x :: x in data ==> Regenerated(data[x].data16)
  }

  /** `after` has the `idx` and upper byte of `before` everywhere, with the lower byte regenerated. */
  ghost predicate Regeneration(before: map<ListHead, Datum>, after: map<ListHead, Datum>) {
    && before.Keys == after.Keys && AllRegenerated(after)
    && forall x :: x in before ==> after[x].idx == before[x].idx && Upper(after[x].data16) == Upper(before[x].data16)
  }

  lemma RegenerationOfRegenerated(before: map<ListHead, Datum>, after: map<ListHead, Datum>)
    requires Regeneration(before, after) && AllRegenerated(before)
    ensures before == after
  {
    forall x | x in before
      ensures before[x] == after[x]
    {
      assert before[x].data16 == 0x101 * Upper(before[x].data16);
      assert after[x].data16 == 0x101 * Upper(after[x].data16);
    }
  }

  ghost function DataThrough(nodes: seq<ListHead>, cells: map<ListHead, ListData>,
                             d: map<ListData, Datum>): map<ListHead, Datum> {
    map x | x in nodes && x in cells && cells[x] in d :: d[cells[x]]
  }

  lemma NodeDataThrough(nodes: seq<ListHead>, cells: map<ListHead, ListData>, infos: set<ListData>)
    requires InfosIn(nodes, infos) && InfosAre(nodes, cells)
    ensures NodeData(nodes, infos) == DataThrough(nodes, cells, DataOf(infos))
    ensures forall x :: x in nodes ==> x in cells && cells[x] in DataOf(infos)
  {
  }

  lemma BenchData(nodes: seq<ListHead>, mid: seq<ListHead>, cells: map<ListHead, ListData>, infos: set<ListData>,
                  res: CoreResults, d0: map<ListData, Datum>, d1: map<ListData, Datum>, d2: map<ListData, Datum>)
    requires InfosIn(nodes, infos) && InfosAre(nodes, cells) && multiset(mid) == multiset(nodes)
    requires AllSettled(CmpIdx, null, mid, infos) && d2 == DataOf(infos)
    requires Refreshed(CmpComplex, res, d0, d1) && Refreshed(CmpIdx, null, d1, d2)
    ensures Regeneration(DataThrough(nodes, cells, d0), NodeData(nodes, infos))
    ensures InfosIn(mid, infos) && Keys(CmpIdx, mid, infos) == IdxOf(nodes, cells, d0)
  {
    SameElements(mid, nodes);
    NodeDataThrough(nodes, cells, infos);
    KeysAreIdx(mid, cells, infos);
    IdxKept(nodes, mid, cells, res, d0, d1, d2);
    forall x | x in nodes
      ensures Regenerated(x.info.data16)
    {
      assert x in mid;
    }
  }

  /** The sort by content, seen along the list. */
  lemma ContentSeen(finderIdx: S16, order: seq<ListHead>, nodes: seq<ListHead>, cells: map<ListHead, ListData>,
                    infos: set<ListData>,
                    res: CoreResults, d0: map<ListData, Datum>, d1: map<ListData, Datum>, mid: seq<ListHead>)
    requires InfosIn(order, infos) && InfosAre(order, cells) && multiset(order) == multiset(nodes)
    requires d1 == DataOf(infos) && Refreshed(CmpComplex, res, d0, d1)
    requires finderIdx <= 0 ==> mid == order && d1 == d0
    requires finderIdx > 0 ==>
      AllSettled(CmpComplex, res, order, infos) && mid == StableSort(Keys(CmpComplex, order, infos), order)
    ensures ContentSorted(finderIdx, order, DataThrough(nodes, cells, d0), NodeData(order, infos), mid)
  {
    hide StableSort;
    SameElements(order, nodes);
    NodeDataThrough(order, cells, infos);
    var before, after := DataThrough(nodes, cells, d0), NodeData(order, infos);
    assert before == DataThrough(order, cells, d0);
    if finderIdx > 0 {
      assert CachedMap(after) == Keys(CmpComplex, order, infos);
      forall x | x in before
        ensures ContentCached(before[x], after[x])
      {
        assert x in order;
      }
    }
  }

  lemma DataKeys(infos: set<ListData>)
    ensures DataOf(infos).Keys == infos
  {
  }

  lemma MidData(order: seq<ListHead>, nodes: seq<ListHead>, cells: map<ListHead, ListData>, infos: set<ListData>)
    requires InfosIn(order, infos) && InfosAre(order, cells) && multiset(order) == multiset(nodes)
    ensures NodeData(order, infos) == DataThrough(nodes, cells, DataOf(infos)) && DataOf(infos).Keys == infos
  {
    SameElements(order, nodes);
    NodeDataThrough(order, cells, infos);
  }

  /** What is known of the list, the data and the registers after the sort by content. */
  ghost predicate MiddleRight(finderIdx: S16, finds: Finds, nodes: seq<ListHead>, cells: map<ListHead, ListData>,
                              d0: map<ListData, Datum>, t0: Tally, t: Trace, log: seq<U16>, t1: Tally)
  {
    && t.finds == finds && ContentSorted(finderIdx, finds.order, DataThrough(nodes, cells, d0), t.midData, t.mid)
    && (finderIdx > 0 ==> Ran(d0, t0, t.cells, log, t.midCells, t1))
    && t.cells == CellsAlong(finds.order, cells)
    && t.midData == DataThrough(nodes, cells, t.midCells) && t.midCells.Keys == d0.Keys
  }

  /** Lines 171-185, seen along the list. */
  method MiddleSeen(list0: ListHead, retval0: U16, finderIdx: S16, res: CoreResults, idx: S16, data16: U16,
                    ghost finds: Finds, ghost nodes: seq<ListHead>, ghost infos: set<ListData>,
                    ghost cells: map<ListHead, ListData>)
    returns (list: ListHead, retval: U16, ghost t: Trace)
    requires |finds.order| >= 3 && Chain(finds.order, list0) && InfosIn(finds.order, infos)
    requires InfosAre(finds.order, cells)
    requires multiset(finds.order) == multiset(nodes) && |finds.order| == |nodes|
    requires idx == finds.idx && data16 == finds.data16
    requires retval0 == Add16(finds.retval, Score(finds.found, finds.missed))
    modifies (set x | x in finds.order), infos`data16
    modifies res`crc, res`crcstate, res`crcmatrix, res`log, res`start
    ensures Chain(t.mid, list) && multiset(t.mid) == multiset(finds.order)
    ensures InfosAre(finds.order, cells) && InfosIn(finds.order, infos) && t.midCells == DataOf(infos)
    ensures Refreshed(CmpComplex, res, old(DataOf(infos)), DataOf(infos))
    ensures finderIdx <= 0 ==> unchanged(res)
    ensures MiddleRight(finderIdx, finds, nodes, cells, old(DataOf(infos)), old(TallyOf(res)), t, res.log, TallyOf(res))
    ensures Ready(t.mid, t.midData)
    ensures retval == MiddleValue(finds, t.mid, t.midData)
  {
    hide Chain, Refreshed, DataOf, AllSettled, Keys, StableSort, CrcTimes, FirstWanted, Removed, FoldsFrom,
      DataThrough, NodeData, InfosAre, MiddleValue, ContentSorted, Ready, Add16, Score, Ran, CellsOf, CellsAlong,
      TallyOf;
    ghost var order := finds.order;
    ghost var d0 := DataOf(infos);
    DataKeys(infos);
    ghost var mid, f;
    list, retval, mid, f := MiddlePart(list0, idx, data16, retval0, finderIdx, res, order, infos, cells);
    ghost var d1, midData := DataOf(infos), NodeData(order, infos);
    MiddleValueIs(finds, mid, midData, f);
    ContentSeen(finderIdx, order, nodes, cells, infos, res, d0, d1, mid);
    MidData(order, nodes, cells, infos);
    t := Trace([], finds, CellsAlong(order, cells), d1, midData, mid, []);
  }

  /** Lines 171-197. */
  method AfterFinds(list0: ListHead, retval0: U16, finderIdx: S16, res: CoreResults, idx: S16, data16: U16,
                    ghost finds: Finds, ghost nodes: seq<ListHead>, ghost infos: set<ListData>,
                    ghost cells: map<ListHead, ListData>)
    returns (retval: U16, ghost t: Trace, ghost sorted: seq<ListHead>)
    requires |finds.order| >= 3 && Chain(finds.order, list0) && InfosIn(finds.order, infos)
    requires InfosAre(finds.order, cells)
    requires multiset(finds.order) == multiset(nodes) && |finds.order| == |nodes|
    requires idx == finds.idx && data16 == finds.data16
    requires retval0 == Add16(finds.retval, Score(finds.found, finds.missed))
    modifies (set x | x in finds.order), infos`data16
    modifies res`crc, res`crcstate, res`crcmatrix, res`log, res`start
    ensures multiset(t.mid) == multiset(nodes) && |sorted| == |nodes| == |t.mid|
    ensures |nodes| > 0 && Chain(sorted, sorted[0]) && InfosIn(nodes, infos) && InfosAre(nodes, cells)
    ensures sorted == StableSort(IdxOf(nodes, cells, old(DataOf(infos))), t.mid)
    ensures Regeneration(DataThrough(nodes, cells, old(DataOf(infos))), NodeData(nodes, infos))
    ensures finderIdx <= 0 ==> unchanged(res)
    ensures MiddleRight(finderIdx, finds, nodes, cells, old(DataOf(infos)), old(TallyOf(res)), t, res.log, TallyOf(res))
    ensures Ready(t.mid, t.midData)
    ensures retval == CrcTimes(sorted[0].info.data16, |nodes| - 1, MiddleValue(finds, t.mid, t.midData))
  {
    hide Chain, Refreshed, DataOf, AllSettled, Keys, StableSort, CrcTimes, Regeneration, IdxOf, DataThrough, NodeData,
      InfosAre, MiddleValue, MiddleRight, Ready, Add16, Score, TallyOf;
    ghost var order := finds.order;
    ghost var d0 := DataOf(infos);
    var list;
    list, retval, t := MiddleSeen(list0, retval0, finderIdx, res, idx, data16, finds, nodes, infos, cells);
    ghost var d1 := DataOf(infos);
    InfosRearranged(t.mid, order, infos, cells);
    list, retval, sorted := LastPart(list, retval, t.mid, infos);
    InfosRearranged(nodes, t.mid, infos, cells);
    BenchData(nodes, t.mid, cells, infos, res, d0, d1, DataOf(infos));
    FirstOfChain(sorted, list);
  }

  /** What the two checksum loops start from: the searches' value, four for each hit, minus one for each miss. */
  ghost function SearchValue(finderIdx: S16, n: nat, data: map<ListHead, Datum>, orders: seq<seq<ListHead>>): U16
    requires Orders(finderIdx, n, data, orders)
  {
    var hits := Hits(finderIdx, n, data, orders[0]);
    (Gains(finderIdx, n, data, orders) + 4 * hits - (n - hits)) % 0x10000
  }

  lemma ShortenedIs(data: map<ListHead, Datum>, mid: seq<ListHead>)
    requires Ready(mid, data) && Distinct(mid)
    ensures |Without(mid, 2)| == |mid| - 1 && mid[2] in data
    ensures forall x :: x in mid ==> x in data
    ensures forall x :: x in Without(mid, 2) ==> x in Removed(data, mid)
    ensures Along(Removed(data, mid), Without(mid, 2)) == Shortened(Along(data, mid))
  {
    WithoutKnown(mid, data);
    var a, b := Along(Removed(data, mid), Without(mid, 2)), Shortened(Along(data, mid));
    forall i | 0 <= i < |a|
      ensures a[i] == b[i]
    {
      assert Without(mid, 2)[i] == if i < 2 then mid[i] else mid[i + 1];
    }
  }

  lemma KeyLeftIs(finderIdx: S16, garbage: U16, n: nat)
    requires n < 0x8000
    ensures forall d: Datum :: Wanted(IdxAfter(finderIdx, n), if n == 0 then garbage else (n - 1) % 256, d) <==>
      Carries(KeyLeft(finderIdx, garbage, n), d)
  {
  }

  /** Where the last search ends. */
  lemma LastSearch(finderIdx: S16, garbage: U16, n: nat, finds: Finds, mid: seq<ListHead>,
                   midData: map<ListHead, Datum>)
    requires finds.idx == IdxAfter(finderIdx, n) && finds.data16 == (if n == 0 then garbage else (n - 1) % 256)
    requires n < 0x8000 && Ready(mid, midData) && Distinct(mid)
    ensures forall x :: x in mid ==> x in midData
    ensures MiddleValue(finds, mid, midData) ==
      CrcTimes(midData[mid[0]].data16, Folds(KeyLeft(finderIdx, garbage, n), Along(midData, mid)),
               Add16(finds.retval, Score(finds.found, finds.missed)))
  {
    var key := KeyLeft(finderIdx, garbage, n);
    ShortenedIs(midData, mid);
    KeyLeftIs(finderIdx, garbage, n);
    hide CrcTimes, Wanted, Carries, KeyLeft, IdxAfter, Without, Shortened, Place, Removed, FirstWanted;
    PlaceWanted(finds.idx, finds.data16, Removed(midData, mid), Without(mid, 2), key);
    hide MiddleValue, Add16, Score;
    MiddleValueIs(finds, mid, midData, Place(key, Shortened(Along(midData, mid))));
  }

  /** The value after the middle part, said of the data along the list. */
  lemma MiddleIs(finderIdx: S16, garbage: U16, n: nat, data: map<ListHead, Datum>, nodes: seq<ListHead>,
                 orders: seq<seq<ListHead>>, finds: Finds, mid: seq<ListHead>, midData: map<ListHead, Datum>)
    requires Searched(finderIdx, garbage, n, data, nodes, orders, finds) && n < 0x8000
    requires Ready(mid, midData) && Distinct(mid)
    ensures forall x :: x in mid ==> x in midData
    ensures MiddleValue(finds, mid, midData) ==
      CrcTimes(midData[mid[0]].data16, Folds(KeyLeft(finderIdx, garbage, n), Along(midData, mid)),
               SearchValue(finderIdx, n, data, orders))
  {
    hide CrcTimes, Orders, IdxAfter, Counted, Folds, KeyLeft, MiddleValue, Along, Distinct, Add16, Score, SearchValue;
    ScoreSearched(finderIdx, garbage, n, data, nodes, orders, finds);
    LastSearch(finderIdx, garbage, n, finds, mid, midData);
  }

  lemma ScoreSearched(finderIdx: S16, garbage: U16, n: nat, data: map<ListHead, Datum>, nodes: seq<ListHead>,
                      orders: seq<seq<ListHead>>, finds: Finds)
    requires Searched(finderIdx, garbage, n, data, nodes, orders, finds) && n < 0x8000
    ensures Orders(finderIdx, n, data, orders)
    ensures Add16(finds.retval, Score(finds.found, finds.missed)) == SearchValue(finderIdx, n, data, orders)
  {
    var gains, hits := Gains(finderIdx, n, data, orders), Hits(finderIdx, n, data, nodes);
    hide Orders, Gains, Hits, IdxAfter;
    ScoreIs(gains, hits, n);
    hide Add16, Score;
  }

  lemma ScoreIs(gains: nat, hits: nat, n: nat)
    requires hits <= n < 0x8000
    ensures Add16(gains % 0x10000, Score(hits % 0x10000, (n - hits) % 0x10000)) ==
      (gains + 4 * hits - (n - hits)) % 0x10000
  {
    var x := 4 * hits - (n - hits);
    assert Score(hits % 0x10000, (n - hits) % 0x10000) == x;
    SumMod(gains, x);
  }

  /** The benchmark, with the value as the find turns on a sequence give it. */
  method BenchRun(res: CoreResults, finderIdx: S16, garbage: U16, ghost nodes: seq<ListHead>,
                  ghost infos: set<ListData>, ghost cells: map<ListHead, ListData>)
    returns (retval: U16, ghost t: Trace)
    requires |nodes| >= 3 && Chain(nodes, res.list) && InfosIn(nodes, infos) && cells == map x | x in nodes :: x.info
    modifies (set x | x in nodes), infos`data16
    modifies res`crc, res`crcstate, res`crcmatrix, res`log, res`start
    ensures t.finds == FindsOf(nodes, old(NodeData(nodes, infos)), finderIdx, garbage, res.seed3)
    ensures RunEnds(nodes, old(NodeData(nodes, infos)), finderIdx, garbage, res.seed3, t.midData, t.mid, t.sorted)
    ensures |t.sorted| == |nodes| && Chain(t.sorted, t.sorted[0]) && multiset(t.mid) == multiset(nodes)
    ensures InfosIn(nodes, infos) && InfosAre(nodes, cells) && Distinct(nodes)
    ensures Regeneration(old(NodeData(nodes, infos)), NodeData(nodes, infos))
    ensures Ready(t.mid, t.midData) && Known(nodes, old(NodeData(nodes, infos)))
    ensures retval == CrcTimes(t.sorted[0].info.data16, |nodes| - 1, MiddleValue(t.finds, t.mid, t.midData))
    ensures finderIdx <= 0 ==> unchanged(res)
    ensures finderIdx > 0 ==>
      Ran(old(DataOf(infos)), old(TallyOf(res)), t.cells, res.log, t.midCells, TallyOf(res))
    ensures t.cells == CellsAlong(t.finds.order, cells) && multiset(t.finds.order) == multiset(nodes)
    ensures t.midData == DataThrough(nodes, cells, t.midCells) && t.midCells.Keys == infos
  {
    hide Chain, DataOf, Keys, StableSort, CrcTimes, FindsAfter, Add16, Known, DataIs, Regeneration, IdxOf, DataThrough,
      NodeData, InfosAre, MiddleValue, ContentSorted, Ready, IdxMap, Ran, CellsOf, CellsAlong, TallyOf;
    ghost var data, d0 := NodeData(nodes, infos), DataOf(infos);
    BenchStarts(nodes, res.list, cells, infos);
    DataKeys(infos);
    ChainDistinct(nodes, res.list);
    var list, idx, data16, found, missed;
    ghost var order;
    list, idx, data16, retval, found, missed, order :=
      FindPhase(res.list, finderIdx, res.seed3, garbage, nodes, data, infos);
    ghost var finds := Finds(order, idx, data16, retval, found, missed);
    InfosRearranged(order, nodes, infos, cells);
    retval := Add16(retval, Score(found, missed));
    ghost var sorted;
    retval, t, sorted := AfterFinds(list, retval, finderIdx, res, idx, data16, finds, nodes, infos, cells);
    t := t.(sorted := sorted);
  }

  /** The result, from the data along the list before the run and after the sort by content. */
  ghost predicate Summed(retval: U16, first: U16, finderIdx: S16, garbage: U16, n: nat, data: map<ListHead, Datum>,
                         t: Trace)
  {
    && Orders(finderIdx, n, data, t.orders) && |t.mid| >= 3 && (forall x :: x in t.mid ==> x in t.midData)
    && retval ==
      CrcTimes(first, |t.mid| - 1,
        CrcTimes(t.midData[t.mid[0]].data16, Folds(KeyLeft(finderIdx, garbage, n), Along(t.midData, t.mid)),
          SearchValue(finderIdx, n, data, t.orders)))
  }

  /**
    `core_bench_list`, for any list of at least three nodes, any `finder_idx` and any number of
    finds.  The chain ends with the order that such a run has, every node has its own data cell
    back, the data are regenerated, and the value returned is that of the two checksum loops.
    Only the results of the sub-benchmarks, in `res.log`, are left open; they are folded into
    `res.crc` in the order that the list has after the finds.
   */
  method BenchList(res: CoreResults, finderIdx: S16, garbage: U16, ghost nodes: seq<ListHead>,
                   ghost infos: set<ListData>)
    returns (retval: U16, ghost t: Trace)
    requires |nodes| >= 3 && Chain(nodes, res.list) && InfosIn(nodes, infos)
    modifies (set x | x in nodes), infos`data16
    modifies res`crc, res`crcstate, res`crcmatrix, res`log, res`start
    ensures t.finds == FindsOf(nodes, old(NodeData(nodes, infos)), finderIdx, garbage, res.seed3)
    ensures RunEnds(nodes, old(NodeData(nodes, infos)), finderIdx, garbage, res.seed3, t.midData, t.mid, t.sorted)
    ensures |t.sorted| == |nodes| && Chain(t.sorted, t.sorted[0]) && multiset(t.mid) == multiset(nodes)
    ensures InfosIn(nodes, infos) && forall x :: x in nodes ==> x.info == old(x.info)
    ensures Regeneration(old(NodeData(nodes, infos)), NodeData(nodes, infos))
    ensures Searched(finderIdx, garbage, Turns(res.seed3), old(NodeData(nodes, infos)), nodes, t.orders, t.finds)
    ensures Summed(retval, t.sorted[0].info.data16, finderIdx, garbage, Turns(res.seed3),
                   old(NodeData(nodes, infos)), t)
    ensures finderIdx <= 0 ==> unchanged(res)
    ensures finderIdx > 0 ==>
      Ran(old(DataOf(infos)), old(TallyOf(res)), t.cells, res.log, t.midCells, TallyOf(res))
    ensures |t.cells| == |t.finds.order| && forall i :: 0 <= i < |t.cells| ==> t.cells[i] == t.finds.order[i].info
    ensures forall x :: x in nodes ==> x in t.midData && x.info in t.midCells && t.midData[x] == t.midCells[x.info]
  {
    hide Chain, DataOf, StableSort, CrcTimes, FindsAfter, Known, Regeneration, DataThrough, NodeData, InfosAre,
      MiddleValue, ContentSorted, Ready, IdxMap, Ran, CellsAlong, TallyOf, Searched, SearchValue, Folds, KeyLeft, RunEnds;
    ghost var data, cells := NodeData(nodes, infos), map x | x in nodes :: x.info;
    retval, t := BenchRun(res, finderIdx, garbage, nodes, infos, cells);
    CellsKept(nodes, cells);
    ghost var orders := SearchesAre(nodes, finderIdx, garbage, Turns(res.seed3), data);
    t := t.(orders := orders);
    MidDistinct(t.mid, nodes);
    SearchedOrders(finderIdx, garbage, Turns(res.seed3), data, nodes, orders, t.finds);
    MiddleIs(finderIdx, garbage, Turns(res.seed3), data, nodes, orders, t.finds, t.mid, t.midData);
    MidKnown(nodes, cells, t.midCells, infos);
    MidCells(t.finds.order, nodes, cells);
  }

  lemma SearchedOrders(finderIdx: S16, garbage: U16, n: nat, data: map<ListHead, Datum>, nodes: seq<ListHead>,
                       orders: seq<seq<ListHead>>, finds: Finds)
    requires Searched(finderIdx, garbage, n, data, nodes, orders, finds)
    ensures Orders(finderIdx, n, data, orders)
  {
  }

  lemma MidCells(order: seq<ListHead>, nodes: seq<ListHead>, cells: map<ListHead, ListData>)
    requires multiset(order) == multiset(nodes) && InfosAre(nodes, cells)
    ensures var s := CellsAlong(order, cells);
      |s| == |order| && forall i :: 0 <= i < |s| ==> s[i] == order[i].info
  {
    SameElements(order, nodes);
    assert forall i :: 0 <= i < |order| ==> order[i] in order;
  }

  lemma MidDistinct(mid: seq<ListHead>, nodes: seq<ListHead>)
    requires multiset(mid) == multiset(nodes) && Distinct(nodes)
    ensures Distinct(mid) && |mid| == |nodes|
  {
    PermutationDistinct(mid, nodes);
    SameElements(mid, nodes);
  }

  lemma MidKnown(nodes: seq<ListHead>, cells: map<ListHead, ListData>, d: map<ListData, Datum>, infos: set<ListData>)
    requires InfosIn(nodes, infos) && InfosAre(nodes, cells) && d.Keys == infos
    ensures forall x :: x in nodes ==>
      x in DataThrough(nodes, cells, d) && x.info in d && DataThrough(nodes, cells, d)[x] == d[x.info]
  {
  }

  lemma CellsKept(nodes: seq<ListHead>, cells: map<ListHead, ListData>)
    requires InfosAre(nodes, cells)
    ensures forall x :: x in nodes ==> x in cells && x.info == cells[x]
  {
  }

  lemma FirstOfChain(s: seq<ListHead>, list: ListHead)
    requires Chain(s, list)
    ensures s != [] && list == s[0]
  {
  }

  lemma InfosRearranged(a: seq<ListHead>, b: seq<ListHead>, infos: set<ListData>, cells: map<ListHead, ListData>)
    requires multiset(a) == multiset(b) && InfosIn(b, infos) && InfosAre(b, cells)
    ensures InfosIn(a, infos) && InfosAre(a, cells) && |a| == |b| && forall x :: x in a ==> x in b
  {
    SameElements(a, b);
  }

  lemma BenchStarts(nodes: seq<ListHead>, list: ListHead, cells: map<ListHead, ListData>, infos: set<ListData>)
    requires |nodes| >= 3 && Chain(nodes, list) && InfosIn(nodes, infos)
    requires cells == map x | x in nodes :: x.info
    ensures InfosAre(nodes, cells) && Known(nodes, NodeData(nodes, infos))
    ensures DataIs(nodes, NodeData(nodes, infos), infos)
    ensures NodeData(nodes, infos) == DataThrough(nodes, cells, DataOf(infos))
    ensures Keys(CmpIdx, nodes, infos) == IdxOf(nodes, cells, DataOf(infos)) == IdxMap(NodeData(nodes, infos))
  {
    KeysAreIdx(nodes, cells, infos);
    NodeDataThrough(nodes, cells, infos);
  }

  /**
    The claim at line 129: at the end of the benchmark the list is back to its original state.
    It holds whenever the `idx` strictly ascend along the list and every data word is its own backup.
   */
  method BenchListRestores(res: CoreResults, finderIdx: S16, garbage: U16, ghost nodes: seq<ListHead>,
                           ghost infos: set<ListData>)
    returns (retval: U16)
    requires |nodes| >= 3 && Chain(nodes, res.list) && InfosIn(nodes, infos)
    requires Ascending(Keys(CmpIdx, nodes, infos), nodes) && AllRegenerated(NodeData(nodes, infos))
    modifies (set x | x in nodes), infos`data16
    modifies res`crc, res`crcstate, res`crcmatrix, res`log, res`start
    ensures Chain(nodes, res.list)
    ensures InfosIn(nodes, infos) && forall x :: x in nodes ==> x.info == old(x.info)
    ensures NodeData(nodes, infos) == old(NodeData(nodes, infos))
  {
    hide Regeneration, AllRegenerated, NodeData, Ascending, Keys, FindsAfter, CrcTimes, MiddleValue, ContentSorted,
      StableSort, Ready, IdxMap;
    ghost var keys, before := Keys(CmpIdx, nodes, infos), NodeData(nodes, infos);
    KeysKnown(nodes, infos);
    ghost var t;
    retval, t := BenchList(res, finderIdx, garbage, nodes, infos);
    SameElements(t.mid, nodes);
    AscendingRestored(keys, t.mid, nodes);
    RegenerationOfRegenerated(before, NodeData(nodes, infos));
  }

  lemma KeysKnown(nodes: seq<ListHead>, infos: set<ListData>)
    requires InfosIn(nodes, infos)
    ensures Keys(CmpIdx, nodes, infos) == IdxMap(NodeData(nodes, infos))
    ensures forall x :: x in nodes ==> x in Keys(CmpIdx, nodes, infos)
  {
  }

  /**
    Without distinct `idx` the claim fails: three nodes with `idx` 0, 0, 5, and one search for
    `idx` 0, after which line 171 does not sort by content.  The found node is the last of the
    reversed list, so nothing is moved, and the stable sort by `idx` keeps the tied nodes swapped.
   */
  lemma TiedListNotRestored(a: ListHead, b: ListHead, c: ListHead, d: U16)
    requires a != b && b != c && a != c
    ensures var data := map[a := Datum(d, 0), b := Datum(d, 0), c := Datum(d, 5)];
      RunEnds([a, b, c], data, 0, 0, 1, data, [c, b, a], [b, a, c])
  {
    var key := map[a := 0, b := 0, c := 5];
    var data := map[a := Datum(d, 0), b := Datum(d, 0), c := Datum(d, 5)];
    var s := Finds([a, b, c], 0, 0, 0, 0, 0);
    assert IdxMap(data) == key;
    assert FindsAfter(s, 0, data) == s;
    FirstIsFirst(0, 0, data, [a, b, c], 0, 0);
    assert Reversed([a, b, c]) == [c, b, a];
    assert FindsAfter(s, 1, data).order == [c, b, a];
    ThreeSorted(key, a, b, c);
  }

  lemma ThreeSorted(key: map<ListHead, int>, a: ListHead, b: ListHead, c: ListHead)
    requires a != b && b != c && a != c && key == map[a := 0, b := 0, c := 5]
    ensures StableSort(key, [c, b, a]) == [b, a, c]
  {
    assert [c, b, a][1..] == [b, a] && [b, a][1..] == [a] && [a][1..] == [];
    assert StableSort(key, [a]) == [a];
    assert StableSort(key, [b, a]) == [b, a];
    assert Insert(key, c, [a]) == [a] + Insert(key, c, []);
    assert Insert(key, c, [b, a]) == [b] + Insert(key, c, [a]);
  }
}
