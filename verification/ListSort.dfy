/**
  The in-place, non-recursive mergesort of CoreMark's list
  (`core_list_mergesort`, `sw/coremark/core_list_join.c` lines 425-495).

  A chain of cells is described by the sequence of its nodes.  One pass of the C function
  walks the old chain `L` and builds the new chain `out` out of the same nodes; while it
  runs, the nodes not yet taken still carry their old `next` pointers.
 */
module CoreListSort {
  import opened StableOrder
  import opened CoreListData

  // ---------------------------------------------------------------------------
  // Chains
  // ---------------------------------------------------------------------------

  /** The `i`-th node, or NULL past the end. */
  ghost function At(s: seq<ListHead>, i: nat): ListHead? {
    if i < |s| then s[i] else null
  }

  /** `head` leads through exactly the nodes of `s`, in order. */
  ghost predicate Chain(s: seq<ListHead>, head: ListHead?)
    reads (set x | x in s)`next
  {
    && Distinct(s)
    && head == At(s, 0)
    && forall i :: 0 <= i < |s| ==> s[i].next == At(s, i + 1)
  }

  /** A finished stretch: every node but the last leads to the next one. */
  ghost predicate Linked(s: seq<ListHead>)
    reads (set x | x in s)`next
  {
    && Distinct(s)
    && forall i :: 0 <= i < |s| - 1 ==> s[i].next == s[i + 1]
  }

  /** From position `i` on, `L` is untouched and disjoint from `out`. */
  ghost predicate Untouched(L: seq<ListHead>, out: seq<ListHead>, i: nat, n: nat)
    requires i <= n <= |L|
    reads (set x | x in L)`next
  {
    forall m :: i <= m < n ==> L[m] !in out && L[m].next == At(L, m + 1)
  }

  /** The variables `list` and `tail` of the C function. */
  ghost predicate Ends(out: seq<ListHead>, list: ListHead?, tail: ListHead?) {
    if out == [] then list == null && tail == null else list == out[0] && tail == out[|out| - 1]
  }

  /** The comparator runs operations and keeps a log of their results. */
  ghost predicate Logs(cmp: Comparator, res: CoreResults?) {
    cmp.CmpComplex? && res != null
  }

  /** Keys are known for a front part of the nodes. */
  ghost predicate Frontier(nodes: seq<ListHead>, key: map<ListHead, int>) {
    |key| <= |nodes| && key.Keys == Members(nodes[..|key|])
  }

  ghost function Members(s: seq<ListHead>): set<ListHead> {
    set x | x in s
  }

  /** The log is that of the operations on these nodes, in list order. */
  ghost predicate LogHolds(res: CoreResults, key: map<ListHead, int>, infos: set<ListData>)
    reads res`start, res`log, res`crc, res`crcstate, res`crcmatrix, infos`data16, infos`idx
  {
    && Distinct(res.start.nodes) && |res.start.cells| == |res.start.nodes| && Frontier(res.start.nodes, key)
    && Ran(res.start.data, res.start.tally, res.start.cells[..|key|], res.log, DataOf(infos), TallyOf(res))
  }

  /** Every known key is settled, so later comparisons cannot change it. */
  ghost predicate KeysRight(cmp: Comparator, res: CoreResults?, key: map<ListHead, int>, infos: set<ListData>)
    reads key.Keys`info, infos`data16, infos`idx
  {
    forall x :: x in key.Keys ==> x.info in infos && Settled(cmp, res, x.info) && KeyOf(cmp, x.info) == key[x]
  }

  /** The keys are right, and so is the log. */
  ghost predicate KeysHold(cmp: Comparator, res: CoreResults?, key: map<ListHead, int>, infos: set<ListData>)
    reads key.Keys`info, infos`data16, infos`idx
    reads Results(res)`start, Results(res)`log, Results(res)`crc, Results(res)`crcstate, Results(res)`crcmatrix
  {
    && KeysRight(cmp, res, key, infos)
    && (Logs(cmp, res) ==> LogHolds(res, key, infos))
  }

  /** `x` is one of the nodes that the sort started with, and `c` its cell. */
  ghost predicate AtPlace(start: Start, x: ListHead, c: ListData) {
    |start.cells| == |start.nodes| && exists i :: 0 <= i < |start.nodes| && start.nodes[i] == x && start.cells[i] == c
  }

  /** These nodes are among those that the sort started with. */
  ghost predicate Placed(cmp: Comparator, res: CoreResults?, nodes: seq<ListHead>, infos: set<ListData>)
    reads (set x | x in nodes)`info, Results(res)`start
  {
    forall x :: x in nodes ==> x.info in infos && (Logs(cmp, res) ==> AtPlace(res.start, x, x.info))
  }

  /** Comparing `p` and then `q` meets new nodes in list order. */
  ghost predicate InTurn(cmp: Comparator, res: CoreResults?, key: map<ListHead, int>, p: ListHead, q: ListHead)
    reads Results(res)`start
  {
    Logs(cmp, res) ==> NextOnes(res.start.nodes, key, p, q)
  }

  ghost predicate NextOnes(nodes: seq<ListHead>, key: map<ListHead, int>, p: ListHead, q: ListHead) {
    var f := |key|;
    && p != q
    && (p in key || (f < |nodes| && p == nodes[f]))
    && (q in key || (p in key && f < |nodes| && q == nodes[f]) || (p !in key && f + 1 < |nodes| && q == nodes[f + 1]))
  }

  /**
    At most the last node has not been compared; or this is the first pass, which has compared
    the nodes up to position `j`.
   */
  ghost predicate Prompt(cmp: Comparator, res: CoreResults?, L: seq<ListHead>, key: map<ListHead, int>, insize: int,
                         j: nat)
    reads Results(res)`start
  {
    Logs(cmp, res) ==> |key| + 1 >= |res.start.nodes| || (insize == 1 && L == res.start.nodes && |key| == j)
  }

  // ---------------------------------------------------------------------------
  // Merging two neighbouring runs
  // ---------------------------------------------------------------------------

  /** What the merge of the runs `L[|front|..mid]` and `L[mid..end]` is about, and how far it has got. */
  datatype Merge = Merge(
    L: seq<ListHead>, pos: map<ListHead, nat>, key: map<ListHead, int>,
    front: seq<ListHead>, merged: seq<ListHead>, i: nat, mid: nat, t: nat, end: nat)
  {
    /** The new chain: what earlier merges put out, and then this one. */
    ghost function Out(): seq<ListHead> {
      front + merged
    }
  }

  /** Positions `i` and `t` are next; what went out is below everything left of either run. */
  ghost predicate Merging(m: Merge) {
    && |m.front| <= m.i <= m.mid <= m.t <= m.end <= |m.L|
    && Ordered(m.key, m.pos, m.merged + m.L[m.i..m.mid])
    && Ordered(m.key, m.pos, m.merged + m.L[m.t..m.end])
  }

  lemma TakeFromP(m: Merge)
    requires Merging(m) && m.i < m.mid
    requires m.t < m.end ==> Less(m.key, m.pos, m.L[m.i], m.L[m.t])
    ensures Merging(m.(merged := m.merged + [m.L[m.i]], i := m.i + 1))
  {
    var X, x, P, Q := m.merged, m.L[m.i], m.L[m.i + 1..m.mid], m.L[m.t..m.end];
    assert m.L[m.i..m.mid] == [x] + P;
    assert X + m.L[m.i..m.mid] == X + [x] + P;
    OrderedPart(m.key, m.pos, X, [x], P);
    MergeStep(m.key, m.pos, X, x, Q);
  }

  lemma TakeFromQ(m: Merge)
    requires Merging(m) && m.t < m.end
    requires m.i < m.mid ==> Less(m.key, m.pos, m.L[m.t], m.L[m.i])
    ensures Merging(m.(merged := m.merged + [m.L[m.t]], t := m.t + 1))
  {
    var X, x, P, Q := m.merged, m.L[m.t], m.L[m.i..m.mid], m.L[m.t + 1..m.end];
    assert m.L[m.t..m.end] == [x] + Q;
    assert X + m.L[m.t..m.end] == X + [x] + Q;
    OrderedPart(m.key, m.pos, X, [x], Q);
    MergeStep(m.key, m.pos, X, x, P);
  }

  /** `out` is a rearrangement of `L[..i]` and `L[mid..t]`. */
  ghost predicate MadeOf(out: seq<ListHead>, L: seq<ListHead>, i: nat, mid: nat, t: nat) {
    i <= mid <= t <= |L| && multiset(out) == multiset(L[..i]) + multiset(L[mid..t])
  }

  lemma MadeOfTakeP(out: seq<ListHead>, L: seq<ListHead>, i: nat, mid: nat, t: nat)
    requires MadeOf(out, L, i, mid, t) && i < mid
    ensures MadeOf(out + [L[i]], L, i + 1, mid, t)
  {
    assert L[..i + 1] == L[..i] + [L[i]];
  }

  lemma MadeOfTakeQ(out: seq<ListHead>, L: seq<ListHead>, i: nat, mid: nat, t: nat)
    requires MadeOf(out, L, i, mid, t) && t < |L|
    ensures MadeOf(out + [L[t]], L, i, mid, t + 1)
  {
    assert L[mid..t + 1] == L[mid..t] + [L[t]];
  }

  /** Lines 470-476: append `e` to the merged list. */
  method Append(list0: ListHead?, tail0: ListHead?, e: ListHead, ghost out: seq<ListHead>)
    returns (list: ListHead, tail: ListHead)
    requires Linked(out) && Ends(out, list0, tail0) && e !in out
    modifies (set x | x in out)`next
    ensures Linked(out + [e]) && Ends(out + [e], list, tail)
  {
    list := e;
    if tail0 != null {
      tail0.next := e;
      list := list0;
    }
    tail := e;
  }

  /** The merged nodes are among those of `L`, each run's nodes precede the next run's in the original order. */
  ghost predicate Accounted(m: Merge) {
    && Distinct(m.L) && m.key.Keys <= (set x | x in m.L)
    && TakenFrom(m.Out(), m.L, m.i, m.mid, m.t)
  }

  /** `out` is made of these parts of `L` and nothing else. */
  ghost predicate TakenFrom(out: seq<ListHead>, L: seq<ListHead>, i: nat, mid: nat, t: nat) {
    MadeOf(out, L, i, mid, t) && |out| == i + (t - mid) && forall x :: x in out ==> x in L
  }

  lemma TakenFromP(out: seq<ListHead>, L: seq<ListHead>, i: nat, mid: nat, t: nat)
    requires TakenFrom(out, L, i, mid, t) && i < mid
    ensures TakenFrom(out + [L[i]], L, i + 1, mid, t)
  {
    MadeOfTakeP(out, L, i, mid, t);
    hide MadeOf;
  }

  lemma TakenFromQ(out: seq<ListHead>, L: seq<ListHead>, i: nat, mid: nat, t: nat)
    requires TakenFrom(out, L, i, mid, t) && mid <= t < |L|
    ensures TakenFrom(out + [L[t]], L, i, mid, t + 1)
  {
    MadeOfTakeQ(out, L, i, mid, t);
    hide MadeOf;
  }

  lemma AccountedTakeP(m: Merge)
    requires Accounted(m) && m.i < m.mid <= |m.L|
    ensures Accounted(m.(merged := m.merged + [m.L[m.i]], i := m.i + 1))
  {
    hide TakenFrom, Distinct;
    TakenFromP(m.Out(), m.L, m.i, m.mid, m.t);
    assert m.front + (m.merged + [m.L[m.i]]) == m.Out() + [m.L[m.i]];
  }

  lemma AccountedTakeQ(m: Merge)
    requires Accounted(m) && m.mid <= m.t < |m.L|
    ensures Accounted(m.(merged := m.merged + [m.L[m.t]], t := m.t + 1))
  {
    hide TakenFrom, Distinct;
    TakenFromQ(m.Out(), m.L, m.i, m.mid, m.t);
    assert m.front + (m.merged + [m.L[m.t]]) == m.Out() + [m.L[m.t]];
  }

  ghost predicate Cells(m: Merge, list: ListHead?, tail: ListHead?)
    requires m.i <= m.mid <= m.t <= |m.L|
    reads (set x | x in m.L)`next, (set x | x in m.Out())`next
  {
    && Linked(m.Out()) && Ends(m.Out(), list, tail)
    && Untouched(m.L, m.Out(), m.i, m.mid) && Untouched(m.L, m.Out(), m.t, |m.L|)
  }

  method TakeP(list0: ListHead?, tail0: ListHead?, p: ListHead, ghost m: Merge, ghost m': Merge,
               cmp: Comparator, res: CoreResults?, ghost infos: set<ListData>)
    returns (list: ListHead, tail: ListHead, p': ListHead?)
    requires m.i < m.mid <= m.t <= |m.L| && Accounted(m)
    requires Cells(m, list0, tail0) && p == m.L[m.i]
    requires m' == m.(merged := m.merged + [p], i := m.i + 1)
    modifies (set x | x in m.L)`next
    ensures Cells(m', list, tail) && p' == At(m.L, m.i + 1)
    ensures DataOf(infos) == old(DataOf(infos))
    ensures old(KeysHold(cmp, res, m.key, infos)) ==> KeysHold(cmp, res, m.key, infos)
  {
    hide MadeOf, DataOf, Ends, Frontier, Ran, TallyOf;
    p' := p.next;
    assert p' == At(m.L, m.i + 1);
    assert m'.Out() == m.Out() + [p];
    list, tail := Append(list0, tail0, p, m.Out());
  }

  method TakeQ(list0: ListHead?, tail0: ListHead?, q: ListHead, ghost m: Merge, ghost m': Merge,
               cmp: Comparator, res: CoreResults?, ghost infos: set<ListData>)
    returns (list: ListHead, tail: ListHead, q': ListHead?)
    requires m.i <= m.mid <= m.t < |m.L| && Accounted(m)
    requires Cells(m, list0, tail0) && q == m.L[m.t]
    requires m' == m.(merged := m.merged + [q], t := m.t + 1)
    modifies (set x | x in m.L)`next
    ensures Cells(m', list, tail) && q' == At(m.L, m.t + 1)
    ensures DataOf(infos) == old(DataOf(infos))
    ensures old(KeysHold(cmp, res, m.key, infos)) ==> KeysHold(cmp, res, m.key, infos)
  {
    hide MadeOf, DataOf, Ends, Frontier, Ran, TallyOf;
    q' := q.next;
    assert q' == At(m.L, m.t + 1);
    assert m'.Out() == m.Out() + [q];
    list, tail := Append(list0, tail0, q, m.Out());
  }

  /** The part of the loop invariant that does not depend on the heap. */
  ghost predicate Plan(m: Merge) {
    && |m.front| <= m.i <= m.mid <= m.t <= m.end <= |m.L|
    && Merging(m) && Accounted(m) && Before(m.pos, m.L[|m.front|..m.mid], m.L[m.mid..m.end])
  }

  lemma PlanTakeP(m: Merge, m': Merge)
    requires Plan(m) && m.i < m.mid && m' == m.(merged := m.merged + [m.L[m.i]], i := m.i + 1)
    requires m.t < m.end ==> Less(m.key, m.pos, m.L[m.i], m.L[m.t])
    ensures Plan(m')
  {
    TakeFromP(m);
    AccountedTakeP(m);
  }

  lemma PlanTakeQ(m: Merge, m': Merge)
    requires Plan(m) && m.t < m.end && m' == m.(merged := m.merged + [m.L[m.t]], t := m.t + 1)
    requires m.i < m.mid ==> Less(m.key, m.pos, m.L[m.t], m.L[m.i])
    ensures Plan(m')
  {
    TakeFromQ(m);
    AccountedTakeQ(m);
  }

  lemma PlanExtends(m: Merge, bigger: map<ListHead, int>)
    requires Plan(m) && Extends(bigger, m.key) && bigger.Keys <= (set x | x in m.L)
    ensures Plan(m.(key := bigger))
  {
    OrderedExtends(bigger, m.key, m.pos, m.merged + m.L[m.i..m.mid]);
    OrderedExtends(bigger, m.key, m.pos, m.merged + m.L[m.t..m.end]);
  }

  lemma HeadsInOrder(m: Merge)
    requires Plan(m) && m.i < m.mid && m.t < m.end
    ensures m.L[m.i] in m.pos && m.L[m.t] in m.pos && m.pos[m.L[m.i]] < m.pos[m.L[m.t]]
  {
    var P, Q := m.L[|m.front|..m.mid], m.L[m.mid..m.end];
    assert P[m.i - |m.front|] in P && Q[m.t - m.mid] in Q;
  }

  /** The pointer variables of the merge loop stand where the plan says. */
  ghost predicate Pointers(m: Merge, list: ListHead?, tail: ListHead?, p: ListHead?, q: ListHead?)
    requires m.i <= m.mid <= m.t <= |m.L|
    reads (set x | x in m.L)`next, (set x | x in m.Out())`next
  {
    Cells(m, list, tail) && (m.i < m.mid ==> p == m.L[m.i]) && q == At(m.L, m.t)
  }

  method AdvanceP(list0: ListHead?, tail0: ListHead?, p0: ListHead, ghost q: ListHead?, ghost m0: Merge,
                  cmp: Comparator, res: CoreResults?, ghost infos: set<ListData>)
    returns (list: ListHead, tail: ListHead, p: ListHead?, ghost m: Merge)
    requires Plan(m0) && Pointers(m0, list0, tail0, p0, q) && m0.i < m0.mid
    requires m0.t < m0.end ==> Less(m0.key, m0.pos, m0.L[m0.i], m0.L[m0.t])
    modifies (set x | x in m0.L)`next
    ensures m == m0.(merged := m0.merged + [p0], i := m0.i + 1)
    ensures Plan(m) && Pointers(m, list, tail, p, q)
    ensures DataOf(infos) == old(DataOf(infos))
    ensures old(KeysHold(cmp, res, m0.key, infos)) ==> KeysHold(cmp, res, m.key, infos)
  {
    hide Merging, Accounted, Before, Cells, KeysHold, DataOf, Less;
    m := m0.(merged := m0.merged + [p0], i := m0.i + 1);
    PlanTakeP(m0, m);
    list, tail, p := TakeP(list0, tail0, p0, m0, m, cmp, res, infos);
  }

  method AdvanceQ(list0: ListHead?, tail0: ListHead?, ghost p: ListHead?, q0: ListHead, ghost m0: Merge,
                  cmp: Comparator, res: CoreResults?, ghost infos: set<ListData>)
    returns (list: ListHead, tail: ListHead, q: ListHead?, ghost m: Merge)
    requires Plan(m0) && Pointers(m0, list0, tail0, p, q0) && m0.t < m0.end
    requires m0.i < m0.mid ==> Less(m0.key, m0.pos, m0.L[m0.t], m0.L[m0.i])
    modifies (set x | x in m0.L)`next
    ensures m == m0.(merged := m0.merged + [q0], t := m0.t + 1)
    ensures Plan(m) && Pointers(m, list, tail, p, q)
    ensures DataOf(infos) == old(DataOf(infos))
    ensures old(KeysHold(cmp, res, m0.key, infos)) ==> KeysHold(cmp, res, m.key, infos)
  {
    hide Merging, Accounted, Before, Cells, KeysHold, DataOf, Less;
    m := m0.(merged := m0.merged + [q0], t := m0.t + 1);
    PlanTakeQ(m0, m);
    list, tail, q := TakeQ(list0, tail0, q0, m0, m, cmp, res, infos);
  }

  /** One comparison of the two heads, and what it makes known about their order. */
  method CompareHeads(cmp: Comparator, p: ListHead, q: ListHead, res: CoreResults?,
                      ghost list: ListHead?, ghost tail: ListHead?, ghost m0: Merge, ghost infos: set<ListData>)
    returns (c: int, ghost m: Merge)
    requires Plan(m0) && Pointers(m0, list, tail, p, q) && m0.i < m0.mid && m0.t < m0.end
    requires KeysHold(cmp, res, m0.key, infos) && Placed(cmp, res, m0.L, infos) && InTurn(cmp, res, m0.key, p, q)
    requires cmp.CmpComplex? ==> res != null
    modifies infos`data16
    modifies Results(res)`crc, Results(res)`crcstate, Results(res)`crcmatrix, Results(res)`log
    ensures m == m0.(key := m.key) && Plan(m) && Pointers(m, list, tail, p, q) && m.key.Keys == m0.key.Keys + {p, q}
    ensures Extends(m.key, m0.key) && KeysHold(cmp, res, m.key, infos)
    ensures Refreshed(cmp, res, old(DataOf(infos)), DataOf(infos))
    ensures c <= 0 ==> Less(m.key, m.pos, p, q)
    ensures c > 0 ==> Less(m.key, m.pos, q, p)
  {
    hide Merging, Before, KeysHold, Refreshed, DataOf, NextOnes, AtPlace, TakenFrom, Distinct, Ran;
    HeadsInOrder(m0);
    PlacedHeads(m0, cmp, res, p, q, infos);
    ghost var key;
    c, key := CompareCells(cmp, p, q, res, m0.key, infos);
    PlanExtends(m0, key);
    m := m0.(key := key);
    assert m.Out() == m0.Out();
  }

  lemma PlacedHeads(m: Merge, cmp: Comparator, res: CoreResults?, p: ListHead, q: ListHead, infos: set<ListData>)
    requires m.i < m.mid <= m.t < m.end <= |m.L| && p == m.L[m.i] && q == m.L[m.t]
    requires Placed(cmp, res, m.L, infos) && m.key.Keys <= (set x | x in m.L)
    ensures Placed(cmp, res, [p, q], infos) && p in m.L && q in m.L
  {
  }

  /** A comparison whose operations are logged. */
  method CompareLogged(cmp: Comparator, a: ListData, b: ListData, res: CoreResults?, ghost infos: set<ListData>)
    returns (r: int, ghost results: seq<U16>)
    requires a in infos && b in infos
    requires cmp.CmpComplex? ==> res != null
    modifies a`data16, b`data16
    modifies Results(res)`crc, Results(res)`crcstate, Results(res)`crcmatrix, Results(res)`log
    ensures Settled(cmp, res, a) && Settled(cmp, res, b)
    ensures Refreshed(cmp, res, old(DataOf(infos)), DataOf(infos))
    ensures Logs(cmp, res) ==> res.log == old(res.log) + results
    ensures Logs(cmp, res) ==>
      Ran(old(DataOf(infos)), old(TallyOf(res)), [a, b], results, DataOf(infos), TallyOf(res))
    ensures r == KeyOf(cmp, a) - KeyOf(cmp, b)
  {
    hide Ran, Cached, CachedValue, Regenerated, Upper, Refreshed;
    r, results := Compare(cmp, a, b, res, infos);
    if Logs(cmp, res) {
      res.log := res.log + results;
    }
  }

  /** A comparison makes the keys of both nodes known. */
  method CompareKeys(cmp: Comparator, p: ListHead, q: ListHead, res: CoreResults?, ghost key0: map<ListHead, int>,
                     ghost infos: set<ListData>)
    returns (c: int, ghost key: map<ListHead, int>, ghost results: seq<U16>)
    requires KeysRight(cmp, res, key0, infos) && p.info in infos && q.info in infos
    requires cmp.CmpComplex? ==> res != null
    modifies infos`data16
    modifies Results(res)`crc, Results(res)`crcstate, Results(res)`crcmatrix, Results(res)`log
    ensures key.Keys == key0.Keys + {p, q} && Extends(key, key0) && KeysRight(cmp, res, key, infos)
    ensures Refreshed(cmp, res, old(DataOf(infos)), DataOf(infos))
    ensures Logs(cmp, res) ==> res.log == old(res.log) + results
    ensures Logs(cmp, res) ==>
      Ran(old(DataOf(infos)), old(TallyOf(res)), [p.info, q.info], results, DataOf(infos), TallyOf(res))
    ensures c == key[p] - key[q]
  {
    hide Cached, CachedValue, Regenerated, Upper, Ran, TallyOf;
    c, results := CompareLogged(cmp, p.info, q.info, res, infos);
    assert KeysRight(cmp, res, key0, infos) by {
      forall x | x in key0.Keys
        ensures Settled(cmp, res, x.info) && KeyOf(cmp, x.info) == key0[x]
      {
        assert x.info in old(DataOf(infos)).Keys;
      }
    }
    key := key0[p := KeyOf(cmp, p.info)][q := KeyOf(cmp, q.info)];
    TwoKeys(cmp, res, key0, infos, p, q);
  }

  lemma TwoKeys(cmp: Comparator, res: CoreResults?, key0: map<ListHead, int>, infos: set<ListData>, p: ListHead,
                q: ListHead)
    requires KeysRight(cmp, res, key0, infos) && p.info in infos && q.info in infos
    requires Settled(cmp, res, p.info) && Settled(cmp, res, q.info)
    ensures var key := key0[p := KeyOf(cmp, p.info)][q := KeyOf(cmp, q.info)];
      Extends(key, key0) && KeysRight(cmp, res, key, infos)
  {
  }

  method CompareCells(cmp: Comparator, p: ListHead, q: ListHead, res: CoreResults?, ghost key0: map<ListHead, int>,
                      ghost infos: set<ListData>)
    returns (c: int, ghost key: map<ListHead, int>)
    requires KeysHold(cmp, res, key0, infos) && Placed(cmp, res, [p, q], infos) && InTurn(cmp, res, key0, p, q)
    requires cmp.CmpComplex? ==> res != null
    modifies infos`data16
    modifies Results(res)`crc, Results(res)`crcstate, Results(res)`crcmatrix, Results(res)`log
    ensures key.Keys == key0.Keys + {p, q} && Extends(key, key0) && KeysHold(cmp, res, key, infos)
    ensures Refreshed(cmp, res, old(DataOf(infos)), DataOf(infos))
    ensures c == key[p] - key[q]
  {
    hide KeysRight, Refreshed, DataOf, Extends, Ran, NextOnes, AtPlace, Frontier, Distinct, Fresh;
    ghost var results;
    assert p in [p, q] && q in [p, q];
    c, key, results := CompareKeys(cmp, p, q, res, key0, infos);
    if Logs(cmp, res) {
      LogGrows(res.start, key0, key, p, q, p.info, q.info, old(res.log), old(DataOf(infos)), old(TallyOf(res)),
               results, DataOf(infos), TallyOf(res));
    }
  }

  /** The log after a comparison is that of a longer front part of the list. */
  lemma LogGrows(start: Start, key0: map<ListHead, int>, key: map<ListHead, int>, p: ListHead, q: ListHead,
                 pc: ListData, qc: ListData, log: seq<U16>, d0: map<ListData, Datum>, t0: Tally,
                 results: seq<U16>, d1: map<ListData, Datum>, t1: Tally)
    requires Distinct(start.nodes) && |start.cells| == |start.nodes| && Frontier(start.nodes, key0)
    requires NextOnes(start.nodes, key0, p, q) && AtPlace(start, p, pc) && AtPlace(start, q, qc)
    requires key.Keys == key0.Keys + {p, q}
    requires Ran(start.data, start.tally, start.cells[..|key0|], log, d0, t0) && Ran(d0, t0, [pc, qc], results, d1, t1)
    ensures Frontier(start.nodes, key)
    ensures Ran(start.data, start.tally, start.cells[..|key|], log + results, d1, t1)
  {
    hide Ran, Fresh, Frontier, NextOnes, AtPlace, Distinct;
    var nodes, cells, f := start.nodes, start.cells, |key0|;
    var f1 := if p in key0 then f else f + 1;
    FrontierGrows(nodes, key0, key, p, q);
    CellInTurn(start, key0, p, q, pc, qc);
    RanTwice(start.data, start.tally, cells[..f], log, d0, t0, [pc, qc], results, d1, t1);
    FreshAlong(start.data, cells, f, pc, p in key0);
    FreshAlike(start.data, cells[..f] + [pc], cells[..f1], qc);
    FreshAlong(start.data, cells, f1, qc, q in key0);
    assert cells[..f] + [pc, qc] == cells[..f] + [pc] + [qc];
    RanSame(start.data, start.tally, cells[..f] + [pc, qc], cells[..|key|], log + results, d1, t1);
  }

  lemma CellInTurn(start: Start, key0: map<ListHead, int>, p: ListHead, q: ListHead, pc: ListData, qc: ListData)
    requires Distinct(start.nodes) && |start.cells| == |start.nodes| && Frontier(start.nodes, key0)
    requires NextOnes(start.nodes, key0, p, q) && AtPlace(start, p, pc) && AtPlace(start, q, qc)
    ensures var f := |key0|;
      var f1 := if p in key0 then f else f + 1;
      && f <= f1 <= |start.cells|
      && (if p in key0 then pc in start.cells[..f] else f < |start.cells| && pc == start.cells[f])
      && (if q in key0 then qc in start.cells[..f1] else f1 < |start.cells| && qc == start.cells[f1])
  {
    CellAt(start, p, pc);
    CellAt(start, q, qc);
    MembersAre(start.nodes[..|key0|], p, q);
    hide Distinct, Members, AtPlace;
    if q in key0 {
      assert qc in start.cells[..|key0|];
    }
  }

  /** The cell at the same place as the node. */
  lemma CellAt(start: Start, x: ListHead, c: ListData)
    requires AtPlace(start, x, c) && Distinct(start.nodes)
    ensures |start.cells| == |start.nodes|
    ensures forall i :: 0 <= i < |start.nodes| && start.nodes[i] == x ==> start.cells[i] == c
    ensures forall n :: 0 <= n <= |start.nodes| && x in start.nodes[..n] ==> c in start.cells[..n]
  {
    var i :| 0 <= i < |start.nodes| && start.nodes[i] == x && start.cells[i] == c;
    forall n | 0 <= n <= |start.nodes| && x in start.nodes[..n]
      ensures c in start.cells[..n]
    {
      assert i < n;
      assert start.cells[..n][i] == c;
    }
  }

  lemma {:induction false} FrontSize(nodes: seq<ListHead>, n: nat)
    requires Distinct(nodes) && n <= |nodes|
    ensures |Members(nodes[..n])| == n
    decreases n
  {
    if n > 0 {
      FrontSize(nodes, n - 1);
      assert nodes[n - 1] !in nodes[..n - 1];
      OneMember(nodes, n - 1);
    }
  }

  lemma OneMember(nodes: seq<ListHead>, n: nat)
    requires n < |nodes|
    ensures Members(nodes[..n + 1]) == Members(nodes[..n]) + {nodes[n]}
  {
    assert nodes[..n + 1] == nodes[..n] + [nodes[n]];
  }

  lemma FrontStep(nodes: seq<ListHead>, known: set<ListHead>, f: nat, x: ListHead)
    requires f <= |nodes| && known == Members(nodes[..f]) && (x in known || (f < |nodes| && x == nodes[f]))
    ensures known + {x} == Members(nodes[..if x in known then f else f + 1])
  {
    if x !in known {
      OneMember(nodes, f);
    }
    hide Members;
  }

  lemma FrontTwo(nodes: seq<ListHead>, known: set<ListHead>, f: nat, p: ListHead, q: ListHead)
    requires Distinct(nodes) && f <= |nodes| && known == Members(nodes[..f]) && p != q
    requires p in known || (f < |nodes| && p == nodes[f])
    requires var n := if p in known then f else f + 1; q in known || (n < |nodes| && q == nodes[n])
    ensures var n := if p in known then f else f + 1;
      var m := if q in known then n else n + 1;
      m <= |nodes| && known + {p, q} == Members(nodes[..m]) && |known + {p, q}| == m
  {
    hide Distinct, Members;
    var n := if p in known then f else f + 1;
    FrontStep(nodes, known, f, p);
    assert q in known + {p} <==> q in known;
    FrontStep(nodes, known + {p}, n, q);
    assert known + {p, q} == known + {p} + {q};
    FrontSize(nodes, if q in known then n else n + 1);
  }

  lemma FrontierGrows(nodes: seq<ListHead>, key0: map<ListHead, int>, key: map<ListHead, int>, p: ListHead, q: ListHead)
    requires Distinct(nodes) && Frontier(nodes, key0) && NextOnes(nodes, key0, p, q) && key.Keys == key0.Keys + {p, q}
    ensures Frontier(nodes, key)
    ensures |key| == |key0| + (if p in key0 then 0 else 1) + (if q in key0 then 0 else 1)
    ensures p in key0 <==> p in nodes[..|key0|]
    ensures q in key0 ==> q in nodes[..|key0|]
  {
    MembersAre(nodes[..|key0|], p, q);
    hide Distinct, Members;
    FrontTwo(nodes, key0.Keys, |key0|, p, q);
    SizeOfMap(key);
  }

  lemma SizeOfMap(key: map<ListHead, int>)
    ensures |key| == |key.Keys|
  {
  }

  lemma MembersAre(s: seq<ListHead>, p: ListHead, q: ListHead)
    ensures (p in Members(s) <==> p in s) && (q in Members(s) <==> q in s)
  {
  }

  /** `m` is a later state of the merge `m0`. */
  ghost predicate Continues(m0: Merge, m: Merge) {
    && m.L == m0.L && m.pos == m0.pos && m.front == m0.front && m.mid == m0.mid && m.end == m0.end
    && Extends(m.key, m0.key)
  }

  lemma ContinuesSelf(m: Merge)
    ensures Continues(m, m)
  {
  }

  lemma ContinuesTwice(a: Merge, b: Merge, c: Merge)
    requires Continues(a, b) && Continues(b, c)
    ensures Continues(a, c)
  {
  }

  /** Both runs have a head: compare them and move the smaller one over. */
  method CompareAndAdvance(list0: ListHead?, tail0: ListHead?, p0: ListHead, q0: ListHead, ghost m0: Merge,
                           cmp: Comparator, res: CoreResults?, ghost infos: set<ListData>)
    returns (list: ListHead, tail: ListHead, p: ListHead?, q: ListHead?, fromP: bool, ghost m: Merge)
    requires Plan(m0) && Pointers(m0, list0, tail0, p0, q0) && m0.i < m0.mid && m0.t < m0.end
    requires KeysHold(cmp, res, m0.key, infos) && Placed(cmp, res, m0.L, infos) && InTurn(cmp, res, m0.key, p0, q0)
    requires cmp.CmpComplex? ==> res != null
    modifies (set x | x in m0.L)`next, infos`data16
    modifies Results(res)`crc, Results(res)`crcstate, Results(res)`crcmatrix, Results(res)`log
    ensures m.key.Keys == m0.key.Keys + {p0, q0}
    ensures Continues(m0, m) && m.i == m0.i + (if fromP then 1 else 0) && m.t == m0.t + (if fromP then 0 else 1)
    ensures Plan(m) && Pointers(m, list, tail, p, q) && KeysHold(cmp, res, m.key, infos)
    ensures Refreshed(cmp, res, old(DataOf(infos)), DataOf(infos))
  {
    hide Merging, Accounted, Before, Cells, KeysHold, Refreshed, DataOf, Less, Placed, InTurn;
    var c;
    p, q := p0, q0;
    c, m := CompareHeads(cmp, p, q, res, list0, tail0, m0, infos);
    fromP := c <= 0;
    if c <= 0 {
      list, tail, p, m := AdvanceP(list0, tail0, p0, q, m, cmp, res, infos);
    } else {
      list, tail, q, m := AdvanceQ(list0, tail0, p, q0, m, cmp, res, infos);
    }
  }

  /** One turn of the merge loop (lines 455-476). */
  method MergeOne(list0: ListHead?, tail0: ListHead?, p0: ListHead?, q0: ListHead?, psize: int, qsize: int,
                  ghost m0: Merge, cmp: Comparator, res: CoreResults?, ghost infos: set<ListData>)
    returns (list: ListHead, tail: ListHead, p: ListHead?, q: ListHead?, fromP: bool, ghost m: Merge)
    requires Plan(m0) && Pointers(m0, list0, tail0, p0, q0)
    requires psize == m0.mid - m0.i && 0 <= qsize && (m0.t < m0.end <==> qsize > 0 && q0 != null)
    requires m0.i < m0.mid || m0.t < m0.end
    requires KeysHold(cmp, res, m0.key, infos) && Placed(cmp, res, m0.L, infos)
    requires m0.i < m0.mid && m0.t < m0.end ==> InTurn(cmp, res, m0.key, m0.L[m0.i], m0.L[m0.t])
    requires cmp.CmpComplex? ==> res != null
    modifies (set x | x in m0.L)`next, infos`data16
    modifies Results(res)`crc, Results(res)`crcstate, Results(res)`crcmatrix, Results(res)`log
    ensures Continues(m0, m) && m.i == m0.i + (if fromP then 1 else 0) && m.t == m0.t + (if fromP then 0 else 1)
    ensures Plan(m) && Pointers(m, list, tail, p, q) && KeysHold(cmp, res, m.key, infos)
    ensures m0.i < m0.mid && m0.t < m0.end ==> m.key.Keys == m0.key.Keys + {m0.L[m0.i], m0.L[m0.t]}
    ensures m0.i == m0.mid || m0.t == m0.end ==> m.key == m0.key
    ensures Refreshed(cmp, res, old(DataOf(infos)), DataOf(infos))
  {
    hide Merging, Accounted, Before, Cells, KeysHold, Refreshed, DataOf, Less, Placed, InTurn;
    p, q, m := p0, q0, m0;
    RefreshedNot(cmp, res, DataOf(infos));
    if psize == 0 {
      fromP := false;
      list, tail, q, m := AdvanceQ(list0, tail0, p0, q0, m0, cmp, res, infos);
    } else if qsize == 0 || q0 == null {
      fromP := true;
      list, tail, p, m := AdvanceP(list0, tail0, p0, q0, m0, cmp, res, infos);
    } else {
      list, tail, p, q, fromP, m := CompareAndAdvance(list0, tail0, p0, q0, m0, cmp, res, infos);
    }
  }

  /** Lines 453-477: merge the runs at `p0` and `q0` and append them to the list that ends in `tail0`. */
  method MergeRuns(list0: ListHead?, tail0: ListHead?, p0: ListHead, psize0: int, q0: ListHead?, insize: int,
                   cmp: Comparator, res: CoreResults?, ghost m0: Merge, ghost infos: set<ListData>)
    returns (list: ListHead?, tail: ListHead?, q: ListHead?, ghost m: Merge)
    requires Plan(m0) && Pointers(m0, list0, tail0, p0, q0) && m0.merged == [] && m0.i == |m0.front| && m0.t == m0.mid
    requires 0 < psize0 && m0.i + psize0 == m0.mid
    requires m0.end - m0.mid <= insize && (m0.end < |m0.L| ==> m0.end - m0.mid == insize)
    requires Placed(cmp, res, m0.L, infos) && Prompt(cmp, res, m0.L, m0.key, insize, m0.i) && psize0 <= insize
    requires KeysHold(cmp, res, m0.key, infos)
    requires cmp.CmpComplex? ==> res != null
    modifies (set x | x in m0.L)`next, infos`data16
    modifies Results(res)`crc, Results(res)`crcstate, Results(res)`crcmatrix, Results(res)`log
    ensures Continues(m0, m) && m.i == m.mid && m.t == m.end
    ensures Plan(m) && Pointers(m, list, tail, null, q) && KeysHold(cmp, res, m.key, infos)
    ensures Prompt(cmp, res, m.L, m.key, insize, m.end)
    ensures Refreshed(cmp, res, old(DataOf(infos)), DataOf(infos))
  {
    hide Merging, Accounted, Before, Cells, KeysHold, Refreshed, DataOf, Extends, Placed, InTurn, PromptMerge, Prompt;
    list, tail, q, m := list0, tail0, q0, m0;
    var p: ListHead? := p0;
    var psize, qsize := psize0, insize;
    ghost var data := DataOf(infos);
    RefreshedNot(cmp, res, data);
    ContinuesSelf(m0);
    PromptStarts(cmp, res, m0, insize, infos);
    while psize > 0 || (qsize > 0 && q != null)
      invariant Continues(m0, m)
      invariant Plan(m) && Pointers(m, list, tail, p, q)
      invariant psize == m.mid - m.i && qsize == insize - (m.t - m.mid)
      invariant data == DataOf(infos) && Refreshed(cmp, res, old(DataOf(infos)), data)
      invariant KeysHold(cmp, res, m.key, infos) && PromptMerge(cmp, res, m, insize)
      decreases psize + |m.L| - m.t
    {
      var fromP;
      ghost var m' := m;
      PlanDistinct(m);
      PromptNext(cmp, res, m, insize, infos);
      list, tail, p, q, fromP, m := MergeOne(list, tail, p, q, psize, qsize, m, cmp, res, infos);
      PromptStays(cmp, res, m', m, insize);
      ContinuesTwice(m0, m', m);
      RefreshedTwice(cmp, res, old(DataOf(infos)), data, DataOf(infos));
      data := DataOf(infos);
      if fromP {
        psize := psize - 1;
      } else {
        qsize := qsize - 1;
      }
    }
    PromptEnds(cmp, res, m, insize);
  }

  /**
    Within a merge: at most the last node has not been compared; or both runs are single nodes of
    the first pass, and either nothing of them is merged yet or both have been compared.
   */
  ghost predicate PromptMerge(cmp: Comparator, res: CoreResults?, m: Merge, insize: int)
    reads Results(res)`start
  {
    Logs(cmp, res) ==> PromptPair(res.start.nodes, m, insize)
  }

  ghost predicate PromptPair(nodes: seq<ListHead>, m: Merge, insize: int) {
    || |m.key| + 1 >= |nodes|
    || (&& insize == 1 && m.L == nodes && Distinct(nodes) && m.mid == |m.front| + 1 && m.end == m.mid + 1 <= |m.L|
        && (if m.i == |m.front| && m.t == m.mid then
              |m.key| == |m.front| && Frontier(nodes, m.key)
            else
              |m.key| == m.end && (m.i == m.mid || m.t == m.end)))
  }

  lemma PromptStarts(cmp: Comparator, res: CoreResults?, m: Merge, insize: int, infos: set<ListData>)
    requires |m.front| == m.i < m.mid == m.t <= m.end <= |m.L| && m.mid <= m.i + insize
    requires m.end - m.mid <= insize && (m.end < |m.L| ==> m.end - m.mid == insize)
    requires Prompt(cmp, res, m.L, m.key, insize, m.i) && KeysHold(cmp, res, m.key, infos)
    ensures PromptMerge(cmp, res, m, insize)
  {
    hide Ran;
  }

  lemma PlanDistinct(m: Merge)
    requires Plan(m)
    ensures Distinct(m.L)
  {
  }

  /** The nodes that are compared next come in list order. */
  lemma PromptNext(cmp: Comparator, res: CoreResults?, m: Merge, insize: int, infos: set<ListData>)
    requires PromptMerge(cmp, res, m, insize) && KeysHold(cmp, res, m.key, infos) && Placed(cmp, res, m.L, infos)
    requires m.i <= m.mid <= m.t <= m.end <= |m.L| && Distinct(m.L)
    ensures m.i < m.mid && m.t < m.end ==> InTurn(cmp, res, m.key, m.L[m.i], m.L[m.t])
  {
    if m.i < m.mid && m.t < m.end && Logs(cmp, res) {
      hide Ran;
      if |m.key| + 1 >= |res.start.nodes| {
        assert m.L[m.i] in m.L && m.L[m.t] in m.L;
        PlacedIn(res.start, m.L[m.i], m.L[m.i].info);
        PlacedIn(res.start, m.L[m.t], m.L[m.t].info);
        NearlyAll(res.start, m.key, m.L[m.i], m.L[m.t]);
      } else {
        hide Placed;
        Unknown(res.start.nodes, m.key);
      }
    }
  }

  lemma PlacedIn(start: Start, x: ListHead, c: ListData)
    requires AtPlace(start, x, c)
    ensures x in start.nodes
  {
  }

  /** Nodes of the front part are known, and those behind it are not. */
  lemma Unknown(nodes: seq<ListHead>, key: map<ListHead, int>)
    requires Distinct(nodes) && Frontier(nodes, key)
    ensures forall i :: |key| <= i < |nodes| ==> nodes[i] !in key
    ensures forall i :: 0 <= i < |key| ==> nodes[i] in key
  {
    forall i | 0 <= i < |key|
      ensures nodes[i] in key
    {
      assert nodes[..|key|][i] == nodes[i];
    }
  }

  lemma NearlyAll(start: Start, key: map<ListHead, int>, p: ListHead, q: ListHead)
    requires Distinct(start.nodes) && Frontier(start.nodes, key) && |key| + 1 >= |start.nodes| && p != q
    requires p in start.nodes && q in start.nodes
    ensures NextOnes(start.nodes, key, p, q)
  {
    Unknown(start.nodes, key);
    hide Frontier;
    forall x | x in start.nodes && x !in key
      ensures |key| < |start.nodes| && x == start.nodes[|key|]
    {
      var i :| 0 <= i < |start.nodes| && start.nodes[i] == x;
    }
  }

  lemma PromptStays(cmp: Comparator, res: CoreResults?, m: Merge, n: Merge, insize: int)
    requires PromptMerge(cmp, res, m, insize) && Continues(m, n) && Distinct(m.L)
    requires m.i <= m.mid <= m.t <= m.end <= |m.L| && (m.i < m.mid || m.t < m.end)
    requires (n.i == m.i + 1 <= m.mid && n.t == m.t) || (n.i == m.i && n.t == m.t + 1 <= m.end)
    requires |m.front| <= m.i
    requires m.i < m.mid && m.t < m.end ==> n.key.Keys == m.key.Keys + {m.L[m.i], m.L[m.t]}
    requires m.i == m.mid || m.t == m.end ==> n.key == m.key
    ensures PromptMerge(cmp, res, n, insize)
  {
    if Logs(cmp, res) {
      var nodes := res.start.nodes;
      SizeOfMap(m.key);
      SizeOfMap(n.key);
      if |m.key| + 1 >= |nodes| {
        MoreKeys(m.key.Keys, n.key.Keys);
      } else if m.i == |m.front| && m.t == m.mid {
        var f := |m.front|;
        Unknown(nodes, m.key);
        FrontTwo(nodes, m.key.Keys, f, nodes[f], nodes[f + 1]);
      }
    }
  }

  lemma MoreKeys(a: set<ListHead>, b: set<ListHead>)
    requires a <= b
    ensures |a| <= |b|
  {
    assert b == a + (b - a);
  }

  lemma PromptEnds(cmp: Comparator, res: CoreResults?, m: Merge, insize: int)
    requires PromptMerge(cmp, res, m, insize) && |m.front| < m.mid == m.i && m.t == m.end
    ensures Prompt(cmp, res, m.L, m.key, insize, m.end)
  {
  }

  // ---------------------------------------------------------------------------
  // One pass over the list
  // ---------------------------------------------------------------------------

  ghost function Min(a: nat, b: nat): nat {
    if a < b then a else b
  }

  /** A pass that merges runs of size `k` has dealt with `L[..j]`, in `n` merges. */
  ghost predicate Passed(L: seq<ListHead>, pos: map<ListHead, nat>, key: map<ListHead, int>, out: seq<ListHead>,
                         j: nat, k: nat, n: nat)
    requires k > 0
  {
    && j <= |L| && |out| == j && Distinct(L) && multiset(out) == multiset(L[..j])
    && (forall x :: x in out ==> x in L) && key.Keys <= (set x | x in L)
    && Runs(key, pos, L[j..], k) && Before(pos, out, L[j..])
    && (j < |L| ==> FullRuns(key, pos, out, 2 * k)) && Runs(key, pos, out, 2 * k)
    && (n == 0 <==> j == 0) && (n <= 1 ==> Ordered(key, pos, out))
    && (n == 1 ==> j == Min(2 * k, |L|)) && (n > 1 ==> |L| > 2 * k)
  }

  lemma PassStarts(L: seq<ListHead>, pos: map<ListHead, nat>, key: map<ListHead, int>, k: nat)
    requires k > 0 && Distinct(L) && Runs(key, pos, L, k) && key.Keys <= (set x | x in L)
    ensures Passed(L, pos, key, [], 0, k, 0)
  {
    assert L[0..] == L && L[..0] == [];
  }

  lemma PassEnds(L: seq<ListHead>, pos: map<ListHead, nat>, key: map<ListHead, int>, out: seq<ListHead>, k: nat, n: nat)
    requires k > 0 && Passed(L, pos, key, out, |L|, k, n)
    ensures multiset(out) == multiset(L) && |out| == |L| && (forall x :: x in out ==> x in L)
    ensures Runs(key, pos, out, 2 * k)
    ensures key.Keys <= (set x | x in L) && (n <= 1 ==> Ordered(key, pos, out)) && (n > 1 ==> |L| > 2 * k)
  {
    assert L[..|L|] == L;
  }

  lemma FirstRun(key: map<ListHead, int>, pos: map<ListHead, nat>, s: seq<ListHead>, k: nat)
    requires k > 0 && Runs(key, pos, s, k)
    ensures var n := Min(k, |s|); Ordered(key, pos, s[..n]) && Before(pos, s[..n], s[n..]) && Runs(key, pos, s[n..], k)
  {
    if |s| <= k {
      assert s[..|s|] == s && s[|s|..] == [];
    }
  }

  lemma BeforeJoin(pos: map<ListHead, nat>, a: seq<ListHead>, b: seq<ListHead>, c: seq<ListHead>)
    requires Before(pos, a, b + c) && Before(pos, b, c)
    ensures Before(pos, a, b) && Before(pos, a + b, c)
  {
    forall x, y | x in a && (y in b || y in c)
      ensures x in pos && y in pos && pos[x] < pos[y]
    {
      assert y in b + c;
    }
  }

  lemma TwoRuns(key: map<ListHead, int>, pos: map<ListHead, nat>, a: seq<ListHead>, b: seq<ListHead>, c: seq<ListHead>,
                k: nat)
    requires k > 0 && Runs(key, pos, a + (b + c), k)
    requires |a| == Min(k, |a| + |b| + |c|) && |b| == Min(k, |b| + |c|)
    ensures Ordered(key, pos, a) && Ordered(key, pos, b)
    ensures Before(pos, a, b) && Before(pos, a + b, c)
    ensures Runs(key, pos, c, k)
  {
    hide Ordered, Before, Runs;
    FirstRun(key, pos, a + (b + c), k);
    assert (a + (b + c))[..|a|] == a && (a + (b + c))[|a|..] == b + c;
    FirstRun(key, pos, b + c, k);
    assert (b + c)[..|b|] == b && (b + c)[|b|..] == c;
    BeforeJoin(pos, a, b, c);
  }

  lemma ThreeSlices(s: seq<ListHead>, a: nat, b: nat, c: nat)
    requires a <= b <= c <= |s|
    ensures s[a..] == s[a..b] + (s[b..c] + s[c..])
    ensures s[a..c] == s[a..b] + s[b..c]
  {
  }

  /** The next two runs of `L` are sorted and in their original order. */
  lemma NextRuns(L: seq<ListHead>, pos: map<ListHead, nat>, key: map<ListHead, int>, j: nat, k: nat, mid: nat, end: nat)
    requires k > 0 && j < |L| && Runs(key, pos, L[j..], k)
    requires mid == Min(j + k, |L|) && end == Min(mid + k, |L|)
    ensures Ordered(key, pos, L[j..mid]) && Ordered(key, pos, L[mid..end])
    ensures Before(pos, L[j..mid], L[mid..end]) && Before(pos, L[j..end], L[end..])
    ensures Runs(key, pos, L[end..], k)
  {
    hide Ordered, Before, Runs;
    ThreeSlices(L, j, mid, end);
    TwoRuns(key, pos, L[j..mid], L[mid..end], L[end..], k);
  }

  ghost function StartMerge(L: seq<ListHead>, pos: map<ListHead, nat>, key: map<ListHead, int>, out: seq<ListHead>,
                            j: nat, k: nat): Merge
    requires j < |L|
  {
    var mid := Min(j + k, |L|);
    Merge(L, pos, key, out, [], j, mid, mid, Min(mid + k, |L|))
  }

  lemma PointersStart(L: seq<ListHead>, pos: map<ListHead, nat>, key: map<ListHead, int>, out: seq<ListHead>, j: nat,
                      k: nat, list: ListHead?, tail: ListHead?, p: ListHead?, q: ListHead?)
    requires j < |L| && Linked(out) && Ends(out, list, tail) && Untouched(L, out, j, |L|)
    requires p == L[j] && q == At(L, Min(j + k, |L|))
    ensures var m := StartMerge(L, pos, key, out, j, k); Pointers(m, list, tail, p, q)
  {
    assert StartMerge(L, pos, key, out, j, k).Out() == out;
  }

  lemma PointersEnd(m: Merge, list: ListHead?, tail: ListHead?, q: ListHead?)
    requires m.i == m.mid <= m.t == m.end <= |m.L| && Pointers(m, list, tail, null, q)
    ensures Linked(m.Out()) && Ends(m.Out(), list, tail) && Untouched(m.L, m.Out(), m.end, |m.L|) && q == At(m.L, m.end)
  {
  }

  /** Line 483. */
  method CloseList(head: ListHead?, tail: ListHead?, ghost out: seq<ListHead>) returns (list: ListHead)
    requires Linked(out) && Ends(out, head, tail) && out != []
    modifies (set x | x in out)`next
    ensures Chain(out, list)
  {
    tail.next := null;
    list := head;
  }

  lemma MergeStarts(L: seq<ListHead>, pos: map<ListHead, nat>, key: map<ListHead, int>, out: seq<ListHead>, j: nat,
                    k: nat, n: nat)
    requires k > 0 && j < |L| && Passed(L, pos, key, out, j, k, n)
    ensures Plan(StartMerge(L, pos, key, out, j, k))
  {
    var m := StartMerge(L, pos, key, out, j, k);
    NextRuns(L, pos, key, j, k, m.mid, m.end);
    assert [] + L[j..m.mid] == L[j..m.mid] && [] + L[m.mid..m.end] == L[m.mid..m.end];
    assert m.Out() == out && L[m.mid..m.mid] == [];
  }

  lemma MergedElements(m: Merge, j: nat)
    requires Accounted(m) && |m.front| == j <= m.i == m.mid <= m.t == m.end <= |m.L|
    requires multiset(m.front) == multiset(m.L[..j])
    ensures |m.merged| == m.end - j && multiset(m.merged) == multiset(m.L[j..m.end])
    ensures multiset(m.Out()) == multiset(m.L[..m.end])
  {
    var L := m.L;
    assert L[..m.end] == L[..m.mid] + L[m.mid..m.end];
    assert L[..m.end] == L[..j] + L[j..m.end];
    assert multiset(m.Out()) == multiset(m.front) + multiset(m.merged);
    assert multiset(m.merged) == multiset(L[..m.end]) - multiset(L[..j]);
  }

  lemma MergeEnds(L: seq<ListHead>, pos: map<ListHead, nat>, key: map<ListHead, int>, out: seq<ListHead>, j: nat,
                  k: nat, n: nat, m: Merge)
    requires k > 0 && j < |L| && Passed(L, pos, key, out, j, k, n)
    requires Continues(StartMerge(L, pos, key, out, j, k), m) && Plan(m) && m.i == m.mid && m.t == m.end
    ensures Passed(L, pos, m.key, m.Out(), m.end, k, n + 1) && |m.Out()| == m.end
  {
    hide Ordered, Before, Runs, FullRuns, MadeOf;
    var X := m.merged;
    MergedElements(m, j);
    assert X + L[m.mid..m.mid] == X;
    NextRuns(L, pos, key, j, k, m.mid, m.end);
    RunsExtends(m.key, key, pos, L[m.end..], k);
    RunsExtends(m.key, key, pos, out, 2 * k);
    MergedBetween(L, pos, out, X, j, m.end);
    AppendRun(m.key, pos, out, X, 2 * k);
    if n == 0 {
      assert m.Out() == X;
    }
  }

  lemma MergedBetween(L: seq<ListHead>, pos: map<ListHead, nat>, out: seq<ListHead>, X: seq<ListHead>, j: nat, end: nat)
    requires j <= end <= |L| && multiset(X) == multiset(L[j..end])
    requires Before(pos, out, L[j..]) && Before(pos, L[j..end], L[end..])
    ensures Before(pos, out, X) && Before(pos, out + X, L[end..])
  {
    SameElements(X, L[j..end]);
    assert L[j..] == L[j..end] + L[end..];
    BeforeJoin(pos, out, L[j..end], L[end..]);
  }

  /** Lines 441-447: step up to `insize` places along from `p`. */
  method StepAlong(p: ListHead, insize: int, ghost L: seq<ListHead>, ghost out: seq<ListHead>, ghost j: nat)
    returns (q: ListHead?, psize: int)
    requires insize > 0 && j < |L| && p == L[j] && Untouched(L, out, j, |L|)
    ensures psize == Min(j + insize, |L|) - j && q == At(L, j + psize)
  {
    q := p;
    psize := 0;
    var i := 0;
    while i < insize
      invariant 0 <= i == psize <= insize && j + i < |L| && q == L[j + i]
    {
      psize := psize + 1;
      q := q.next;
      if q == null {
        return;
      }
      i := i + 1;
    }
  }

  /** Lines 439-480: one turn of the pass, the two runs that start at `p`. */
  method MergeNextPair(head0: ListHead?, tail0: ListHead?, p: ListHead, insize: int, cmp: Comparator, res: CoreResults?,
                       ghost L: seq<ListHead>, ghost pos: map<ListHead, nat>, ghost key0: map<ListHead, int>,
                       ghost infos: set<ListData>, ghost out0: seq<ListHead>, ghost j0: nat, ghost n: nat)
    returns (head: ListHead?, tail: ListHead?, q: ListHead?, ghost out: seq<ListHead>, ghost j: nat,
             ghost key: map<ListHead, int>)
    requires 0 < insize && |out0| == j0 < |L| && Passed(L, pos, key0, out0, j0, insize, n)
    requires p == L[j0] && Linked(out0) && Ends(out0, head0, tail0) && Untouched(L, out0, j0, |L|)
    requires KeysHold(cmp, res, key0, infos) && Placed(cmp, res, L, infos) && Prompt(cmp, res, L, key0, insize, j0)
    requires cmp.CmpComplex? ==> res != null
    modifies (set x | x in L)`next, infos`data16
    modifies Results(res)`crc, Results(res)`crcstate, Results(res)`crcmatrix, Results(res)`log
    ensures Prompt(cmp, res, L, key, insize, j)
    ensures |out| == j <= |L| && j0 < j && Passed(L, pos, key, out, j, insize, n + 1)
    ensures q == At(L, j) && Linked(out) && Ends(out, head, tail) && Untouched(L, out, j, |L|)
    ensures Extends(key, key0) && KeysHold(cmp, res, key, infos)
    ensures Refreshed(cmp, res, old(DataOf(infos)), DataOf(infos))
  {
    hide Passed, Runs, Ordered, Plan, Linked, Ends, Untouched, Refreshed, DataOf, KeysHold, Pointers, Extends, Placed,
      Prompt;
    var psize;
    q, psize := StepAlong(p, insize, L, out0, j0);
    ghost var m0 := StartMerge(L, pos, key0, out0, j0, insize);
    ghost var m;
    MergeStarts(L, pos, key0, out0, j0, insize, n);
    PointersStart(L, pos, key0, out0, j0, insize, head0, tail0, p, q);
    head, tail, q, m := MergeRuns(head0, tail0, p, psize, q, insize, cmp, res, m0, infos);
    PointersEnd(m, head, tail, q);
    MergeEnds(L, pos, key0, out0, j0, insize, n, m);
    out, j, key := m.Out(), m.end, m.key;
  }

  /** Lines 432-486: one pass, merging runs of `insize` nodes in pairs. */
  method MergePass(list0: ListHead, insize: int, cmp: Comparator, res: CoreResults?,
                   ghost L: seq<ListHead>, ghost pos: map<ListHead, nat>, ghost key0: map<ListHead, int>,
                   ghost infos: set<ListData>)
    returns (list: ListHead, nmerges: int, ghost out: seq<ListHead>, ghost key: map<ListHead, int>)
    requires 0 < insize && L != [] && Chain(L, list0) && Runs(key0, pos, L, insize)
    requires key0.Keys <= (set x | x in L) && KeysHold(cmp, res, key0, infos)
    requires Placed(cmp, res, L, infos) && Prompt(cmp, res, L, key0, insize, 0)
    requires cmp.CmpComplex? ==> res != null
    modifies (set x | x in L)`next, infos`data16
    modifies Results(res)`crc, Results(res)`crcstate, Results(res)`crcmatrix, Results(res)`log
    ensures Chain(out, list) && multiset(out) == multiset(L) && Runs(key, pos, out, 2 * insize)
    ensures Extends(key, key0) && key.Keys <= (set x | x in L) && KeysHold(cmp, res, key, infos)
    ensures Refreshed(cmp, res, old(DataOf(infos)), DataOf(infos))
    ensures nmerges <= 1 ==> Ordered(key, pos, out)
    ensures nmerges > 1 ==> |L| > 2 * insize
    ensures Prompt(cmp, res, L, key, insize, |L|)
  {
    hide Passed, Chain, Runs, Ordered, Linked, Ends, Untouched, Refreshed, DataOf, KeysHold, Extends, Placed, Prompt;
    var p: ListHead? := list0;
    var head: ListHead?, tail: ListHead? := null, null;
    nmerges := 0;
    out, key := [], key0;
    ghost var j, data := 0, DataOf(infos);
    NothingBuilt(key0, L, list0);
    PassStarts(L, pos, key, insize);
    RefreshedNot(cmp, res, data);
    while p != null
      invariant 0 <= nmerges && Passed(L, pos, key, out, j, insize, nmerges) && |out| == j <= |L|
      invariant p == At(L, j) && Linked(out) && Ends(out, head, tail) && Untouched(L, out, j, |L|)
      invariant data == DataOf(infos) && Refreshed(cmp, res, old(DataOf(infos)), data)
      invariant Extends(key, key0) && KeysHold(cmp, res, key, infos) && Prompt(cmp, res, L, key, insize, j)
      decreases |L| - j
    {
      ghost var key' := key;
      head, tail, p, out, j, key := MergeNextPair(head, tail, p, insize, cmp, res, L, pos, key, infos, out, j, nmerges);
      nmerges := nmerges + 1;
      RefreshedTwice(cmp, res, old(DataOf(infos)), data, DataOf(infos));
      ExtendsTwice(key, key', key0);
      data := DataOf(infos);
    }
    PassEnds(L, pos, key, out, insize, nmerges);
    list := CloseList(head, tail, out);
  }

  lemma ExtendsTwice(a: map<ListHead, int>, b: map<ListHead, int>, c: map<ListHead, int>)
    requires Extends(a, b) && Extends(b, c)
    ensures Extends(a, c)
  {
  }

  lemma NothingBuilt(key: map<ListHead, int>, L: seq<ListHead>, list: ListHead?)
    requires Chain(L, list)
    ensures Distinct(L) && Linked([]) && Ends([], null, null) && Extends(key, key) && Untouched(L, [], 0, |L|)
    ensures list == At(L, 0)
  {
  }

  // ---------------------------------------------------------------------------
  // The sort
  // ---------------------------------------------------------------------------

  /** The keys the comparator sees in `nodes`. */
  ghost function Keys(cmp: Comparator, nodes: seq<ListHead>, infos: set<ListData>): map<ListHead, int>
    requires InfosIn(nodes, infos)
    reads (set x | x in nodes)`info, infos`data16, infos`idx
  {
    map x | x in nodes :: KeyOf(cmp, x.info)
  }

  ghost predicate InfosIn(nodes: seq<ListHead>, infos: set<ListData>)
    reads (set x | x in nodes)`info
  {
    forall x :: x in nodes ==> x.info in infos
  }

  ghost predicate AllSettled(cmp: Comparator, res: CoreResults?, nodes: seq<ListHead>, infos: set<ListData>)
    reads (set x | x in nodes)`info, infos`data16
  {
    forall x :: x in nodes ==> x.info in infos && Settled(cmp, res, x.info)
  }

  /** An ordered list of at least two nodes has been compared all over, and is the stable sort by its final keys. */
  lemma SortedBy(cmp: Comparator, res: CoreResults?, key: map<ListHead, int>, infos: set<ListData>,
                 nodes: seq<ListHead>, sorted: seq<ListHead>)
    requires Distinct(nodes) && multiset(sorted) == multiset(nodes) && |nodes| >= 2 && InfosIn(nodes, infos)
    requires KeysRight(cmp, res, key, infos) && Ordered(key, Positions(nodes), sorted)
    requires key.Keys <= (set x | x in nodes)
    ensures AllSettled(cmp, res, nodes, infos) && sorted == StableSort(Keys(cmp, nodes, infos), nodes)
    ensures forall x :: x in nodes ==> x in key
  {
    SameElements(sorted, nodes);
    forall x | x in nodes
      ensures x in key.Keys
    {
      var i :| 0 <= i < |sorted| && sorted[i] == x;
      assert i > 0 ==> Less(key, Positions(nodes), sorted[0], sorted[i]);
      assert i == 0 ==> Less(key, Positions(nodes), sorted[0], sorted[1]);
    }
    OrderedExtends(Keys(cmp, nodes, infos), key, Positions(nodes), sorted);
    StableSortUnique(Keys(cmp, nodes, infos), nodes, sorted);
  }

  lemma SingleNode(nodes: seq<ListHead>, sorted: seq<ListHead>)
    requires multiset(sorted) == multiset(nodes) && |nodes| == 1
    ensures sorted == nodes
  {
    SameElements(sorted, nodes);
    assert sorted[0] in nodes;
  }

  lemma LogOfAll(cmp: Comparator, res: CoreResults, key: map<ListHead, int>, nodes: seq<ListHead>, infos: set<ListData>)
    requires cmp.CmpComplex? && KeysHold(cmp, res, key, infos) && res.start.nodes == nodes
    requires forall x :: x in nodes ==> x in key
    ensures Ran(res.start.data, res.start.tally, res.start.cells, res.log, DataOf(infos), TallyOf(res))
  {
    hide LogHolds;
    LogEnds(res, key, nodes, infos);
  }

  lemma ChainDistinct(nodes: seq<ListHead>, list: ListHead?)
    requires Chain(nodes, list)
    ensures Distinct(nodes)
  {
  }

  ghost predicate IsPositions(pos: map<ListHead, nat>, nodes: seq<ListHead>) {
    Distinct(nodes) && pos == Positions(nodes)
  }

  lemma NumberNodes(nodes: seq<ListHead>, list: ListHead) returns (pos: map<ListHead, nat>)
    requires Chain(nodes, list)
    ensures IsPositions(pos, nodes) && Runs(map[], pos, nodes, 1)
  {
    pos := Positions(nodes);
    SingletonRuns(map[], pos, nodes);
  }

  lemma Outcome(cmp: Comparator, res: CoreResults?, key: map<ListHead, int>, infos: set<ListData>,
                nodes: seq<ListHead>, sorted: seq<ListHead>, pos: map<ListHead, nat>)
    requires IsPositions(pos, nodes) && nodes != [] && multiset(sorted) == multiset(nodes) && InfosIn(nodes, infos)
    requires KeysHold(cmp, res, key, infos) && Ordered(key, pos, sorted) && key.Keys <= (set x | x in nodes)
    ensures |nodes| >= 2 ==> AllSettled(cmp, res, nodes, infos) && sorted == StableSort(Keys(cmp, nodes, infos), nodes)
    ensures |nodes| >= 2 ==> forall x :: x in nodes ==> x in key
    ensures |nodes| == 1 ==> sorted == nodes
  {
    hide LogHolds, KeysRight;
    if |nodes| >= 2 {
      SortedBy(cmp, res, key, infos, nodes, sorted);
    } else {
      SingleNode(nodes, sorted);
    }
  }

  /** The outer loop, lines 429-491: the run size doubles until one merge was enough. */
  method SortLoop(list0: ListHead, cmp: Comparator, res: CoreResults?,
                  ghost nodes: seq<ListHead>, ghost pos: map<ListHead, nat>, ghost infos: set<ListData>)
    returns (list: ListHead, ghost sorted: seq<ListHead>, ghost key: map<ListHead, int>)
    requires nodes != [] && Chain(nodes, list0) && Runs(map[], pos, nodes, 1)
    requires Placed(cmp, res, nodes, infos) && KeysHold(cmp, res, map[], infos) && Prompt(cmp, res, nodes, map[], 1, 0)
    requires cmp.CmpComplex? ==> res != null
    modifies (set x | x in nodes)`next, infos`data16
    modifies Results(res)`crc, Results(res)`crcstate, Results(res)`crcmatrix, Results(res)`log
    ensures Chain(sorted, list) && multiset(sorted) == multiset(nodes) && Ordered(key, pos, sorted)
    ensures key.Keys <= (set x | x in nodes) && KeysHold(cmp, res, key, infos)
    ensures Refreshed(cmp, res, old(DataOf(infos)), DataOf(infos))
  {
    hide Runs, Ordered, Chain, Refreshed, DataOf, Extends, KeysHold, Placed, Prompt;
    key := map[];
    ghost var data := DataOf(infos);
    var insize := 1;
    list, sorted := list0, nodes;
    RefreshedNot(cmp, res, data);
    while true
      invariant 1 <= insize && (insize == 1 || insize < |nodes|)
      invariant Chain(sorted, list) && multiset(sorted) == multiset(nodes) && Runs(key, pos, sorted, insize)
      invariant key.Keys <= (set x | x in nodes) && KeysHold(cmp, res, key, infos)
      invariant data == DataOf(infos) && Refreshed(cmp, res, old(DataOf(infos)), data)
      invariant Prompt(cmp, res, sorted, key, insize, 0) && Placed(cmp, res, nodes, infos)
      decreases |nodes| - insize
    {
      var nmerges;
      SameElements(sorted, nodes);
      PlacedRearranged(cmp, res, sorted, nodes, infos);
      ghost var before := sorted;
      list, nmerges, sorted, key := MergePass(list, insize, cmp, res, sorted, pos, key, infos);
      RefreshedTwice(cmp, res, old(DataOf(infos)), data, DataOf(infos));
      data := DataOf(infos);
      if nmerges <= 1 {
        return;
      }
      PromptAgain(cmp, res, before, key, insize, sorted, 2 * insize);
      insize := insize * 2;
    }
  }

  lemma PlacedRearranged(cmp: Comparator, res: CoreResults?, a: seq<ListHead>, b: seq<ListHead>, infos: set<ListData>)
    requires Placed(cmp, res, b, infos) && forall x :: x in a ==> x in b
    ensures Placed(cmp, res, a, infos)
  {
  }

  /** After a pass at most the last node has not been compared. */
  lemma PromptAgain(cmp: Comparator, res: CoreResults?, L: seq<ListHead>, key: map<ListHead, int>, k: int,
                    out: seq<ListHead>, n: int)
    requires Prompt(cmp, res, L, key, k, |L|)
    ensures Prompt(cmp, res, out, key, n, 0)
  {
  }

  /** The cells that the nodes point to. */
  ghost function CellsOf(nodes: seq<ListHead>): (cells: seq<ListData>)
    reads (set x | x in nodes)`info
    ensures |cells| == |nodes| && forall i :: 0 <= i < |nodes| ==> cells[i] == nodes[i].info
    decreases |nodes|
  {
    if nodes == [] then [] else [nodes[0].info] + CellsOf(nodes[1..])
  }

  /** The log starts empty. */
  ghost method StartLog(cmp: Comparator, res: CoreResults?, nodes: seq<ListHead>, infos: set<ListData>)
    requires Distinct(nodes) && InfosIn(nodes, infos)
    modifies Results(res)`start, Results(res)`log
    ensures Logs(cmp, res) ==> res.start == Start(nodes, CellsOf(nodes), old(DataOf(infos)), old(TallyOf(res)))
    ensures DataOf(infos) == old(DataOf(infos)) && CellsOf(nodes) == old(CellsOf(nodes))
    ensures KeysHold(cmp, res, map[], infos) && Placed(cmp, res, nodes, infos) && Prompt(cmp, res, nodes, map[], 1, 0)
  {
    hide Ran, DataOf, TallyOf, Distinct, AtPlace, CellsOf;
    if Logs(cmp, res) {
      res.start := Start(nodes, CellsOf(nodes), DataOf(infos), TallyOf(res));
      res.log := [];
      RanNone(DataOf(infos), TallyOf(res));
      assert CellsOf(nodes)[..0] == [] && nodes[..0] == [];
      AllPlaced(res.start);
    }
  }

  lemma AllPlaced(start: Start)
    requires |start.cells| == |start.nodes|
    requires forall i :: 0 <= i < |start.nodes| ==> start.cells[i] == start.nodes[i].info
    ensures forall x :: x in start.nodes ==> AtPlace(start, x, x.info)
  {
    forall x | x in start.nodes
      ensures AtPlace(start, x, x.info)
    {
      var i :| 0 <= i < |start.nodes| && start.nodes[i] == x;
      assert start.nodes[i] == x && start.cells[i] == x.info;
    }
  }

  /** When every node has been compared, the log is that of the whole list. */
  lemma LogEnds(res: CoreResults, key: map<ListHead, int>, nodes: seq<ListHead>, infos: set<ListData>)
    requires LogHolds(res, key, infos) && res.start.nodes == nodes && forall x :: x in nodes ==> x in key
    ensures Ran(res.start.data, res.start.tally, res.start.cells, res.log, DataOf(infos), TallyOf(res))
  {
    hide Ran;
    assert nodes[..|nodes|] == nodes;
    FrontSize(nodes, |nodes|);
    MoreKeys(Members(nodes), key.Keys);
    SizeOfMap(key);
    assert res.start.cells[..|key|] == res.start.cells;
  }

  method SortLogged(list0: ListHead, cmp: Comparator, res: CoreResults?, ghost nodes: seq<ListHead>,
                    ghost infos: set<ListData>)
    returns (list: ListHead, ghost sorted: seq<ListHead>)
    requires nodes != [] && Chain(nodes, list0) && InfosIn(nodes, infos)
    requires KeysHold(cmp, res, map[], infos) && Placed(cmp, res, nodes, infos) && Prompt(cmp, res, nodes, map[], 1, 0)
    requires Logs(cmp, res) ==> res.start.nodes == nodes
    requires cmp.CmpComplex? ==> res != null
    modifies (set x | x in nodes)`next, infos`data16
    modifies Results(res)`crc, Results(res)`crcstate, Results(res)`crcmatrix, Results(res)`log
    ensures Chain(sorted, list) && multiset(sorted) == multiset(nodes)
    ensures |nodes| >= 2 ==> AllSettled(cmp, res, nodes, infos) && sorted == StableSort(Keys(cmp, nodes, infos), nodes)
    ensures |nodes| == 1 ==> sorted == nodes
    ensures Logs(cmp, res) && |nodes| >= 2 ==>
      Ran(res.start.data, res.start.tally, res.start.cells, res.log, DataOf(infos), TallyOf(res))
    ensures Refreshed(cmp, res, old(DataOf(infos)), DataOf(infos))
  {
    hide Runs, Ordered, Distinct, Chain, Refreshed, DataOf, StableSort, AllSettled, Keys, KeysHold, IsPositions, Placed,
      Prompt, Ran;
    ghost var pos := NumberNodes(nodes, list0);
    ghost var key;
    list, sorted, key := SortLoop(list0, cmp, res, nodes, pos, infos);
    Outcome(cmp, res, key, infos, nodes, sorted, pos);
    if Logs(cmp, res) && |nodes| >= 2 {
      LogOfAll(cmp, res, key, nodes, infos);
    }
  }

  /**
    `core_list_mergesort`.  The chain is rearranged in place into the stable sort of its nodes
    by the keys their data have at the end; with at least two nodes, each has been compared.
    The operations of the comparator by content run in the order of the list before the sort.
   */
  method Mergesort(list0: ListHead, cmp: Comparator, res: CoreResults?, ghost nodes: seq<ListHead>,
                   ghost infos: set<ListData>)
    returns (list: ListHead, ghost sorted: seq<ListHead>)
    requires nodes != [] && Chain(nodes, list0) && InfosIn(nodes, infos)
    requires cmp.CmpComplex? ==> res != null
    modifies (set x | x in nodes)`next, infos`data16
    modifies Results(res)`crc, Results(res)`crcstate, Results(res)`crcmatrix, Results(res)`log, Results(res)`start
    ensures Chain(sorted, list) && multiset(sorted) == multiset(nodes) && InfosIn(nodes, infos)
    ensures cmp.CmpComplex? && |nodes| >= 2 ==>
      Ran(old(DataOf(infos)), old(TallyOf(res)), old(CellsOf(nodes)), res.log, DataOf(infos), TallyOf(res))
    ensures |nodes| >= 2 ==> AllSettled(cmp, res, nodes, infos) && sorted == StableSort(Keys(cmp, nodes, infos), nodes)
    ensures |nodes| == 1 ==> sorted == nodes
    ensures Refreshed(cmp, res, old(DataOf(infos)), DataOf(infos))
  {
    ChainDistinct(nodes, list0);
    hide Distinct, Chain, Refreshed, DataOf, StableSort, AllSettled, Keys, KeysHold, Placed, Prompt, Ran, CellsOf,
         TallyOf;
    StartLog(cmp, res, nodes, infos);
    list, sorted := SortLogged(list0, cmp, res, nodes, infos);
  }
}
