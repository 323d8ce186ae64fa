/**
  The demand-paging test kernel itself (`isa-tests/env/v/vm.c`): the free list, the page table
  and the fault handler, updated in place, with the memory and the TLB they drive.

  The C file's run-time asserts are `assert` statements at the same places here.
 */
module Paging {
  import opened Machine
  import opened StableOrder
  import Lfsr
  import opened PagingModel

  /** `freelist_t` */
  class FreeNode {
    var addr: nat
    var next: FreeNode?

    constructor ()
      ensures addr == 0 && next == null
    {
      addr, next := 0, null;
    }
  }

  /** A zeroed array of nodes. */
  method NewNodes(n: nat) returns (s: seq<FreeNode>)
    ensures |s| == n && Distinct(s)
    ensures forall k :: 0 <= k < n ==> fresh(s[k]) && s[k].addr == 0 && s[k].next == null
  {
    s := [];
    while |s| < n
      invariant |s| <= n && Distinct(s)
      invariant forall k :: 0 <= k < |s| ==> fresh(s[k]) && s[k].addr == 0 && s[k].next == null
    {
      var node := new FreeNode();
      s := s + [node];
    }
  }

  ghost predicate TwoRows(slots: seq<FreeNode>, nodes: seq<FreeNode>) {
    forall j, k :: 0 <= j < |slots| && 0 <= k < |nodes| ==> slots[j] != nodes[k]
  }

  method NewSlotsAndNodes() returns (slots: seq<FreeNode>, list: seq<FreeNode>)
    ensures |slots| == |list| == 63 && Distinct(slots) && Distinct(list)
    ensures TwoRows(slots, list)
    ensures forall k :: 0 <= k < 63 ==> fresh(slots[k]) && slots[k].addr == 0 && fresh(list[k])
  {
    slots := NewNodes(MAX_TEST_PAGES);
    list := NewNodes(MAX_TEST_PAGES);
  }

  class Kernel {
    const userPt: array<nat>     // user_l3pt
    const mapping: seq<FreeNode> // user_mapping
    const nodes: seq<FreeNode>   // freelist_nodes
    var head: FreeNode?          // freelist_head
    var tail: FreeNode?          // freelist_tail
    var mem: seq<Page>           // physical memory
    var tlb: seq<set<nat>>       // per page, the entries seen since it was last flushed
    ghost var v: Vm              // the whole state as one value

    ghost predicate Wired() {
      && userPt.Length == 63 && |mapping| == |nodes| == 63
      && Distinct(mapping) && Distinct(nodes)
      && TwoRows(mapping, nodes)
    }

    /** Nodes are linked in order and hold the frames in the shift register's order. */
    ghost predicate Chained(start: nat)
      reads nodes
    {
      && |nodes| == 63
      && (forall k :: 0 <= k < 63 ==> nodes[k].addr == AddressOf(Frame(start, k)))
      && (forall k :: 0 <= k < 62 ==> nodes[k].next == nodes[k + 1])
      && nodes[62].next == null
    }

    /** The first `used` nodes have been taken off the list.  Taking the 62nd clears the tail. */
    ghost predicate EndsAt(used: nat)
      reads `head, `tail
    {
      && |nodes| == 63 && used < 63
      && head == nodes[used]
      && tail == if used < 62 then nodes[62] else null
    }

    ghost predicate SlotsMatch(m: seq<nat>)
      reads mapping
    {
      && |mapping| == |m| == 63
      && (forall p :: 0 <= p < 63 ==> mapping[p].addr == m[p])
    }

    ghost predicate Matches()
      reads this, userPt
    {
      userPt[..] == v.pt && mem == v.mem && tlb == v.tlb
    }

    ghost predicate Valid(pending: nat)
      reads this, userPt, mapping, nodes
    {
      && Wired() && Matches() && SlotsMatch(v.mapping)
      && Good(v, pending)
      && Chained(v.start) && EndsAt(|v.used|)
    }

    /** Any store to the page table can be seen by the TLB. */
    method WritePte(p: nat, e: nat)
      requires Wired() && |tlb| == 63 && p < 63
      modifies `tlb, userPt
      ensures userPt[..] == old(userPt[..])[p := e] && tlb == old(tlb)[p := old(tlb)[p] + {e}]
    {
      userPt[p] := e;
      tlb := tlb[p := tlb[p] + {e}];
    }

    /** `flush_page` */
    method FlushPage(p: nat)
      requires Wired() && |tlb| == 63 && p < 63
      modifies `tlb
      ensures tlb == old(tlb)[p := {userPt[p]}]
    {
      tlb := tlb[p := {userPt[p]}];
    }

    /** A new entry and a flush: only the new entry is left. */
    method SetEntry(p: nat, e: nat)
      requires Wired() && |tlb| == 63 && p < 63
      modifies `tlb, userPt
      ensures userPt[..] == old(userPt[..])[p := e] && tlb == old(tlb)[p := {e}]
    {
      WritePte(p, e);
      FlushPage(p);
    }

    /**
      `memcpy((void*)addr, uva2kva(addr), PGSIZE)`: through the user address, so through
      whatever entry the TLB holds, which must let the store through.
     */
    method CopyIn(p: nat, ghost f: nat)
      requires Wired() && |tlb| == 63 && |mem| == 127 && 1 <= p < 63 && 64 <= f < 127
      requires exists e :: tlb[p] == {e} && FrameOf(e) == f && !Faults(e, Store)
      modifies `mem
      ensures mem == old(mem)[f := old(mem)[p]]
    {
      var e :| e in tlb[p];
      assert !Faults(e, Store);
      mem := mem[FrameOf(e) := mem[p]];
    }

    /** Take the first free node. */
    method TakeNode(ghost used: nat) returns (node: FreeNode)
      requires Wired() && Chained(v.start) && EndsAt(used) && used < 62
      modifies `head, `tail
      ensures node == nodes[used] && EndsAt(used + 1)
    {
      assert head != null;
      node := head;
      head := node.next;
      if head == tail {
        tail := null;
      }
    }

    method HandleFault(addr: nat, cause: Access)
      requires 1 <= addr / PGSIZE < MAX_TEST_PAGES && Valid(addr / PGSIZE) && Faults(v.pt[addr / PGSIZE], cause)
      modifies this, userPt, mapping
      ensures Valid(addr / PGSIZE)
      ensures Stage(old(v).pt[addr / PGSIZE]) < 3 && v == Handled(old(v), addr / PGSIZE)
    {
      assert PGSIZE <= addr < MAX_TEST_PAGES * PGSIZE;
      var p := addr / PGSIZE;
      if userPt[p] != 0 {
        MarkEntry(p, cause);
      } else {
        MapFrame(p);
      }
    }

    /** The first half of `handle_fault`: the page has a frame. */
    method MarkEntry(p: nat, cause: Access)
      requires 1 <= p < 63 && Valid(p) && Faults(v.pt[p], cause) && v.pt[p] != 0
      modifies this, userPt
      ensures Valid(p)
      ensures Stage(old(v).pt[p]) < 3 && v == Handled(old(v), p)
    {
      FaultMeans(v, p, cause);
      HandledKeeps(v, p);
      if !Bit(userPt[p], PTE_A) {
        SetEntry(p, SetBit(userPt[p], PTE_A));
      } else {
        assert !Bit(userPt[p], PTE_D) && cause == Store;
        SetEntry(p, SetBit(userPt[p], PTE_D));
      }
      v := Handled(v, p);
    }

    /** The second half: a frame is taken from the free list and filled from the image. */
    method MapFrame(p: nat)
      requires 1 <= p < 63 && Valid(p) && v.pt[p] == 0
      modifies this, userPt, mapping
      ensures Valid(p)
      ensures v == Handled(old(v), p)
    {
      hide MappedRight, SlotRight, Seen, Flat, Faults, Frame, Bit, Pack, SetBit, AddressOf, FrameOf;
      AbsentMeans(v, p);
      MapPageKeeps(v, p);
      ghost var used := |v.used|;
      var node := TakeNode(used);
      ghost var f := Frame(v.start, used);
      var newPte := EntryOf(node.addr, false, false);
      SetFlags(node.addr, false, false);
      SetFlags(node.addr, true, false);
      SetEntry(p, SetBit(SetBit(newPte, PTE_A), PTE_D));

      assert mapping[p].addr == 0;
      mapping[p].addr, mapping[p].next := node.addr, node.next;

      EntryFields(f, true, true);
      CopyIn(p, f);

      SetEntry(p, newPte);
      v := MapPage(v, p);
    }

    /** One access through entry `e`. */
    method Perform(op: Op, e: nat) returns (got: seq<Byte>)
      requires Fits(op) && |mem| == 127 && 64 <= FrameOf(e) < 127
      modifies `mem
      ensures got == if op.Put? then [] else old(mem)[FrameOf(e)][op.addr % PGSIZE..op.addr % PGSIZE + op.len]
      ensures mem == if op.Put? then
        old(mem)[FrameOf(e) := Patch(old(mem)[FrameOf(e)], op.addr % PGSIZE, op.data)] else old(mem)
    {
      var off := op.addr % PGSIZE;
      match op {
        case Get(_, _, len) =>
          got := mem[FrameOf(e)][off..off + len];
        case Put(_, data) =>
          mem := mem[FrameOf(e) := Patch(mem[FrameOf(e)], off, data)];
          got := [];
      }
    }

    /** Fault and retry until the entry lets the access through. */
    method MakeAccessible(addr: nat, kind: Access) returns (e: nat)
      requires 1 <= addr / PGSIZE < MAX_TEST_PAGES && Valid(0)
      modifies this, userPt, mapping
      ensures Valid(0) && !Faults(e, kind) && e == v.pt[addr / PGSIZE] && addr / PGSIZE in v.used
      ensures Flat(v) == Flat(old(v)) && Marks(old(v), v, addr / PGSIZE, kind == Store)
    {
      hide MappedRight, SlotRight, Seen, Flat, Faults, Handled, Stage, Frame, EntryOf, Marks;
      var p := addr / PGSIZE;
      ghost var v0 := v;
      Weaken(v, p);
      MarksNone(v, p, kind == Store);
      TlbIs(v, p, p);
      e :| e in tlb[p];
      while Faults(e, kind)
        invariant Valid(p) && e == v.pt[p]
        invariant Flat(v) == Flat(v0) && Marks(v0, v, p, kind == Store)
        decreases 3 - Stage(v.pt[p])
      {
        ghost var before := v;
        HandleFault(addr, kind);
        HandledKeeps(before, p);
        HandledMarks(before, p, kind);
        MarksTwice(v0, before, v, p, kind == Store);
        TlbIs(v, p, p);
        e :| e in tlb[p];
      }
      Through(v, p, kind);
      Settle(v, p);
    }

    /** A user access does to the user's memory what it would do to a flat memory. */
    method UserAccess(op: Op) returns (got: seq<Byte>)
      requires Valid(0) && Fits(op)
      modifies this, userPt, mapping
      ensures Valid(0) && Marks(old(v), v, op.addr / PGSIZE, op.Put?)
      ensures op.addr / PGSIZE in v.used && (op.Put? ==> Bit(v.pt[op.addr / PGSIZE], PTE_D))
      ensures (got, Flat(v)) == FlatStep(Flat(old(v)), op)
    {
      hide MappedRight, SlotRight, Seen, Flat, Faults, Frame, Chained, EndsAt, SlotsMatch, Marks;
      ghost var v0 := v;
      var e := MakeAccessible(op.addr, KindOf(op));
      StoreNeedsD(e);
      AccessThrough(v, op);
      got := Perform(op, e);
      if op.Put? {
        WrittenMarks(v0, v, op.addr / PGSIZE, mem[FrameOf(e)]);
        v := Written(v, op.addr / PGSIZE, mem[FrameOf(e)]);
      }
    }

    /** The kernel changes one of its own pages. */
    method KernelStore(p: nat, content: Page)
      requires Valid(0) && 1 <= p < MAX_TEST_PAGES
      modifies `mem, `v
      ensures Valid(0) && v == KernelWritten(old(v), p, content)
    {
      hide MappedRight, SlotRight, Chained, EndsAt, SlotsMatch, Frame;
      KernelWrittenKeeps(v, p, content);
      v := KernelWritten(v, p, content);
      mem := mem[p := content];
    }

    /** The state agrees with the world that user and kernel share. */
    ghost predicate InWorld(w: World)
      reads this, userPt, mapping, nodes
    {
      Valid(0) && Sized(w) && Shows(v, w)
    }

    /** One action of the user or of the kernel. */
    method Act(a: Action, ghost w: World) returns (got: seq<seq<Byte>>)
      requires Allowed(a) && InWorld(w)
      modifies this, userPt, mapping
      ensures got == WorldStep(w, a).0 && InWorld(WorldStep(w, a).1)
    {
      hide Good, Flat, Wired, Matches, SlotsMatch, Chained, EndsAt, Shows, WorldStep;
      ghost var v0 := v;
      match a {
        case User(op) =>
          Unmapped(v);
          var data := UserAccess(op);
          got := [data];
          Unmapped(v);
          ShowsAccess(v0, v, w, op, data);
        case Kernel(p, content) =>
          KernelStore(p, content);
          got := [];
          ShowsWrite(v0, w, p, content);
      }
    }

    /** Any run of accesses and kernel stores. */
    method Run(acts: seq<Action>, ghost w: World) returns (results: seq<seq<Byte>>)
      requires AllAllowed(acts) && InWorld(w)
      modifies this, userPt, mapping
      ensures results == WorldRun(w, acts).0 && InWorld(WorldRun(w, acts).1)
    {
      assert Sized(w);
      hide InWorld, WorldStep;
      results := [];
      var i := 0;
      assert acts[..0] == [];
      while i < |acts|
        invariant 0 <= i <= |acts|
        invariant results == WorldRun(w, acts[..i]).0 && InWorld(WorldRun(w, acts[..i]).1)
      {
        assert acts[..i + 1][..i] == acts[..i];
        var got := Act(acts[i], WorldRun(w, acts[..i]).1);
        results := results + got;
        i := i + 1;
      }
      assert acts[..i] == acts;
    }

    /** Append to the free list. */
    method AppendNode(node: FreeNode)
      requires Wired() && (tail == null || tail in nodes || tail in mapping)
      modifies `head, `tail, (set x | x in nodes)`next, (set x | x in mapping)`next
      ensures tail == node
    {
      if tail == null {
        head, tail := node, node;
      } else {
        tail.next := node;
        tail := node;
      }
    }

    /** Pages 1 to `done - 1` have been evicted. */
    ghost predicate Sweeping(done: nat)
      reads this, userPt, mapping
    {
      && Wired() && Good(v, 0) && userPt[..] == v.pt && tlb == v.tlb
      && Swept(v, mem, done)
      && (forall p :: done <= p < 63 ==> mapping[p].addr == v.mapping[p])
      && (forall p :: 1 <= p < done && p < 63 ==> mapping[p].addr == 0)
      && (tail == null || tail in nodes || tail in mapping)
    }

    /** Ends at the assert on D if the page was changed without a store of the user's. */
    method Evict(addr: nat) returns (ok: bool)
      requires 1 <= addr / PGSIZE < MAX_TEST_PAGES && Sweeping(addr / PGSIZE)
      modifies `mem, `head, `tail, mapping, (set x | x in nodes)`next
      ensures ok <==> Evictable(v, addr / PGSIZE)
      ensures forall x :: x in nodes ==> x.addr == old(x.addr)
      ensures ok ==> Sweeping(addr / PGSIZE + 1)
    {
      hide Bit, EntryOf, FrameOf, Frame, Faults, SlotRight, MappedRight, FrameSwept, Evictable;
      assert PGSIZE <= addr < MAX_TEST_PAGES * PGSIZE;
      var p := addr / PGSIZE;
      SweepAsserts(v, mem, p);
      PageSwept(v, mem, p, if p in v.used then FrameOf(v.pt[p]) else 0);
      NotMapped(v, p);
      TlbIs(v, p, 0);
      var node := mapping[p];
      ok := true;
      if node.addr != 0 {
        assert Bit(userPt[p], PTE_A);
        ok := RestoreFrame(p);
        if ok {
          node.addr := 0;
          AppendNode(node);
        }
      }
    }

    /** `memcmp` and `memcpy` of `evict`: compare the user's page with the image, and copy if they differ. */
    method RestoreFrame(p: nat) returns (ok: bool)
      requires Wired() && |mem| == 127 && |tlb| == 63 && 1 <= p < 63 && tlb[p] == {userPt[p]}
      requires 64 <= FrameOf(userPt[p]) < 127 && !Faults(userPt[p], Load)
      requires Bit(userPt[p], PTE_D) ==> !Faults(userPt[p], Store)
      modifies `mem
      ensures ok <==> old(mem)[FrameOf(userPt[p])] == old(mem)[p] || Bit(userPt[p], PTE_D)
      ensures ok ==> mem == old(mem)[FrameOf(userPt[p]) := old(mem)[p]]
    {
      var e :| e in tlb[p];
      assert !Faults(e, Load);
      ok := true;
      if mem[FrameOf(e)] != mem[p] {
        ok := Bit(userPt[p], PTE_D);
        if ok {
          CopyIn(p, FrameOf(e));
        }
      }
    }

    /**
      The `ECALL` at the end of a test.  Its asserts hold exactly when every page can be evicted.
      Then the kernel's pages are not touched, every mapping slot is empty again and every frame
      that was used equals the kernel's page.
     */
    method Ecall() returns (ok: bool)
      requires Valid(0)
      modifies `mem, `head, `tail, mapping, (set x | x in nodes)`next
      ensures ok <==> forall p :: 1 <= p < 63 ==> Evictable(v, p)
      ensures forall x :: x in nodes ==> x.addr == old(x.addr)
      ensures ok ==> |mem| == 127 && Swept(v, mem, 63) && forall p :: 1 <= p < 63 ==> mapping[p].addr == 0
    {
      hide Bit, EntryOf, FrameOf, Frame, Faults, SlotRight, MappedRight, FrameSwept, Evictable;
      NothingSwept(v);
      var i := 1;
      ok := true;
      while ok && i < MAX_TEST_PAGES
        invariant 1 <= i <= MAX_TEST_PAGES && (ok ==> Sweeping(i))
        invariant ok ==> forall p :: 1 <= p < i ==> Evictable(v, p)
        invariant !ok ==> exists p :: 1 <= p < 63 && !Evictable(v, p)
        invariant forall x :: x in nodes ==> x.addr == old(x.addr)
      {
        assert i * PGSIZE / PGSIZE == i;
        ok := Evict(i * PGSIZE);
        assert ok <==> Evictable(v, i);
        i := i + 1;
      }
    }

    /** The program runs, and ends with the `ECALL`. */
    method Test(acts: seq<Action>, ghost w: World) returns (results: seq<seq<Byte>>, ok: bool)
      requires AllAllowed(acts) && InWorld(w)
      modifies this, userPt, mapping, (set x | x in nodes)`next
      ensures results == WorldRun(w, acts).0 && Ended(WorldRun(w, acts).1, ok)
    {
      hide Good, Flat, WorldRun, Evictable, Survives, Shows, Swept, Wired, Matches, SlotsMatch, Chained, EndsAt;
      results := Run(acts, w);
      ghost var after := WorldRun(w, acts).1;
      FaultsCounted(v);
      Unmapped(v);
      SurvivesMeans(v, after);
      EntriesInOrder();
      ShowsUsed(v, after);
      ok := Ecall();
      assert forall i :: 0 <= i < |nodes| ==> nodes[i] in nodes;
      if ok {
        SweptImage(v, mem, after);
      }
    }

    /** What is left of a test: `ok` says whether the sweep came to its end. */
    ghost predicate Ended(w: World, ok: bool)
      requires Sized(w)
      reads this, userPt, nodes
    {
      && |v.faults| == 63 && (forall p :: 0 <= p < 63 ==> v.faults[p] <= 3)
      && (ok <==> Survives(w)) && InOrder(w.touched)
      && (ok ==> |mem| == 127 && forall p :: 1 <= p < 63 ==> mem[p] == w.image[p])
    }

    /** The entry of the `i`-th of these pages has the frame of the `i`-th node. */
    ghost predicate InOrder(pages: seq<nat>)
      reads userPt, nodes
    {
      && |pages| <= |nodes|
      && forall i :: 0 <= i < |pages| ==> pages[i] < userPt.Length && userPt[pages[i]] / 0x400 == nodes[i].addr / 0x1000
    }

    lemma EntriesInOrder()
      requires Valid(0)
      ensures InOrder(v.used)
    {
      forall i | 0 <= i < |v.used|
        ensures v.used[i] < 63 && userPt[v.used[i]] / 0x400 == nodes[i].addr / 0x1000
      {
        EntriesHold(v, i);
        assert userPt[..][v.used[i]] == v.pt[v.used[i]];
      }
    }

    /** The paging part of `vm_boot`: the frames go on the free list in the shift register's order. */
    constructor (entropy: nat, dram: seq<Page>)
      requires |dram| == 127
      ensures Valid(0) && fresh(userPt) && (forall k :: 0 <= k < 63 ==> fresh(mapping[k]) && fresh(nodes[k]))
      ensures InWorld(Loaded(dram[..63]))
      ensures Drawn(1 + entropy % 63)
    {
      hide Good, Flat, Lfsr.Steps, Lfsr.Next, Frame, AddressOf, Drawn, Distinct, TwoRows, Shows, Booted, Loaded, Sized;
      var slots, list := NewSlotsAndNodes();
      var random := 1 + entropy % MAX_TEST_PAGES;
      userPt := new nat[MAX_TEST_PAGES](_ => 0);
      mapping, nodes := slots, list;
      head, tail := list[0], list[MAX_TEST_PAGES - 1];
      mem := dram;
      tlb := seq(MAX_TEST_PAGES, _ => {0});
      v := Booted(random, dram);
      BootedIs(random, dram);
      new;
      assert userPt[..] == v.pt && tlb == v.tlb;
      FillFreeList(random);
    }

    /** The nodes hold the frames that the register picks, from this start on. */
    ghost predicate Drawn(start: nat)
      reads nodes
    {
      && |nodes| == 63
      && exists xs :: |xs| == 63 && Lfsr.Register(xs, start) && Holds(xs)
    }

    ghost predicate Holds(xs: seq<nat>)
      reads nodes
    {
      |xs| == |nodes| && forall k :: 0 <= k < |nodes| ==> nodes[k].addr == 0x8000_0000 + (63 + xs[k]) * 0x1000
    }

    method FillFreeList(start: nat)
      requires Wired() && Matches() && SlotsMatch(v.mapping) && Good(v, 0) && EndsAt(|v.used|)
      requires start == v.start && 1 <= start <= 63
      modifies nodes
      ensures Valid(0) && Drawn(start)
    {
      hide Good, Drawn;
      var random, i := start, 0;
      while i < MAX_TEST_PAGES
        invariant 0 <= i <= MAX_TEST_PAGES && random == Lfsr.Steps(start, i)
        invariant forall k :: 0 <= k < i ==> nodes[k].addr == AddressOf(Frame(start, k))
        invariant forall k :: 0 <= k < i && k < 62 ==> nodes[k].next == nodes[k + 1]
      {
        nodes[i].addr := DRAM_BASE + (MAX_TEST_PAGES + random) * PGSIZE;
        nodes[i].next := if i + 1 < MAX_TEST_PAGES then nodes[i + 1] else null;
        random := Lfsr.Next(random);
        i := i + 1;
      }
      nodes[MAX_TEST_PAGES - 1].next := null;
      NodesDrawn(start);
    }

    lemma NodesDrawn(start: nat)
      requires Chained(start) && 1 <= start <= 63
      ensures Drawn(start)
    {
      Lfsr.StatesRegister(start, 63);
      assert Holds(Lfsr.States(start, 63));
    }
  }

  /** What a fault tells: the page is not complete, and with A set it is a store with D clear. */
  lemma FaultMeans(v: Vm, p: nat, cause: Access)
    requires 1 <= p < 63 && Good(v, p) && Faults(v.pt[p], cause) && v.pt[p] != 0
    ensures p in v.used && Stage(v.pt[p]) < 3
    ensures Bit(v.pt[p], PTE_A) ==> !Bit(v.pt[p], PTE_D) && cause == Store
  {
    hide Bit, EntryOf, FrameOf, Faults, Frame, AddressOf;
    assert SlotRight(v, p);
    var k, f := MarksOf(v, p, p);
  }

  lemma AbsentMeans(v: Vm, p: nat)
    requires 1 <= p < 63 && Good(v, p) && v.pt[p] == 0
    ensures p !in v.used && v.mapping[p] == 0
  {
    hide Bit, EntryOf, FrameOf, Faults, Frame, AddressOf;
    assert SlotRight(v, p);
    if p in v.used {
      var k, f := MarksOf(v, p, p);
    }
  }

  lemma TlbIs(v: Vm, p: nat, pending: nat)
    requires Good(v, pending) && p < 63
    ensures v.tlb[p] == {v.pt[p]}
  {
    hide Bit, EntryOf, FrameOf, Faults, Frame, AddressOf;
    assert SlotRight(v, p);
  }

  /** An entry that does not fault is a mapped page's, with A. */
  lemma Through(v: Vm, p: nat, kind: Access)
    requires Good(v, p) && 1 <= p < 63 && !Faults(v.pt[p], kind)
    ensures p in v.used && Bit(v.pt[p], PTE_A)
  {
    hide EntryOf, FrameOf, Frame, AddressOf;
    assert SlotRight(v, p);
    ZeroHasNoBits(PTE_V);
  }

  /** What an access that does not fault does to the user's memory. */
  lemma AccessThrough(v: Vm, op: Op)
    requires Good(v, 0) && Fits(op)
    requires op.addr / PGSIZE in v.used && !Faults(v.pt[op.addr / PGSIZE], KindOf(op))
    ensures var p, off := op.addr / PGSIZE, op.addr % PGSIZE;
      var f := FrameOf(v.pt[p]);
      && 64 <= f < 127 && Flat(v)[p] == v.mem[f]
      && (op.Put? ==> var w := Written(v, p, Patch(v.mem[f], off, op.data));
           Good(w, 0) && Flat(w) == FlatStep(Flat(v), op).1)
  {
    hide Bit, EntryOf, FrameOf, Faults, Frame, AddressOf;
    var p, off := op.addr / PGSIZE, op.addr % PGSIZE;
    var k, f := MarksOf(v, p, 0);
    if op.Put? {
      WrittenKeeps(v, p, Patch(v.mem[f], off, op.data));
    }
  }

  lemma StoreNeedsD(e: nat)
    ensures !Faults(e, Store) ==> Bit(e, PTE_D)
  {
  }

  /** Pages without a frame have no entry. */
  lemma Unmapped(v: Vm)
    requires Good(v, 0)
    ensures Shape(v) && forall q :: 0 <= q < 63 && q !in v.used ==> v.pt[q] == 0
  {
    hide MappedRight;
    forall q | 0 <= q < 63 && q !in v.used
      ensures v.pt[q] == 0
    {
      assert SlotRight(v, q);
    }
  }

  lemma MarksNone(v: Vm, p: nat, store: bool)
    requires Shape(v) && p < 63
    ensures Marks(v, v, p, store)
  {
  }

  lemma WrittenMarks(u: Vm, v: Vm, p: nat, page: Page)
    requires Shape(u) && Shape(v) && p < 63 && 64 <= FrameOf(v.pt[p]) < 127 && Marks(u, v, p, true)
    ensures Shape(Written(v, p, page)) && Marks(u, Written(v, p, page), p, true)
  {
    hide Bit;
  }

  lemma NotMapped(v: Vm, p: nat)
    requires Shape(v) && p < 63
    ensures p !in v.used ==> Evictable(v, p)
  {
  }

  /** The kernel's memory and tables before the first fault. */
  lemma BootedIs(start: nat, dram: seq<Page>)
    requires |dram| == 127 && 1 <= start <= 63
    ensures var v := Booted(start, dram);
      && v.start == start && v.used == [] && v.mem == dram && Good(v, 0)
      && Sized(Loaded(dram[..63])) && Shows(v, Loaded(dram[..63]))
      && |v.pt| == |v.mapping| == |v.tlb| == 63
      && forall p :: 0 <= p < 63 ==> v.pt[p] == v.mapping[p] == 0 && v.tlb[p] == {0}
  {
    BootedGood(start, dram);
    hide Good, Flat, Bit;
  }

  lemma ShowsAccess(v: Vm, n: Vm, w: World, op: Op, got: seq<Byte>)
    requires Shape(v) && Shape(n) && Sized(w) && Shows(v, w) && Fits(op) && Marks(v, n, op.addr / PGSIZE, op.Put?)
    requires op.addr / PGSIZE in n.used && (op.Put? ==> Bit(n.pt[op.addr / PGSIZE], PTE_D))
    requires (got, Flat(n)) == FlatStep(Flat(v), op)
    requires forall q :: 0 <= q < 63 && q !in v.used ==> v.pt[q] == 0
    ensures WorldStep(w, User(op)).0 == [got] && Shows(n, WorldStep(w, User(op)).1)
  {
    hide Bit, Flat, FlatStep;
    ZeroHasNoBits(PTE_D);
  }

  lemma ShowsWrite(v: Vm, w: World, p: nat, content: Page)
    requires Good(v, 0) && Sized(w) && Shows(v, w) && 1 <= p < 63
    ensures WorldStep(w, Kernel(p, content)).0 == []
    ensures Shows(KernelWritten(v, p, content), WorldStep(w, Kernel(p, content)).1)
  {
    KernelWrittenKeeps(v, p, content);
    hide Bit, Flat, Good;
  }

  /**
    A whole test: boot, any accesses to pages 1 to 62 with any changes that the kernel makes to
    its own pages meanwhile, and the final sweep.  Every load and fetch sees the user's flat
    memory, each page faults at most three times, the k-th page accessed got the frame of the k-th
    state of the shift register, and the sweep comes to its end exactly when every accessed page
    was stored to or is as the kernel has it.
   */
  method RunTest(entropy: nat, dram: seq<Page>, acts: seq<Action>)
    returns (results: seq<seq<Byte>>, ok: bool, k: Kernel)
    requires |dram| == 127 && AllAllowed(acts)
    ensures fresh(k) && k.Drawn(1 + entropy % 63)
    ensures var (expected, w) := WorldRun(Loaded(dram[..63]), acts);
      results == expected && k.Ended(w, ok)
  {
    k := new Kernel(entropy, dram);
    hide *;
    results, ok := k.Test(acts, Loaded(dram[..63]));
  }

  lemma ShowsUsed(v: Vm, w: World)
    requires Shape(v) && Sized(w) && Shows(v, w)
    ensures v.used == w.touched
  {
  }

  lemma SweptImage(v: Vm, m: seq<Page>, w: World)
    requires Shape(v) && Sized(w) && Shows(v, w) && |m| == 127 && Swept(v, m, 63)
    ensures forall p :: 1 <= p < 63 ==> m[p] == w.image[p]
  {
  }

  lemma FaultsCounted(v: Vm)
    requires Good(v, 0)
    ensures |v.faults| == 63 && forall p :: 0 <= p < 63 ==> v.faults[p] <= 3
  {
    forall p | 0 <= p < 63
      ensures v.faults[p] <= 3
    {
      assert SlotRight(v, p);
    }
  }
}
