/**
  What a program does to the system-bus debug module and what it gets, bit by bit from its own
  bus commands (register layout of `rtl/icb2debug_bus.sv`, lines 30-75, with the address in bits
  10 to 4).  Registers are named by their bus address.
 */
module DebugProgram {
  import opened DmiArbiter
  import opened Icb2DebugBus
  import opened DebugAccess

  /** The program writes to this address. */
  predicate WritesTo(c: Command, addr: nat) {
    c.valid && c.rspReady && !c.read && c.addr == addr
  }

  predicate IsIdle(s: Sys) {
    s.icb.fsm == Idle
  }

  /** An operation ends in this clock: its answer is on port 1. */
  predicate Ends(s: Sys) {
    s.arb.dtm1RspVld && (s.icb.fsm == RspBusy || (s.icb.fsm == ReqBusy && s.arb.dtm1ReqRdy))
  }

  // ---------------------------------------------------------------------------
  // Requests
  // ---------------------------------------------------------------------------

  /** The last word written to a request register while no operation was under way. */
  ghost function LastWord(js: seq<SysInputs>, addr: nat): (w: Bits)
    requires AllSized(js)
    ensures |w| == 32
    decreases |js|
  {
    if js == [] then Zeros(32) else
      var before, j := js[..|js| - 1], js[|js| - 1];
      assert Sized(j);
      if WritesTo(j.cmd, addr) && IsIdle(SysAfter(before)) then j.cmd.wdata else LastWord(before, addr)
  }

  /** What the program asks for: the words in DM Request DWORD and DM Request Others. */
  datatype Asking = Asking(data: Bits, others: Bits)

  /**
    Everything the program asks for: each write to DM Request Others without an operation under way, or in its
    last clock.
   */
  ghost function Askings(js: seq<SysInputs>): (a: seq<Asking>)
    requires AllSized(js)
    ensures forall k :: 0 <= k < |a| ==> |a[k].data| == |a[k].others| == 32
    decreases |js|
  {
    if js == [] then [] else
      var before, j := js[..|js| - 1], js[|js| - 1];
      Askings(before) +
        if WritesTo(j.cmd, 4) && (IsIdle(SysAfter(before)) || Ends(SysAfter(before)))
        then [Asking(LastWord(before, 0), LastWord(js, 4))] else []
  }

  /** A debug-bus request: data in bits 0 to 31, operation in 32 and 33, address in 34 to 40. */
  predicate Encodes(request: Bits, a: Asking)
    requires |a.data| == |a.others| == 32
  {
    && |request| == 41
    && (forall i :: 0 <= i < 32 ==> request[i] == a.data[i])
    && request[32] == a.others[2] && request[33] == a.others[3]
    && (forall i :: 4 <= i < 11 ==> request[30 + i] == a.others[i])
  }

  lemma OneMoreClockOf(js: seq<SysInputs>)
    requires AllSized(js) && js != []
    ensures var before, j := js[..|js| - 1], js[|js| - 1];
      AllSized(before) && Sized(j) && SysAfter(js) == SysStep(SysAfter(before), j) && before + [j] == js
  {
    assert Sized(js[|js| - 1]);
  }

  /** The request registers hold the last words, in any run. */
  lemma {:induction false} RegistersHold(js: seq<SysInputs>)
    requires AllSized(js)
    ensures SysAfter(js).icb.reqDword == LastWord(js, 0)
    ensures SysAfter(js).icb.reqOthers == LastWord(js, 4)[..11]
    decreases |js|
  {
    if js != [] {
      var before := js[..|js| - 1];
      OneMoreClockOf(js);
      RegistersHold(before);
      hide SysAfter, Step;
    }
  }

  lemma EncodesFields(data: Bits, others: Bits, word: Bits)
    requires |data| == |word| == 32 && others == word[..11]
    ensures Encodes(Request(data, OpField(others), AddressField(others)), Asking(data, word))
  {
  }

  lemma NothingAsked()
    ensures Ops([]) == [] && Askings([]) == []
  {
  }

  lemma OneMoreAsking(js: seq<SysInputs>)
    requires AllSized(js) && js != []
    ensures var before, j := js[..|js| - 1], js[|js| - 1];
      && AllSized(before) && Sized(j)
      && Ops(js) == Ops(before) + (if Starts(SysAfter(before), j) then [Started(SysAfter(before), j)] else [])
      && Askings(js) == Askings(before) +
           if Starts(SysAfter(before), j) then [Asking(LastWord(before, 0), LastWord(js, 4))] else []
  {
    var before, j := js[..|js| - 1], js[|js| - 1];
    assert Sized(j);
    StartsWhen(SysAfter(before), j);
    hide SysAfter, Starts, Started, LastWord, WritesTo, IsIdle, Ends;
  }

  /** The started operations are what the program asks for. */
  lemma {:induction false} OpsEncode(js: seq<SysInputs>)
    requires AllSized(js)
    ensures |Ops(js)| == |Askings(js)|
    ensures forall k :: 0 <= k < |Ops(js)| ==> Encodes(Ops(js)[k], Askings(js)[k])
    decreases |js|
  {
    hide SysAfter, Encodes, Starts, Started, LastWord, Ops, Askings;
    if js == [] {
      NothingAsked();
    } else {
      var before, j := js[..|js| - 1], js[|js| - 1];
      OneMoreAsking(js);
      OpsEncode(before);
      if Starts(SysAfter(before), j) {
        StartedEncodes(js);
      }
    }
  }

  lemma StartsWhen(s: Sys, j: SysInputs)
    ensures Starts(s, j) <==> WritesTo(j.cmd, 4) && (IsIdle(s) || Ends(s))
  {
  }

  lemma StartedEncodes(js: seq<SysInputs>)
    requires AllSized(js) && js != []
    requires var before, j := js[..|js| - 1], js[|js| - 1];
      AllSized(before) && Sized(j) && Starts(SysAfter(before), j)
    ensures var before, j := js[..|js| - 1], js[|js| - 1];
      Encodes(Started(SysAfter(before), j), Asking(LastWord(before, 0), LastWord(js, 4)))
  {
    var before, j := js[..|js| - 1], js[|js| - 1];
    var s := SysAfter(before);
    OneMoreClockOf(js);
    RegistersHold(before);
    RegistersHold(js);
    var others := if s.icb.fsm == Idle then j.cmd.wdata[..DBUS_OTHERS_LEN] else s.icb.reqOthers;
    assert others == LastWord(js, 4)[..11];
    EncodesFields(s.icb.reqDword, others, LastWord(js, 4));
  }

  /**
    The requests that reach the debug module, bit by bit from the program's writes: in order, once
    each, and all of them except at most the last.
   */
  lemma {:induction false} RequestsEncode(js: seq<SysInputs>)
    requires AllSized(js) && PoliteRun(js) && DmFairRun(ArbRun(js))
    ensures var asked, a := Only(SysTrace(js), 1), Askings(js);
      && |asked| <= |a| <= |asked| + 1
      && forall k :: 0 <= k < |asked| ==> asked[k].Forward? && Encodes(asked[k].bits, a[k])
  {
    hide SysAfter, ArbRun, Trace, DmFairRun, Ops, PoliteRun, Encodes, Only, Holds, Askings;
    EachStartOneRequest(js);
    OpsEncode(js);
    AnswersFollow(SysTrace(js));
  }

  /** Every answer follows its request. */
  lemma AnswersFollow(t: seq<Event>)
    ensures forall k :: 0 <= k < |Only(t, 1)| ==> Only(t, 1)[k].Forward?
  {
    assert forall k :: 0 <= k < |Only(t, 1)| ==> IsKind(Only(t, 1)[k], 1);
  }

  // ---------------------------------------------------------------------------
  // The sticky status
  // ---------------------------------------------------------------------------

  /** Was a request register written during an operation since the last write to CTRL? */
  ghost predicate WrittenWhileBusy(js: seq<SysInputs>)
    requires AllSized(js)
    decreases |js|
  {
    js != [] &&
    (var before, j := js[..|js| - 1], js[|js| - 1];
     !WritesTo(j.cmd, 16) &&
     (WrittenWhileBusy(before) || ((WritesTo(j.cmd, 0) || WritesTo(j.cmd, 4)) && !IsIdle(SysAfter(before)))))
  }

  /** Was it so when the last operation ended? */
  ghost predicate ReportedBusy(js: seq<SysInputs>)
    requires AllSized(js)
    decreases |js|
  {
    js != [] &&
    (var before := js[..|js| - 1];
     if Ends(SysAfter(before)) then WrittenWhileBusy(before) else ReportedBusy(before))
  }

  /** In any run the flag is that, and bit 3 of DM Response Others is the flag when the last operation ended. */
  lemma {:induction false} StickyIs(js: seq<SysInputs>)
    requires AllSized(js)
    ensures SysAfter(js).icb.sticky == WrittenWhileBusy(js)
    ensures SysAfter(js).icb.rspOthers[3] == ReportedBusy(js)
    ensures !SysAfter(js).icb.rspOthers[0] && !SysAfter(js).icb.rspOthers[1]
    decreases |js|
  {
    if js != [] {
      var before, j := js[..|js| - 1], js[|js| - 1];
      OneMoreClockOf(js);
      StickyIs(before);
      var s := SysAfter(before);
      hide SysAfter, Step, IcbStep;
      StickyStep(s.icb, j.cmd, DebugIn(s));
    }
  }

  lemma StickyStep(g: Icb, c: Command, d: DebugBus)
    requires Widths(g) && BusWidths(c, d)
    ensures var n := IcbStep(g, c, d);
      && (n.sticky <==> !WritesTo(c, 16) && (g.sticky || ((WritesTo(c, 0) || WritesTo(c, 4)) && g.fsm != Idle)))
      && var ends := d.respValid && (g.fsm == RspBusy || (g.fsm == ReqBusy && d.reqReady));
      && (n.rspOthers[3] == if ends then g.sticky else g.rspOthers[3])
      && (n.rspOthers[0] == if ends then false else g.rspOthers[0])
      && (n.rspOthers[1] == if ends then false else g.rspOthers[1])
  {
  }

  // ---------------------------------------------------------------------------
  // What the program reads
  // ---------------------------------------------------------------------------

  /** What a read of this address gives. */
  function Reads(s: Sys, addr: nat, irq: bool): (w: Bits)
    requires Widths(s.icb)
    ensures |w| == 32
  {
    ReadData(s.icb, Command(true, addr, true, Zeros(32), true), irq)
  }

  /** Without a read command the data lines are low. */
  lemma NothingRead(g: Icb, c: Command, irq: bool)
    requires Widths(g) && (!c.valid || !c.read)
    ensures |ReadData(g, c, irq)| == 32 && forall i :: 0 <= i < 32 ==> !ReadData(g, c, irq)[i]
  {
  }

  /** The four plain registers, and Status: bit 31 is busy and bit 0 the interrupt. */
  lemma {:induction false} RegistersRead(js: seq<SysInputs>, irq: bool)
    requires AllSized(js)
    ensures var s := SysAfter(js);
      && Reads(s, 0, irq) == LastWord(js, 0)
      && (forall i :: 0 <= i < 32 ==> Reads(s, 4, irq)[i] == (i < 11 && LastWord(js, 4)[i]))
      && Reads(s, 12, irq)[3] == ReportedBusy(js) && (forall i :: 11 <= i < 32 ==> !Reads(s, 12, irq)[i])
      && (forall i :: 0 <= i < 32 ==> Reads(s, 20, irq)[i] == if i == 31 then !IsIdle(s) else i == 0 && irq)
      && Reads(s, 16, irq) == Zeros(32)
  {
    hide SysAfter, LastWord, ReportedBusy, WrittenWhileBusy;
    RegistersHold(js);
    StickyIs(js);
  }

  /** The response registers give this answer to this request, and the flag. */
  predicate GivesAnswer(s: Sys, a: Asking, answer: Bits, flag: bool, irq: bool)
    requires Widths(s.icb) && |a.data| == |a.others| == 32
  {
    && |answer| == 34
    && (forall i :: 0 <= i < 32 ==> Reads(s, 8, irq)[i] == answer[2 + i])
    && Reads(s, 12, irq)[2] == answer[0] && Reads(s, 12, irq)[3] == flag
    && (forall i :: 4 <= i < 11 ==> Reads(s, 12, irq)[i] == a.others[i])
  }

  /**
    Once Status reads as not busy and DM Request Others was not written in the clock before, the
    response registers give the data word of the answer to the last request, its low status bit in
    bit 2, the sticky flag in bit 3, and in bits 4 to 10 the address that the program asked for.
   */
  lemma {:induction false} ResponsesRead(js: seq<SysInputs>, irq: bool)
    requires AllSized(js) && PoliteRun(js) && DmFairRun(ArbRun(js)) && Askings(js) != []
    requires !Reads(SysAfter(js), 20, irq)[31] && !SysAfter(js).icb.weOthersD
    ensures var s, a, answers := SysAfter(js), Askings(js), Only(SysTrace(js), 2);
      && |answers| == |a| && answers[|a| - 1].Answer?
      && GivesAnswer(s, a[|a| - 1], answers[|a| - 1].bits, ReportedBusy(js), irq)
  {
    OpsEncode(js);
    RegistersRead(js, irq);
    hide SysAfter, ArbRun, Trace, DmFairRun, Ops, PoliteRun, Only, Encodes, Askings, LastWord, ReportedBusy, ReadsAs,
      Reads, GivesAnswer, Busy, SysTrace;
    BusyReads(SysAfter(js), irq);
    ProgramReadsAnswer(js);
    var k := |Ops(js)| - 1;
    AnswersAre(SysTrace(js));
    ResponseBits(SysAfter(js), Ops(js)[k], Only(SysTrace(js), 2)[k].bits, Askings(js)[k], ReportedBusy(js), irq);
  }

  lemma AnswersAre(t: seq<Event>)
    ensures forall k :: 0 <= k < |Only(t, 2)| ==> Only(t, 2)[k].Answer?
  {
    assert forall k :: 0 <= k < |Only(t, 2)| ==> IsKind(Only(t, 2)[k], 2);
  }

  lemma BusyReads(s: Sys, irq: bool)
    requires Widths(s.icb)
    ensures Reads(s, 20, irq)[31] == Busy(s.icb)
  {
  }

  lemma ResponseBits(s: Sys, request: Bits, answer: Bits, a: Asking, flag: bool, irq: bool)
    requires Widths(s.icb) && ReadsAs(s.icb, request, answer) && |a.data| == |a.others| == 32 && Encodes(request, a)
    requires Reads(s, 12, irq)[3] == flag
    ensures GivesAnswer(s, a, answer, flag, irq)
  {
    var r := ReadData(s.icb, ReadOf(ADDR_RSP_OTHERS), false);
    assert r == s.icb.rspOthers + Zeros(21);
    forall i | 4 <= i < 11
      ensures r[i] == a.others[i]
    {
      assert r[4..11][i - 4] == request[34..][i - 4];
      assert request[30 + i] == a.others[i];
    }
  }
}
