/**
  The system-bus debug module behind port 1 of the arbiter, as they are connected in
  `rtl/zr_coreplex.sv`, with the JTAG port (port 0) idle.
 */
module DebugAccess {
  import opened DmiArbiter
  import opened Icb2DebugBus

  /** Both sets of registers. */
  datatype Sys = Sys(arb: Regs, icb: Icb)

  /** One clock's inputs: the program's bus command and the debug module. */
  datatype SysInputs = SysInputs(cmd: Command, dmReqRdy: bool, dmRspVld: bool, dmRspBits: Bits)

  predicate Sized(j: SysInputs) {
    |j.cmd.wdata| == 32 && |j.dmRspBits| == DBUS_RSP_BITS
  }

  /** What the arbiter sees.  `dtm_resp_ready` is `dtm_resp_valid`. */
  function ArbIn(s: Sys, j: SysInputs): Inputs
    requires Widths(s.icb)
  {
    Inputs(false, [], true, s.icb.fsm == ReqBusy, RequestBits(s.icb), s.arb.dtm1RspVld,
           j.dmReqRdy, j.dmRspVld, j.dmRspBits)
  }

  /** What the debug transport module sees. */
  function DebugIn(s: Sys): DebugBus {
    DebugBus(s.arb.dtm1ReqRdy, s.arb.dtm1RspVld, s.arb.dtmRspBits)
  }

  predicate AllSized(js: seq<SysInputs>) {
    forall k :: 0 <= k < |js| ==> Sized(js[k])
  }

  /** The registers after a run, with the arbiter's own run beside them. */
  function SysAfter(js: seq<SysInputs>): (s: Sys)
    requires AllSized(js)
    ensures Widths(s.icb) && |s.arb.dtmRspBits| == DBUS_RSP_BITS
  {
    if js == [] then Sys(Reset(), IcbReset()) else
      var before, j := SysAfter(js[..|js| - 1]), js[|js| - 1];
      assert Sized(j);
      Sys(Step(before.arb, ArbIn(before, j)), IcbStep(before.icb, j.cmd, DebugIn(before)))
  }

  function ArbRun(js: seq<SysInputs>): seq<Inputs>
    requires AllSized(js)
  {
    if js == [] then [] else
      var before := js[..|js| - 1];
      ArbRun(before) + [ArbIn(SysAfter(before), js[|js| - 1])]
  }

  /** The arbiter's part of the system run is an arbiter run. */
  lemma {:induction false} ArbiterRuns(js: seq<SysInputs>)
    requires AllSized(js)
    ensures SysAfter(js).arb == After(ArbRun(js))
  {
    if js != [] {
      var before := js[..|js| - 1];
      ArbiterRuns(before);
      OneMore(ArbRun(before), ArbIn(SysAfter(before), js[|js| - 1]));
    }
  }

  // ---------------------------------------------------------------------------
  // Which writes start an operation
  // ---------------------------------------------------------------------------

  /**
    What the program must leave alone: no CTRL write while an operation is starting or under
    way, and no write to a request register in the clock after a write to DM Request Others.
   */
  predicate Polite(g: Icb, c: Command) {
    && (g.fsm != Idle || g.opStart ==> !Writes(c, ADDR_CTRL))
    && (g.weOthersD ==> !Writes(c, ADDR_REQ_OTHERS) && !Writes(c, ADDR_REQ_DWORD))
  }

  predicate PoliteRun(js: seq<SysInputs>)
    requires AllSized(js)
  {
    js == [] || (PoliteRun(js[..|js| - 1]) && Polite(SysAfter(js[..|js| - 1]).icb, js[|js| - 1].cmd))
  }

  /** A write to DM Request Others starts an operation when the FSM is idle, or becomes idle in this clock. */
  predicate Starts(s: Sys, j: SysInputs) {
    Writes(j.cmd, ADDR_REQ_OTHERS) && (s.icb.fsm == Idle || OpDone(s.icb, DebugIn(s)))
  }

  /** The request register contents that the operation carries: those just written, or the old ones. */
  function Started(s: Sys, j: SysInputs): Bits
    requires Widths(s.icb) && Sized(j)
  {
    var others := if s.icb.fsm == Idle then j.cmd.wdata[..DBUS_OTHERS_LEN] else s.icb.reqOthers;
    Request(s.icb.reqDword, OpField(others), AddressField(others))
  }

  /** The requests of all operations started in a run. */
  function Ops(js: seq<SysInputs>): seq<Bits>
    requires AllSized(js)
  {
    if js == [] then [] else
      var before, j := js[..|js| - 1], js[|js| - 1];
      assert Sized(j);
      Ops(before) + (if Starts(SysAfter(before), j) then [Started(SysAfter(before), j)] else [])
  }

  // ---------------------------------------------------------------------------
  // The invariant
  // ---------------------------------------------------------------------------

  /** Every request accepted so far is the started operation of the same number, from port 1. */
  predicate Asked(t: seq<Event>, ops: seq<Bits>) {
    && (|t| + 3) / 4 <= |ops|
    && (forall k :: 0 <= k < (|t| + 3) / 4 ==> t[4 * k] == Accept(Port1, ops[k]))
  }

  /** The response registers hold this request's address, and the data and the low status bit of this answer. */
  predicate Holds(g: Icb, request: Bits, answer: Bits)
    requires Widths(g)
  {
    && |request| == DBUS_REQ_BITS && |answer| == DBUS_RSP_BITS
    && g.rspDword == answer[2..] && AddressField(g.rspOthers) == request[34..] && g.rspOthers[2] == answer[0]
  }

  /** The response registers hold the last finished operation. */
  predicate Reported(g: Icb, t: seq<Event>)
    requires Widths(g) && Serial(t) && |t| % 4 == 0 && |t| > 0
  {
    assert EventRight(t, |t| - 4) && EventRight(t, |t| - 2);
    Holds(g, t[|t| - 4].bits, t[|t| - 2].bits)
  }

  /** Where the FSM is, how many operations are started, and what the arbiter has seen of them. */
  predicate InStep(s: Sys, t: seq<Event>, ops: seq<Bits>)
    requires Widths(s.icb)
  {
    var n := (|t| + 3) / 4;
    && s.icb.weOthersD == s.icb.opStart
    && (match s.icb.fsm
        case Idle =>
          && |t| % 4 == 0 && |ops| == n + (if s.icb.opStart then 1 else 0)
          && (s.icb.opStart ==>
                ops[n] == Request(s.icb.reqDword, OpField(s.icb.reqOthers), AddressField(s.icb.reqOthers)))
        case ReqBusy =>
          && |t| % 4 == 0 && |ops| == n + 1 && ops[n] == RequestBits(s.icb) && s.icb.reqOp == OpField(s.icb.reqOthers)
        case RspBusy =>
          && |t| % 4 != 0 && |ops| == n && ops[n - 1] == RequestBits(s.icb) && s.icb.reqOp == OpField(s.icb.reqOthers))
  }

  predicate Consistent(s: Sys, t: seq<Event>, ops: seq<Bits>)
    requires Widths(s.icb)
  {
    && Serial(t) && Fits(s.arb, t) && Asked(t, ops) && InStep(s, t, ops)
    && (|t| % 4 == 0 && |t| > 0 ==> Reported(s.icb, t))
    && (|t| % 4 == 3 ==> |t[|t| - 1].bits| == DBUS_RSP_BITS)
  }

  // ---------------------------------------------------------------------------
  // One clock keeps it
  // ---------------------------------------------------------------------------

  /** The list of started operations after one more clock. */
  function OpsNext(s: Sys, j: SysInputs, ops: seq<Bits>): seq<Bits>
    requires Widths(s.icb) && Sized(j)
  {
    ops + (if Starts(s, j) then [Started(s, j)] else [])
  }

  function SysStep(s: Sys, j: SysInputs): (n: Sys)
    requires Widths(s.icb) && |s.arb.dtmRspBits| == DBUS_RSP_BITS && Sized(j)
    ensures Widths(n.icb)
  {
    Sys(Step(s.arb, ArbIn(s, j)), IcbStep(s.icb, j.cmd, DebugIn(s)))
  }

  /** While an operation is under way the request registers do not change. */
  lemma IcbBusyClock(g: Icb, c: Command, d: DebugBus)
    requires Widths(g) && BusWidths(c, d) && Polite(g, c) && g.fsm != Idle && g.weOthersD == g.opStart
    ensures var n := IcbStep(g, c, d);
      && n.reqDword == g.reqDword && n.reqOthers == g.reqOthers && n.reqOp == g.reqOp && n.fsm == NextFsm(g, d)
      && n.weOthersD == n.opStart == Writes(c, ADDR_REQ_OTHERS)
      && RequestBits(n) == RequestBits(g)
      && (!OpDone(g, d) ==> n.rspDword == g.rspDword && n.rspOthers == g.rspOthers)
      && (OpDone(g, d) ==> n.rspDword == d.respBits[2..])
      && (OpDone(g, d) ==> n.rspOthers[2] == d.respBits[0] && AddressField(n.rspOthers) == AddressField(g.reqOthers))
  {
    var n := IcbStep(g, c, d);
    if OpDone(g, d) {
      assert ([false, false, d.respBits[0], g.sticky] + AddressField(g.reqOthers))[4..] == AddressField(g.reqOthers);
    }
  }

  /** What the clock does to an idle module. */
  lemma IcbIdleClock(g: Icb, c: Command, d: DebugBus)
    requires Widths(g) && BusWidths(c, d) && Polite(g, c) && g.fsm == Idle && g.weOthersD == g.opStart
    ensures var n := IcbStep(g, c, d);
      && n.rspDword == g.rspDword && n.rspOthers == g.rspOthers
      && n.weOthersD == n.opStart == Writes(c, ADDR_REQ_OTHERS)
      && (n.opStart ==> !g.opStart && n.reqDword == g.reqDword && n.reqOthers == c.wdata[..DBUS_OTHERS_LEN])
      && n.fsm == (if g.opStart then ReqBusy else Idle)
      && (g.opStart ==> n.reqDword == g.reqDword && n.reqOthers == g.reqOthers && n.reqOp == OpField(g.reqOthers))
  {
  }

  /** The arbiter's half of a clock; only port 1 asks. */
  lemma ArbClock(s: Sys, t: seq<Event>, j: SysInputs) returns (e: seq<Event>)
    requires Widths(s.icb) && Serial(t) && Fits(s.arb, t) && DmFair(t, s.arb, ArbIn(s, j))
    ensures e == Events(s.arb, ArbIn(s, j)) && Serial(t + e) && Fits(Step(s.arb, ArbIn(s, j)), t + e)
    ensures |t| % 4 == 0 ==>
      e == If(s.icb.fsm == ReqBusy, Accept(Port1, RequestBits(s.icb))) && s.arb.dtm1ReqRdy && !s.arb.dtm1RspVld
    ensures |t| % 4 == 1 ==> !s.arb.dtm1RspVld && (|e| <= 1 || (|e| == 2 && e[1] == Answer(j.dmRspBits)))
    ensures |t| % 4 == 2 ==> !s.arb.dtm1RspVld && (e == [] || e == [Answer(j.dmRspBits)])
  {
    var i := ArbIn(s, j);
    UnansweredIs(t);
    EventsNow(s.arb, i);
    StepKeeps(t, s.arb, i);
    e := Events(s.arb, i);
    hide Step, Events, RequestBits, Serial, EventRight;
  }

  /** The arbiter's last clock of a transaction: the answer is on port 1, which takes it at once. */
  lemma LastArbClock(s: Sys, t: seq<Event>, j: SysInputs)
    requires Widths(s.icb) && Serial(t) && Fits(s.arb, t) && DmFair(t, s.arb, ArbIn(s, j))
    requires |t| % 4 == 3 && t[|t| - 3].Accept? && t[|t| - 3].port == Port1
    ensures s.arb.dtm1RspVld && t[|t| - 1] == Answer(s.arb.dtmRspBits)
    ensures Events(s.arb, ArbIn(s, j)) == [Deliver(Port1, s.arb.dtmRspBits)]
  {
    hide Step, Events, RequestBits, Serial;
    UnansweredIs(t);
    EventsNow(s.arb, ArbIn(s, j));
    EventAt(t, |t| - 3);
    EventAt(t, |t| - 1);
    hide EventRight;
  }

  /** No new request was accepted. */
  lemma AskedKept(t: seq<Event>, ops: seq<Bits>, e: seq<Event>, more: seq<Bits>)
    requires Asked(t, ops) && (|t + e| + 3) / 4 == (|t| + 3) / 4
    ensures Asked(t + e, ops + more)
  {
  }

  /** The next started operation was accepted. */
  lemma AskedNext(t: seq<Event>, ops: seq<Bits>, more: seq<Bits>)
    requires Asked(t, ops) && |t| % 4 == 0 && |t| / 4 < |ops|
    ensures Asked(t + [Accept(Port1, ops[|t| / 4])], ops + more)
  {
  }

  /** No operation is under way: the arbiter rests, and a write may start one. */
  lemma IdleClock(s: Sys, t: seq<Event>, ops: seq<Bits>, j: SysInputs)
    requires Widths(s.icb) && |s.arb.dtmRspBits| == DBUS_RSP_BITS && Sized(j) && Consistent(s, t, ops)
    requires DmFair(t, s.arb, ArbIn(s, j)) && Polite(s.icb, j.cmd) && s.icb.fsm == Idle
    ensures Consistent(SysStep(s, j), t + Events(s.arb, ArbIn(s, j)), OpsNext(s, j, ops))
  {
    hide Serial, Fits, Step, Events, EventRight, IcbStep, Request, Asked;
    var e := ArbClock(s, t, j);
    IcbIdleClock(s.icb, j.cmd, DebugIn(s));
    assert t + e == t;
    AskedKept(t, ops, [], if Starts(s, j) then [Started(s, j)] else []);
  }

  /** The request is offered, and the resting arbiter takes it at once. */
  lemma AskClock(s: Sys, t: seq<Event>, ops: seq<Bits>, j: SysInputs)
    requires Widths(s.icb) && |s.arb.dtmRspBits| == DBUS_RSP_BITS && Sized(j) && Consistent(s, t, ops)
    requires DmFair(t, s.arb, ArbIn(s, j)) && Polite(s.icb, j.cmd) && s.icb.fsm == ReqBusy
    ensures Consistent(SysStep(s, j), t + Events(s.arb, ArbIn(s, j)), OpsNext(s, j, ops))
  {
    hide Serial, Fits, Step, Events, EventRight, IcbStep, RequestBits, Asked, Reported;
    var e := ArbClock(s, t, j);
    IcbBusyClock(s.icb, j.cmd, DebugIn(s));
    assert e == [Accept(Port1, ops[|t| / 4])];
    AskedNext(t, ops, []);
    assert ops + [] == ops;
  }

  /** The request is forwarded and answered. */
  lemma AnswerClock(s: Sys, t: seq<Event>, ops: seq<Bits>, j: SysInputs)
    requires Widths(s.icb) && |s.arb.dtmRspBits| == DBUS_RSP_BITS && Sized(j) && Consistent(s, t, ops)
    requires DmFair(t, s.arb, ArbIn(s, j)) && Polite(s.icb, j.cmd) && s.icb.fsm == RspBusy && |t| % 4 != 3
    ensures Consistent(SysStep(s, j), t + Events(s.arb, ArbIn(s, j)), OpsNext(s, j, ops))
  {
    hide Serial, Fits, Step, Events, EventRight, IcbStep, RequestBits, Asked, Reported;
    var e := ArbClock(s, t, j);
    IcbBusyClock(s.icb, j.cmd, DebugIn(s));
    AskedKept(t, ops, e, []);
    assert ops + [] == ops;
  }

  /** The last clock brings the answer to the response registers. */
  lemma LastClock(s: Sys, t: seq<Event>, ops: seq<Bits>, j: SysInputs)
    requires Widths(s.icb) && |s.arb.dtmRspBits| == DBUS_RSP_BITS && Sized(j) && Consistent(s, t, ops)
    requires DmFair(t, s.arb, ArbIn(s, j)) && Polite(s.icb, j.cmd) && s.icb.fsm == RspBusy && |t| % 4 == 3
    ensures Consistent(SysStep(s, j), t + Events(s.arb, ArbIn(s, j)), OpsNext(s, j, ops))
  {
    hide Serial, Fits, Step, Events, EventRight, IcbStep;
    var n := (|t| + 3) / 4;
    assert t[4 * (n - 1)] == Accept(Port1, ops[n - 1]);
    var e := ArbClock(s, t, j);
    LastArbClock(s, t, j);
    IcbBusyClock(s.icb, j.cmd, DebugIn(s));
    AskedKept(t, ops, e, if Starts(s, j) then [Started(s, j)] else []);
    assert ops + [] == ops;
    assert RequestBits(s.icb)[34..] == AddressField(s.icb.reqOthers);
    hide RequestBits, Asked;
  }

  lemma Start()
    ensures Consistent(SysAfter([]), [], [])
  {
  }

  /** The invariant holds after every run in which the program is polite and the debug module fair. */
  lemma {:induction false} RunIsConsistent(js: seq<SysInputs>)
    requires AllSized(js) && PoliteRun(js) && DmFairRun(ArbRun(js))
    ensures Consistent(SysAfter(js), Trace(ArbRun(js)), Ops(js))
    decreases |js|
  {
    if js == [] {
      Start();
    } else {
      var before, j := js[..|js| - 1], js[|js| - 1];
      var s, t, ops := SysAfter(before), Trace(ArbRun(before)), Ops(before);
      assert Sized(j);
      ArbiterRuns(before);
      OneMore(ArbRun(before), ArbIn(s, j));
      hide Consistent, DmFair, Polite, Events, Step, IcbStep, Trace, After, DmFairRun, Starts, Started;
      RunIsConsistent(before);
      OneClock(s, t, ops, j);
    }
  }

  lemma OneClock(s: Sys, t: seq<Event>, ops: seq<Bits>, j: SysInputs)
    requires Widths(s.icb) && |s.arb.dtmRspBits| == DBUS_RSP_BITS && Sized(j) && Consistent(s, t, ops)
    requires DmFair(t, s.arb, ArbIn(s, j)) && Polite(s.icb, j.cmd)
    ensures Consistent(SysStep(s, j), t + Events(s.arb, ArbIn(s, j)), OpsNext(s, j, ops))
  {
    hide Consistent, DmFair, Polite, Events, Step, IcbStep, Starts, Started;
    if s.icb.fsm == Idle {
      IdleClock(s, t, ops, j);
    } else if s.icb.fsm == ReqBusy {
      AskClock(s, t, ops, j);
    } else if |t| % 4 == 3 {
      LastClock(s, t, ops, j);
    } else {
      AnswerClock(s, t, ops, j);
    }
  }

  /** The trace of what the arbiter and the debug module did. */
  function SysTrace(js: seq<SysInputs>): seq<Event>
    requires AllSized(js)
  {
    Trace(ArbRun(js))
  }

  /**
    End to end: the debug module is given exactly the requests of the started operations, in
    order and once each, with the register contents of each start; and when the Status
    register shows no operation and none is starting, all of them have been answered and the
    response registers hold the last one's address and the debug module's data.
   */
  lemma EachStartOneRequest(js: seq<SysInputs>)
    requires AllSized(js) && PoliteRun(js) && DmFairRun(ArbRun(js))
    ensures var t, ops, g := SysTrace(js), Ops(js), SysAfter(js).icb;
      var asked, answers := Only(t, 1), Only(t, 2);
      && |answers| <= |asked| <= |ops| <= |answers| + 1
      && (forall k :: 0 <= k < |asked| ==> asked[k] == Forward(ops[k]))
      && (g.fsm == Idle && !g.opStart ==> |answers| == |ops|)
      && (g.fsm == Idle && ops != [] && |answers| == |ops| ==>
           Holds(g, ops[|ops| - 1], answers[|ops| - 1].bits))
  {
    hide SysAfter, ArbRun, Trace, DmFairRun, Ops, PoliteRun, EventRight, Consistent, Holds;
    RunIsConsistent(js);
    FromInvariant(SysAfter(js), SysTrace(js), Ops(js));
  }

  lemma FromInvariant(s: Sys, t: seq<Event>, ops: seq<Bits>)
    requires Widths(s.icb) && Consistent(s, t, ops)
    ensures var g, asked, answers := s.icb, Only(t, 1), Only(t, 2);
      && |answers| <= |asked| <= |ops| <= |answers| + 1
      && (forall k :: 0 <= k < |asked| ==> asked[k] == Forward(ops[k]))
      && (g.fsm == Idle && !g.opStart ==> |answers| == |ops|)
      && (g.fsm == Idle && ops != [] && |answers| == |ops| ==>
           Holds(g, ops[|ops| - 1], answers[|ops| - 1].bits))
  {
    hide Only, EventRight, Fits, RequestBits, Request;
    OnlyAt(t, 1);
    OnlyAt(t, 2);
    forall k | 0 <= k < |Only(t, 1)|
      ensures Only(t, 1)[k] == Forward(ops[k])
    {
      ForwardsAt(t, k);
      assert t[4 * k] == Accept(Port1, ops[k]);
    }
    if s.icb.fsm == Idle && ops != [] && |Only(t, 2)| == |ops| {
      var n := |ops|;
      assert |t| == 4 * n && t[4 * (n - 1)] == Accept(Port1, ops[n - 1]);
      assert Only(t, 2)[n - 1] == t[4 * (n - 1) + 2];
    }
  }

  // ---------------------------------------------------------------------------
  // What the program sees, and when
  // ---------------------------------------------------------------------------

  function ReadOf(addr: nat): Command {
    Command(true, addr, true, Zeros(32), true)
  }

  /** The last bit of the Status register. */
  predicate Busy(g: Icb)
    requires Widths(g)
  {
    ReadData(g, ReadOf(ADDR_STAT), false)[31]
  }

  /**
    The program's view: once the Status register reads as not busy, and DM Request Others was
    not written in the clock before, reading the response registers gives the data of the debug
    module's answer to the last request, that request's address and the answer's low status bit.
   */
  lemma ProgramReadsAnswer(js: seq<SysInputs>)
    requires AllSized(js) && PoliteRun(js) && DmFairRun(ArbRun(js))
    requires Ops(js) != [] && !Busy(SysAfter(js).icb) && !SysAfter(js).icb.weOthersD
    ensures var ops, answers := Ops(js), Only(SysTrace(js), 2);
      |answers| == |ops| && ReadsAs(SysAfter(js).icb, ops[|ops| - 1], answers[|ops| - 1].bits)
  {
    hide SysAfter, ArbRun, Trace, DmFairRun, Ops, PoliteRun, Consistent, Only, Holds, ReadsAs, Busy;
    RunIsConsistent(js);
    NotStarting(SysAfter(js), SysTrace(js), Ops(js));
    EachStartOneRequest(js);
    var ops, answers := Ops(js), Only(SysTrace(js), 2);
    HoldsReads(SysAfter(js).icb, ops[|ops| - 1], answers[|ops| - 1].bits);
  }

  /** What the two response registers read as. */
  predicate ReadsAs(g: Icb, request: Bits, answer: Bits)
    requires Widths(g)
  {
    && |request| == DBUS_REQ_BITS && |answer| == DBUS_RSP_BITS
    && ReadData(g, ReadOf(ADDR_RSP_DWORD), false) == answer[2..]
    && ReadData(g, ReadOf(ADDR_RSP_OTHERS), false)[4..11] == request[34..]
    && ReadData(g, ReadOf(ADDR_RSP_OTHERS), false)[2] == answer[0]
  }

  lemma HoldsReads(g: Icb, request: Bits, answer: Bits)
    requires Widths(g) && Holds(g, request, answer)
    ensures ReadsAs(g, request, answer)
  {
    assert (g.rspOthers + Zeros(21))[4..11] == AddressField(g.rspOthers);
  }

  lemma NotStarting(s: Sys, t: seq<Event>, ops: seq<Bits>)
    requires Widths(s.icb) && Consistent(s, t, ops)
    ensures !s.icb.weOthersD ==> !s.icb.opStart
    ensures Busy(s.icb) <==> s.icb.fsm != Idle
  {
    hide Serial, Fits, Asked, Reported;
  }

  /** How far an operation is from its end, in clocks and handshakes. */
  function Left(s: Sys): nat {
    match s.icb.fsm
    case Idle => if s.icb.opStart then 5 else 0
    case ReqBusy => 4
    case RspBusy => Remaining(s.arb)
  }

  /** The clock only waits for the debug module. */
  predicate Stalled(s: Sys, j: SysInputs) {
    s.icb.fsm == RspBusy && ((Remaining(s.arb) == 3 && !j.dmReqRdy) || (Remaining(s.arb) == 2 && !j.dmRspVld))
  }

  /**
    Progress end to end: an operation comes closer to its end in every clock that does not wait
    for the debug module, and never falls back.
   */
  lemma OperationAdvances(js: seq<SysInputs>, j: SysInputs)
    requires AllSized(js) && Sized(j) && PoliteRun(js) && DmFairRun(ArbRun(js))
    requires DmFair(SysTrace(js), SysAfter(js).arb, ArbIn(SysAfter(js), j)) && Polite(SysAfter(js).icb, j.cmd)
    requires Left(SysAfter(js)) > 0 && !Starts(SysAfter(js), j)
    ensures AllSized(js + [j])
    ensures Left(SysAfter(js + [j])) <= Left(SysAfter(js)) <= 5
    ensures Left(SysAfter(js + [j])) < Left(SysAfter(js)) <==> !Stalled(SysAfter(js), j)
  {
    OneMoreClock(js, j);
    RunIsConsistent(js);
    hide SysAfter, ArbRun, Trace, DmFairRun, PoliteRun, Ops, Consistent, Starts, Left, Stalled, Polite, DmFair, SysStep;
    OneClock(SysAfter(js), SysTrace(js), Ops(js), j);
    OperationStep(SysAfter(js), SysTrace(js), Ops(js), j);
  }

  /** What is required of a run is required of every clock of it. */
  lemma LastOfRun(js: seq<SysInputs>, j: SysInputs)
    requires AllSized(js) && Sized(j) && AllSized(js + [j]) && PoliteRun(js + [j]) && DmFairRun(ArbRun(js + [j]))
    ensures PoliteRun(js) && Polite(SysAfter(js).icb, j.cmd)
    ensures DmFairRun(ArbRun(js)) && DmFair(SysTrace(js), SysAfter(js).arb, ArbIn(SysAfter(js), j))
  {
    assert (js + [j])[..|js|] == js;
    ArbiterRuns(js);
    hide DmFairRun, DmFair, SysAfter, After, Trace, Polite;
    OneMore(ArbRun(js), ArbIn(SysAfter(js), j));
  }

  /** Clocks of `more`, after the run `js`, that do not wait for the debug module. */
  function ActiveClocks(js: seq<SysInputs>, more: seq<SysInputs>): nat
    requires AllSized(js) && AllSized(more)
    decreases |more|
  {
    if more == [] then 0 else
      var before, j := more[..|more| - 1], more[|more| - 1];
      assert AllSized(js + before);
      ActiveClocks(js, before) + (if Stalled(SysAfter(js + before), j) then 0 else 1)
  }

  /** All through `more` one operation is under way: none ends there and none starts. */
  predicate Underway(js: seq<SysInputs>, more: seq<SysInputs>)
    requires AllSized(js) && AllSized(more)
  {
    more == [] ||
    (var before, j := more[..|more| - 1], more[|more| - 1];
     assert AllSized(js + before);
     Underway(js, before) && Left(SysAfter(js + before)) > 0 && !Starts(SysAfter(js + before), j))
  }

  /** However the run got here: an operation lasts for at most five clocks that do not wait for the debug module. */
  lemma {:induction false} OperationFinishes(js: seq<SysInputs>, more: seq<SysInputs>)
    requires AllSized(js) && AllSized(more) && AllSized(js + more) && PoliteRun(js + more)
    requires DmFairRun(ArbRun(js + more))
    requires Underway(js, more)
    ensures ActiveClocks(js, more) + Left(SysAfter(js + more)) <= Left(SysAfter(js)) <= 5
    decreases |more|
  {
    hide SysAfter, PoliteRun, DmFairRun, ArbRun, Left, Stalled, Starts, DmFair, Polite, AllSized;
    AtMostFive(SysAfter(js));
    if more == [] {
      assert js + more == js;
    } else {
      var before, j := more[..|more| - 1], more[|more| - 1];
      SizedParts(js, more);
      LastOfRun(js + before, j);
      OperationFinishes(js, before);
      OneActive(js, before, j);
    }
  }

  lemma AtMostFive(s: Sys)
    ensures Left(s) <= 5
  {
  }

  lemma SizedParts(js: seq<SysInputs>, more: seq<SysInputs>)
    requires AllSized(js) && AllSized(more) && more != []
    ensures var before, j := more[..|more| - 1], more[|more| - 1];
      && AllSized(before) && AllSized(js + before) && Sized(j) && AllSized(js + before + [j])
      && js + before + [j] == js + more
  {
    var before, j := more[..|more| - 1], more[|more| - 1];
    assert js + before + [j] == js + more;
    assert Sized(j);
  }

  lemma OneActive(js: seq<SysInputs>, before: seq<SysInputs>, j: SysInputs)
    requires AllSized(js) && AllSized(before) && AllSized(js + before) && Sized(j)
    requires PoliteRun(js + before) && DmFairRun(ArbRun(js + before)) && Polite(SysAfter(js + before).icb, j.cmd)
    requires DmFair(SysTrace(js + before), SysAfter(js + before).arb, ArbIn(SysAfter(js + before), j))
    requires Left(SysAfter(js + before)) > 0 && !Starts(SysAfter(js + before), j)
    ensures AllSized(js + before + [j])
    ensures Left(SysAfter(js + before + [j])) + (if Stalled(SysAfter(js + before), j) then 0 else 1) <=
      Left(SysAfter(js + before))
  {
    hide *;
    OperationAdvances(js + before, j);
  }

  lemma OneMoreClock(js: seq<SysInputs>, j: SysInputs)
    requires AllSized(js) && Sized(j)
    ensures AllSized(js + [j]) && SysAfter(js + [j]) == SysStep(SysAfter(js), j)
  {
    assert (js + [j])[..|js|] == js;
  }

  /** The events of a clock in which the operation is with the arbiter. */
  lemma ArbiterMoves(s: Sys, t: seq<Event>, ops: seq<Bits>, j: SysInputs)
    requires Widths(s.icb) && Consistent(s, t, ops) && DmFair(t, s.arb, ArbIn(s, j)) && s.icb.fsm == RspBusy
    ensures var n := |Events(s.arb, ArbIn(s, j))|;
      && |t| % 4 != 0 && Remaining(s.arb) == 4 - |t| % 4 && n <= Remaining(s.arb)
      && (n == 0 <==> Stalled(s, j))
      && (s.arb.dtm1RspVld <==> |t| % 4 == 3)
  {
    hide Serial, Reported, RequestBits, EventRight, Step;
    UnansweredIs(t);
    EndOfRun(s.arb, t);
    EventsNow(s.arb, ArbIn(s, j));
    if |t| % 4 == 3 {
      EventAt(t, |t| - 3);
      assert t[4 * ((|t| - 3) / 4)] == t[|t| - 3];
      LastArbClock(s, t, j);
    }
  }

  lemma OperationStep(s: Sys, t: seq<Event>, ops: seq<Bits>, j: SysInputs)
    requires Widths(s.icb) && |s.arb.dtmRspBits| == DBUS_RSP_BITS && Sized(j) && Consistent(s, t, ops)
    requires DmFair(t, s.arb, ArbIn(s, j)) && Polite(s.icb, j.cmd) && Left(s) > 0 && !Starts(s, j)
    requires Consistent(SysStep(s, j), t + Events(s.arb, ArbIn(s, j)), OpsNext(s, j, ops))
    ensures Left(SysStep(s, j)) <= Left(s) <= 5 && (Left(SysStep(s, j)) < Left(s) <==> !Stalled(s, j))
  {
    hide Serial, Asked, Reported, Step, Events, IcbStep, EventRight, RequestBits, Request;
    var n := SysStep(s, j);
    var u := t + Events(s.arb, ArbIn(s, j));
    EndOfRun(n.arb, u);
    hide Fits, Remaining;
    if s.icb.fsm == Idle {
      IcbIdleClock(s.icb, j.cmd, DebugIn(s));
    } else {
      IcbBusyClock(s.icb, j.cmd, DebugIn(s));
      if s.icb.fsm == RspBusy {
        ArbiterMoves(s, t, ops, j);
      } else {
        AskedAtOnce(s, t, ops, j);
      }
    }
  }

  lemma AskedAtOnce(s: Sys, t: seq<Event>, ops: seq<Bits>, j: SysInputs)
    requires Widths(s.icb) && Consistent(s, t, ops) && DmFair(t, s.arb, ArbIn(s, j)) && s.icb.fsm == ReqBusy
    ensures |t| % 4 == 0 && |Events(s.arb, ArbIn(s, j))| == 1 && s.arb.dtm1ReqRdy && !s.arb.dtm1RspVld
  {
    hide Serial, Reported, RequestBits, EventRight, Step, Events;
    var e := ArbClock(s, t, j);
  }

  /**
    A write to DM Request Others in the clock that ends an operation leaves the request
    registers alone and yet starts an operation: it repeats the request just answered.
   */
  lemma LastClockWriteRepeats(js: seq<SysInputs>, j: SysInputs)
    requires AllSized(js) && Sized(j) && PoliteRun(js) && DmFairRun(ArbRun(js))
    requires Starts(SysAfter(js), j) && SysAfter(js).icb.fsm != Idle
    ensures AllSized(js + [j]) && Ops(js) != [] && Ops(js + [j]) == Ops(js) + [Ops(js)[|Ops(js)| - 1]]
  {
    OneMoreOp(js, j);
    RunIsConsistent(js);
    hide SysAfter, ArbRun, Trace, DmFairRun, PoliteRun, Consistent, Ops, Starts, Started;
    RepeatsLast(SysAfter(js), SysTrace(js), Ops(js), j);
  }

  lemma OneMoreOp(js: seq<SysInputs>, j: SysInputs)
    requires AllSized(js) && Sized(j)
    ensures AllSized(js + [j])
    ensures Ops(js + [j]) == Ops(js) + (if Starts(SysAfter(js), j) then [Started(SysAfter(js), j)] else [])
  {
    assert (js + [j])[..|js|] == js;
  }

  lemma RepeatsLast(s: Sys, t: seq<Event>, ops: seq<Bits>, j: SysInputs)
    requires Widths(s.icb) && Sized(j) && Consistent(s, t, ops) && s.icb.fsm != Idle
    ensures ops != [] && Started(s, j) == ops[|ops| - 1]
  {
    hide Serial, Fits, Asked, Reported, Request;
  }
}
