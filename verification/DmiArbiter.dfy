/**
  The arbiter between two debug transport modules and one debug module (`rtl/dmi_arbiter.sv`).

  `Regs` are the module's flip-flops, `Inputs` its input ports at one rising clock edge.  The
  `assign` statements are predicates over both, and `Step` is one clock.  A run is the sequence
  of inputs since reset.
 */
module DmiArbiter {

  /** A bus value, lowest bit first. */
  type Bits = seq<bool>

  const DBUS_REQ_BITS: nat := 41
  const DBUS_RSP_BITS: nat := 34

  datatype Port = Port0 | Port1

  datatype Regs = Regs(
    dmReqVld: bool, dmReqBits: Bits,
    dtm0ReqRdy: bool, dtm1ReqRdy: bool,
    dtmRspBits: Bits, dmRspRdy: bool,
    dtm0RspVld: bool, dtm1RspVld: bool,
    dtmSrcLast: bool,       // set: port 1 was served last
    qRsp: bool)             // the transaction FSM: clear is Q_REQ, set is Q_RSP

  datatype Inputs = Inputs(
    dtm0ReqVld: bool, dtm0ReqBits: Bits, dtm0RspRdy: bool,
    dtm1ReqVld: bool, dtm1ReqBits: Bits, dtm1RspRdy: bool,
    dmReqRdy: bool, dmRspVld: bool, dmRspBits: Bits)

  // ---------------------------------------------------------------------------
  // The combinational signals
  // ---------------------------------------------------------------------------

  predicate DmReqDone(r: Regs, i: Inputs) {
    r.dmReqVld && i.dmReqRdy
  }

  predicate Dtm0ReqAllow(r: Regs, i: Inputs) {
    !r.qRsp && (r.dtmSrcLast || !i.dtm1ReqVld)
  }

  predicate Dtm1ReqAllow(r: Regs, i: Inputs) {
    !r.qRsp && (!r.dtmSrcLast || !i.dtm0ReqVld)
  }

  predicate Dtm0ReqAccept(r: Regs, i: Inputs) {
    i.dtm0ReqVld && r.dtm0ReqRdy && Dtm0ReqAllow(r, i)
  }

  predicate Dtm1ReqAccept(r: Regs, i: Inputs) {
    i.dtm1ReqVld && r.dtm1ReqRdy && Dtm1ReqAllow(r, i)
  }

  predicate Dtm0ReqDone(r: Regs, i: Inputs) {
    DmReqDone(r, i) && !r.dtm0ReqRdy
  }

  predicate Dtm1ReqDone(r: Regs, i: Inputs) {
    DmReqDone(r, i) && !r.dtm1ReqRdy
  }

  predicate DmRspAccept(r: Regs, i: Inputs) {
    r.qRsp && i.dmRspVld && r.dmRspRdy
  }

  predicate Dtm0RspClr(r: Regs, i: Inputs) {
    r.dtm0RspVld && i.dtm0RspRdy
  }

  predicate Dtm1RspClr(r: Regs, i: Inputs) {
    r.dtm1RspVld && i.dtm1RspRdy
  }

  predicate DmRspDone(r: Regs, i: Inputs) {
    if r.dtmSrcLast then Dtm1RspClr(r, i) else Dtm0RspClr(r, i)
  }

  predicate Accepts(r: Regs, i: Inputs, p: Port) {
    if p == Port0 then Dtm0ReqAccept(r, i) else Dtm1ReqAccept(r, i)
  }

  // ---------------------------------------------------------------------------
  // One clock
  // ---------------------------------------------------------------------------

  /** A flip-flop with an enable. */
  function Flop(enable: bool, d: bool, q: bool): bool {
    if enable then d else q
  }

  function Zeros(n: nat): Bits {
    seq(n, _ => false)
  }

  /** The values that `rst_n` forces. */
  function Reset(): Regs {
    Regs(false, Zeros(DBUS_REQ_BITS), true, true, Zeros(DBUS_RSP_BITS), true, false, false, false, false)
  }

  /** The strobes of one clock. */
  datatype Strobes = Strobes(
    accept0: bool, accept1: bool, sent: bool, done0: bool, done1: bool,
    answered: bool, rspDone: bool, clr0: bool, clr1: bool)

  function StrobesOf(r: Regs, i: Inputs): Strobes {
    Strobes(
      Dtm0ReqAccept(r, i), Dtm1ReqAccept(r, i), DmReqDone(r, i), Dtm0ReqDone(r, i), Dtm1ReqDone(r, i),
      DmRspAccept(r, i), DmRspDone(r, i), Dtm0RspClr(r, i), Dtm1RspClr(r, i))
  }

  /** All flip-flops at one rising edge. */
  function Latch(r: Regs, i: Inputs, s: Strobes): Regs {
    var rsp0, rsp1 := s.answered && !r.dtmSrcLast, s.answered && r.dtmSrcLast;
    Regs(
      Flop(s.accept0 || s.accept1 || s.sent, s.accept0 || s.accept1 || !s.sent, r.dmReqVld),
      if s.accept0 then i.dtm0ReqBits else if s.accept1 then i.dtm1ReqBits else r.dmReqBits,
      Flop(s.accept0 || s.done0, !s.accept0 || s.done0, r.dtm0ReqRdy),
      Flop(s.accept1 || s.done1, !s.accept1 || s.done1, r.dtm1ReqRdy),
      if s.answered then i.dmRspBits else r.dtmRspBits,
      Flop(s.answered || s.rspDone, !s.answered || s.rspDone, r.dmRspRdy),
      Flop(rsp0 || s.clr0, rsp0 || !s.clr0, r.dtm0RspVld),
      Flop(rsp1 || s.clr1, rsp1 || !s.clr1, r.dtm1RspVld),
      Flop(s.accept0 || s.accept1, s.accept1, r.dtmSrcLast),
      if !r.qRsp then s.accept0 || s.accept1 else !s.rspDone)
  }

  function Step(r: Regs, i: Inputs): Regs {
    Latch(r, i, StrobesOf(r, i))
  }

  // ---------------------------------------------------------------------------
  // What can be seen from outside
  // ---------------------------------------------------------------------------

  datatype Event =
    | Accept(port: Port, bits: Bits)   // a port's accept strobe
    | Forward(bits: Bits)              // a request handshake with the debug module
    | Answer(bits: Bits)               // a response handshake with the debug module
    | Deliver(port: Port, bits: Bits)  // a response handshake with a port

  function If(c: bool, e: Event): seq<Event> {
    if c then [e] else []
  }

  /** The events of one clock. */
  function Events(r: Regs, i: Inputs): seq<Event> {
    If(r.dtm0RspVld && i.dtm0RspRdy, Deliver(Port0, r.dtmRspBits)) +
    If(r.dtm1RspVld && i.dtm1RspRdy, Deliver(Port1, r.dtmRspBits)) +
    If(Dtm0ReqAccept(r, i), Accept(Port0, i.dtm0ReqBits)) +
    If(Dtm1ReqAccept(r, i), Accept(Port1, i.dtm1ReqBits)) +
    If(r.dmReqVld && i.dmReqRdy, Forward(r.dmReqBits)) +
    If(i.dmRspVld && r.dmRspRdy, Answer(i.dmRspBits))
  }

  /** The registers after a run. */
  function After(ins: seq<Inputs>): Regs {
    if ins == [] then Reset() else Step(After(ins[..|ins| - 1]), ins[|ins| - 1])
  }

  /** All events of a run. */
  function Trace(ins: seq<Inputs>): seq<Event> {
    if ins == [] then [] else
      Trace(ins[..|ins| - 1]) + Events(After(ins[..|ins| - 1]), ins[|ins| - 1])
  }

  /** Requests the debug module has taken and not answered. */
  function Unanswered(t: seq<Event>): int {
    if t == [] then 0 else
      Unanswered(t[..|t| - 1]) + (if t[|t| - 1].Forward? then 1 else if t[|t| - 1].Answer? then -1 else 0)
  }

  /** The debug module offers an answer only to a request it took before, or takes in this clock. */
  predicate DmFair(t: seq<Event>, r: Regs, i: Inputs) {
    i.dmRspVld ==> Unanswered(t) + (if DmReqDone(r, i) then 1 else 0) > 0
  }

  predicate DmFairRun(ins: seq<Inputs>) {
    ins == [] ||
    (DmFairRun(ins[..|ins| - 1]) && DmFair(Trace(ins[..|ins| - 1]), After(ins[..|ins| - 1]), ins[|ins| - 1]))
  }

  // ---------------------------------------------------------------------------
  // The atomic specification: pick a port, forward its request, answer that port
  // ---------------------------------------------------------------------------

  predicate EventRight(t: seq<Event>, j: nat)
    requires j < |t|
  {
    if j % 4 == 0 then
      t[j].Accept?
    else if j % 4 == 1 then
      t[j - 1].Accept? && t[j] == Forward(t[j - 1].bits)
    else if j % 4 == 2 then
      t[j].Answer?
    else
      t[j - 3].Accept? && t[j - 1].Answer? && t[j] == Deliver(t[j - 3].port, t[j - 1].bits)
  }

  /** A prefix of: accept a request, forward it, get its answer, deliver that to the same port; and so on. */
  predicate Serial(t: seq<Event>) {
    forall j :: 0 <= j < |t| ==> EventRight(t, j)
  }

  predicate Resting(r: Regs) {
    !r.dmReqVld && r.dtm0ReqRdy && r.dtm1ReqRdy
  }

  /** The registers at each point of a transaction. */
  predicate Fits(r: Regs, t: seq<Event>)
    requires Serial(t)
  {
    var n := |t|;
    if n % 4 == 0 then
      Resting(r) && !r.qRsp && r.dmRspRdy && !r.dtm0RspVld && !r.dtm1RspVld
    else if n % 4 == 1 then
      assert EventRight(t, n - 1);
      var p := t[n - 1].port;
      && r.qRsp && r.dmReqVld && r.dmReqBits == t[n - 1].bits
      && r.dtmSrcLast == (p == Port1)
      && r.dtm0ReqRdy == (p != Port0) && r.dtm1ReqRdy == (p != Port1)
      && r.dmRspRdy && !r.dtm0RspVld && !r.dtm1RspVld
    else if n % 4 == 2 then
      assert EventRight(t, n - 2);
      && Resting(r) && r.qRsp
      && r.dtmSrcLast == (t[n - 2].port == Port1)
      && r.dmRspRdy && !r.dtm0RspVld && !r.dtm1RspVld
    else
      assert EventRight(t, n - 3) && EventRight(t, n - 1);
      var p := t[n - 3].port;
      && Resting(r) && r.qRsp
      && r.dtmSrcLast == (p == Port1)
      && !r.dmRspRdy && r.dtmRspBits == t[n - 1].bits
      && r.dtm0RspVld == (p == Port0) && r.dtm1RspVld == (p == Port1)
  }

  lemma {:induction false} UnansweredIs(t: seq<Event>)
    requires Serial(t)
    ensures Unanswered(t) == if |t| % 4 == 2 then 1 else 0
  {
    if t != [] {
      var s := t[..|t| - 1];
      assert EventRight(t, |t| - 1);
      PrefixSerial(t, |t| - 1);
      UnansweredIs(s);
    }
  }

  lemma PrefixSerial(t: seq<Event>, n: nat)
    requires Serial(t) && n <= |t|
    ensures Serial(t[..n])
  {
    forall j | 0 <= j < n
      ensures EventRight(t[..n], j)
    {
      assert EventRight(t, j);
    }
  }

  lemma EventAt(t: seq<Event>, j: nat)
    requires Serial(t) && j < |t|
    ensures EventRight(t, j)
  {
  }

  lemma ExtendSerial(t: seq<Event>, e: Event)
    requires Serial(t) && EventRight(t + [e], |t|)
    ensures Serial(t + [e])
  {
    forall j | 0 <= j < |t + [e]|
      ensures EventRight(t + [e], j)
    {
      if j < |t| {
        assert EventRight(t, j);
      }
    }
  }

  /** The events of a clock, by what the registers allow. */
  lemma EventsNow(r: Regs, i: Inputs)
    ensures !r.qRsp && !r.dmReqVld && !r.dtm0RspVld && !r.dtm1RspVld && !i.dmRspVld ==>
      Events(r, i) == if Dtm0ReqAccept(r, i) then [Accept(Port0, i.dtm0ReqBits)]
                      else If(Dtm1ReqAccept(r, i), Accept(Port1, i.dtm1ReqBits))
    ensures r.qRsp && !r.dtm0RspVld && !r.dtm1RspVld && r.dmRspRdy ==>
      Events(r, i) == If(r.dmReqVld && i.dmReqRdy, Forward(r.dmReqBits)) + If(i.dmRspVld, Answer(i.dmRspBits))
    ensures r.qRsp && !r.dmReqVld && !r.dmRspRdy && r.dtm1RspVld == r.dtmSrcLast && r.dtm0RspVld == !r.dtmSrcLast ==>
      Events(r, i) == If(DmRspDone(r, i), Deliver(if r.dtmSrcLast then Port1 else Port0, r.dtmRspBits))
  {
  }

  /** Adding an event, or none, to a serial trace. */
  lemma ExtendIf(t: seq<Event>, c: bool, e: Event)
    requires Serial(t) && (c ==> EventRight(t + [e], |t|))
    ensures Serial(t + If(c, e))
  {
    if c {
      ExtendSerial(t, e);
    } else {
      assert t + [] == t;
    }
  }

  /** No request in progress: at most one port is accepted. */
  lemma FreeStep(t: seq<Event>, r: Regs, i: Inputs)
    requires Serial(t) && Fits(r, t) && DmFair(t, r, i) && |t| % 4 == 0
    ensures Serial(t + Events(r, i)) && Fits(Step(r, i), t + Events(r, i))
  {
    hide Events, Serial;
    UnansweredIs(t);
    EventsNow(r, i);
    if Dtm0ReqAccept(r, i) {
      ExtendSerial(t, Accept(Port0, i.dtm0ReqBits));
    } else if Dtm1ReqAccept(r, i) {
      ExtendSerial(t, Accept(Port1, i.dtm1ReqBits));
    } else {
      assert t + [] == t;
    }
  }

  /** A request is offered to the debug module, which may answer in the clock in which it takes it. */
  lemma AskingStep(t: seq<Event>, r: Regs, i: Inputs)
    requires Serial(t) && Fits(r, t) && DmFair(t, r, i) && |t| % 4 == 1
    ensures Serial(t + Events(r, i)) && Fits(Step(r, i), t + Events(r, i))
  {
    hide Events;
    UnansweredIs(t);
    EventsNow(r, i);
    assert EventRight(t, |t| - 1);
    AskingEvents(t, r.dmReqBits, i.dmReqRdy, i.dmRspVld, i.dmRspBits);
    assert t + [] == t;
    hide Serial, EventRight;
  }

  lemma AskingEvents(t: seq<Event>, request: Bits, taken: bool, answered: bool, answer: Bits)
    requires Serial(t) && |t| % 4 == 1 && t[|t| - 1].Accept? && request == t[|t| - 1].bits
    requires answered ==> taken
    ensures Serial(t + (If(taken, Forward(request)) + If(answered, Answer(answer))))
  {
    var s := t + If(taken, Forward(request));
    ExtendIf(t, taken, Forward(request));
    ExtendIf(s, answered, Answer(answer));
    assert t + (If(taken, Forward(request)) + If(answered, Answer(answer))) == s + If(answered, Answer(answer));
  }

  lemma WaitingEvents(t: seq<Event>, answered: bool, answer: Bits)
    requires Serial(t) && |t| % 4 == 2
    ensures Serial(t + If(answered, Answer(answer)))
  {
    ExtendIf(t, answered, Answer(answer));
  }

  lemma WaitingStep(t: seq<Event>, r: Regs, i: Inputs)
    requires Serial(t) && Fits(r, t) && DmFair(t, r, i) && |t| % 4 == 2
    ensures Serial(t + Events(r, i)) && Fits(Step(r, i), t + Events(r, i))
  {
    hide Events, Serial, EventRight;
    EventsNow(r, i);
    assert Events(r, i) == If(i.dmRspVld, Answer(i.dmRspBits));
    WaitingEvents(t, i.dmRspVld, i.dmRspBits);
    assert t + [] == t;
  }

  lemma AnsweringStep(t: seq<Event>, r: Regs, i: Inputs)
    requires Serial(t) && Fits(r, t) && DmFair(t, r, i) && |t| % 4 == 3
    ensures Serial(t + Events(r, i)) && Fits(Step(r, i), t + Events(r, i))
  {
    hide Events;
    UnansweredIs(t);
    EventsNow(r, i);
    assert EventRight(t, |t| - 3) && EventRight(t, |t| - 1);
    ExtendIf(t, DmRspDone(r, i), Deliver(t[|t| - 3].port, r.dtmRspBits));
    assert t + [] == t;
    hide Serial, EventRight;
  }

  /** One clock keeps the trace serial and the registers in step with it. */
  lemma StepKeeps(t: seq<Event>, r: Regs, i: Inputs)
    requires Serial(t) && Fits(r, t) && DmFair(t, r, i)
    ensures Serial(t + Events(r, i)) && Fits(Step(r, i), t + Events(r, i))
  {
    hide Step, Events, EventRight, DmFair;
    if |t| % 4 == 0 {
      FreeStep(t, r, i);
    } else if |t| % 4 == 1 {
      AskingStep(t, r, i);
    } else if |t| % 4 == 2 {
      WaitingStep(t, r, i);
    } else {
      AnsweringStep(t, r, i);
    }
  }

  /**
    Every run refines the atomic specification: each accepted request is forwarded once with
    its bits, answered once, and the answer goes unchanged to the port that asked, before the
    next request is accepted.
   */
  lemma {:induction false} RunIsSerial(ins: seq<Inputs>)
    requires DmFairRun(ins)
    ensures Serial(Trace(ins)) && Fits(After(ins), Trace(ins))
  {
    if ins != [] {
      var before := ins[..|ins| - 1];
      RunIsSerial(before);
      StepKeeps(Trace(before), After(before), ins[|ins| - 1]);
    }
  }

  // ---------------------------------------------------------------------------
  // The same, said of the separate handshakes
  // ---------------------------------------------------------------------------

  predicate IsKind(e: Event, kind: nat) {
    match kind
    case 0 => e.Accept?
    case 1 => e.Forward?
    case 2 => e.Answer?
    case _ => e.Deliver?
  }

  /** The events of one kind, in order. */
  function Only(t: seq<Event>, kind: nat): (s: seq<Event>)
    ensures forall k :: 0 <= k < |s| ==> IsKind(s[k], kind)
    decreases |t|
  {
    if t == [] then [] else Only(t[..|t| - 1], kind) + If(IsKind(t[|t| - 1], kind), t[|t| - 1])
  }

  lemma {:induction false} OnlyAt(t: seq<Event>, kind: nat)
    requires Serial(t) && kind < 4
    ensures |Only(t, kind)| == (|t| + 3 - kind) / 4
    ensures forall k :: 0 <= k < |Only(t, kind)| ==> 4 * k + kind < |t| && Only(t, kind)[k] == t[4 * k + kind]
    decreases |t|
  {
    if t != [] {
      PrefixSerial(t, |t| - 1);
      OnlyAt(t[..|t| - 1], kind);
      assert EventRight(t, |t| - 1);
      assert IsKind(t[|t| - 1], kind) <==> (|t| - 1) % 4 == kind;
    }
  }

  /**
    In every run from reset: accepted requests are forwarded in order, unchanged and exactly
    once, with at most one still pending; every answer is delivered unchanged to exactly the
    port whose request it answers; and at most one transaction is under way.
   */
  lemma ExactlyOnce(ins: seq<Inputs>)
    requires DmFairRun(ins)
    ensures var t := Trace(ins);
      var acc, fwd, ans, del := Only(t, 0), Only(t, 1), Only(t, 2), Only(t, 3);
      && |del| <= |ans| <= |fwd| <= |acc| <= |del| + 1
      && (forall k :: 0 <= k < |fwd| ==> fwd[k].bits == acc[k].bits)
      && (forall k :: 0 <= k < |del| ==> del[k].port == acc[k].port && del[k].bits == ans[k].bits)
  {
    hide After, Fits, Trace, Only, Serial;
    RunIsSerial(ins);
    InOrder(Trace(ins));
  }

  lemma InOrder(t: seq<Event>)
    requires Serial(t)
    ensures var acc, fwd, ans, del := Only(t, 0), Only(t, 1), Only(t, 2), Only(t, 3);
      && |del| <= |ans| <= |fwd| <= |acc| <= |del| + 1
      && (forall k :: 0 <= k < |fwd| ==> fwd[k].bits == acc[k].bits)
      && (forall k :: 0 <= k < |del| ==> del[k].port == acc[k].port && del[k].bits == ans[k].bits)
  {
    hide Only, EventRight;
    OnlyAt(t, 0);
    OnlyAt(t, 1);
    OnlyAt(t, 2);
    OnlyAt(t, 3);
    forall k | 0 <= k < |Only(t, 1)|
      ensures Only(t, 1)[k].bits == Only(t, 0)[k].bits
    {
      ForwardsAt(t, k);
    }
    forall k | 0 <= k < |Only(t, 3)|
      ensures Only(t, 3)[k].port == Only(t, 0)[k].port && Only(t, 3)[k].bits == Only(t, 2)[k].bits
    {
      DeliversAt(t, k);
    }
  }

  lemma ForwardsAt(t: seq<Event>, k: nat)
    requires Serial(t) && 4 * k + 1 < |t|
    ensures t[4 * k].Accept? && t[4 * k + 1] == Forward(t[4 * k].bits)
  {
    assert EventRight(t, 4 * k + 1);
  }

  lemma DeliversAt(t: seq<Event>, k: nat)
    requires Serial(t) && 4 * k + 3 < |t|
    ensures t[4 * k].Accept? && t[4 * k + 2].Answer? && t[4 * k + 3] == Deliver(t[4 * k].port, t[4 * k + 2].bits)
  {
    assert EventRight(t, 4 * k + 3);
  }

  /**
    An answer is never shown on both ports.  While it is shown it is the debug module's last
    answer, on the port whose request was accepted last.
   */
  lemma ShownToOnePort(ins: seq<Inputs>)
    requires DmFairRun(ins)
    ensures var r, t := After(ins), Trace(ins);
      && !(r.dtm0RspVld && r.dtm1RspVld)
      && (r.dtm0RspVld || r.dtm1RspVld ==>
          |t| >= 3 && t[|t| - 1] == Answer(r.dtmRspBits) && t[|t| - 3].Accept?
          && r.dtm0RspVld == (t[|t| - 3].port == Port0))
  {
    hide After, Trace, Serial, EventRight, Fits;
    RunIsSerial(ins);
    Shown(After(ins), Trace(ins));
  }

  lemma Shown(r: Regs, t: seq<Event>)
    requires Serial(t) && Fits(r, t)
    ensures !(r.dtm0RspVld && r.dtm1RspVld)
    ensures r.dtm0RspVld || r.dtm1RspVld ==>
      |t| >= 3 && t[|t| - 1] == Answer(r.dtmRspBits) && t[|t| - 3].Accept? && r.dtm0RspVld == (t[|t| - 3].port == Port0)
  {
    if |t| % 4 == 3 {
      assert EventRight(t, |t| - 3) && EventRight(t, |t| - 1);
    }
  }

  /** A request is offered unchanged until the debug module takes it. */
  lemma OfferedUntilTaken(ins: seq<Inputs>, i: Inputs)
    requires DmFairRun(ins + [i]) && After(ins).dmReqVld && !i.dmReqRdy
    ensures After(ins + [i]).dmReqVld && After(ins + [i]).dmReqBits == After(ins).dmReqBits
  {
    assert (ins + [i])[..|ins|] == ins;
    RunIsSerial(ins);
    assert Trace(ins) != [] ==> EventRight(Trace(ins), |Trace(ins)| - 1);
  }

  /** Answers are never lost: the debug module's ready and valid together are an accepted answer. */
  lemma AnswersAccepted(ins: seq<Inputs>, i: Inputs)
    requires DmFairRun(ins + [i]) && i.dmRspVld
    ensures After(ins).dmRspRdy && DmRspAccept(After(ins), i)
  {
    assert (ins + [i])[..|ins|] == ins;
    RunIsSerial(ins);
    UnansweredIs(Trace(ins));
  }

  // ---------------------------------------------------------------------------
  // Fairness and progress
  // ---------------------------------------------------------------------------

  function Other(p: Port): Port {
    if p == Port0 then Port1 else Port0
  }

  predicate ServedLast(r: Regs, p: Port) {
    r.dtmSrcLast == (p == Port1)
  }

  predicate Asks(i: Inputs, p: Port) {
    if p == Port0 then i.dtm0ReqVld else i.dtm1ReqVld
  }

  /** From registers `r`, over clocks `ins`: how often port `p` is accepted. */
  function CountAccepts(r: Regs, ins: seq<Inputs>, p: Port): nat
    decreases |ins|
  {
    if ins == [] then 0 else
      (if Accepts(r, ins[0], p) then 1 else 0) + CountAccepts(Step(r, ins[0]), ins[1..], p)
  }

  /** Port `p` holds its request up in every one of these clocks. */
  predicate KeepsAsking(ins: seq<Inputs>, p: Port) {
    forall k :: 0 <= k < |ins| ==> Asks(ins[k], p)
  }

  /**
    Fairness, from any state whatever: a port that keeps asking waits for at most one
    transaction of the other port, and for none if the other port was served last.
   */
  lemma {:induction false} Fair(r: Regs, ins: seq<Inputs>, p: Port)
    requires KeepsAsking(ins, p) && CountAccepts(r, ins, p) == 0
    ensures CountAccepts(r, ins, Other(p)) <= if ServedLast(r, Other(p)) then 0 else 1
    decreases |ins|
  {
    if ins != [] {
      assert Asks(ins[0], p);
      Fair(Step(r, ins[0]), ins[1..], p);
    }
  }

  /** Without a transaction, a request is accepted in the clock in which it is made: exactly one of them. */
  lemma WorkConserving(ins: seq<Inputs>, i: Inputs)
    requires DmFairRun(ins) && !After(ins).qRsp
    ensures (i.dtm0ReqVld || i.dtm1ReqVld) <==> Accepts(After(ins), i, Port0) || Accepts(After(ins), i, Port1)
    ensures !(Accepts(After(ins), i, Port0) && Accepts(After(ins), i, Port1))
  {
    RunIsSerial(ins);
  }

  predicate NobodyAsks(ins: seq<Inputs>) {
    forall k :: 0 <= k < |ins| ==> !ins[k].dtm0ReqVld && !ins[k].dtm1ReqVld
  }

  /** Until a port asks, nothing happens. */
  lemma {:induction false} StillResting(ins: seq<Inputs>)
    requires DmFairRun(ins) && NobodyAsks(ins)
    ensures After(ins) == Reset() && Trace(ins) == []
  {
    if ins != [] {
      var before, i := ins[..|ins| - 1], ins[|ins| - 1];
      StillResting(before);
      EventsNow(Reset(), i);
      RestingStep(i);
      hide Step, Events;
    }
  }

  lemma RestingStep(i: Inputs)
    requires !i.dtm0ReqVld && !i.dtm1ReqVld && !i.dmRspVld
    ensures Step(Reset(), i) == Reset()
  {
  }

  /** The first request after reset is accepted at once; if both ports make one, it is that of port 1. */
  lemma {:induction false} FirstServed(ins: seq<Inputs>, i: Inputs)
    requires DmFairRun(ins + [i]) && NobodyAsks(ins) && (i.dtm0ReqVld || i.dtm1ReqVld)
    ensures Trace(ins + [i]) ==
      [if i.dtm1ReqVld then Accept(Port1, i.dtm1ReqBits) else Accept(Port0, i.dtm0ReqBits)]
  {
    OneMore(ins, i);
    StillResting(ins);
    EventsNow(Reset(), i);
    hide After, Trace, DmFairRun, Step, Events;
  }

  /** How many handshakes the transaction under way still needs. */
  function Remaining(r: Regs): nat {
    if !r.qRsp then 0 else if r.dmReqVld then 3 else if r.dmRspRdy then 2 else 1
  }

  /** The handshake the arbiter is waiting for happens, or it waits for none. */
  predicate Responsive(r: Regs, i: Inputs) {
    match Remaining(r)
    case 0 => true
    case 1 => DmRspDone(r, i)
    case 2 => i.dmRspVld
    case _ => i.dmReqRdy
  }

  /**
    While a transaction is under way a clock never takes it back, and each awaited handshake
    brings it closer to the end.  At the end no request is pending and both ports are ready.
   */
  lemma Progress(ins: seq<Inputs>, i: Inputs)
    requires DmFairRun(ins + [i])
    ensures var r, s := After(ins), After(ins + [i]);
      && (r.qRsp ==> Remaining(s) <= Remaining(r) && (Responsive(r, i) <==> Remaining(s) < Remaining(r)))
      && (Remaining(s) == 0 <==> !s.qRsp)
      && (!s.qRsp ==> AtRest(s))
  {
    hide *;
    OneMore(ins, i);
    RunIsSerial(ins);
    ProgressStep(Trace(ins), After(ins), i);
  }

  predicate AtRest(s: Regs) {
    !s.dmReqVld && s.dtm0ReqRdy && s.dtm1ReqRdy && s.dmRspRdy && !s.dtm0RspVld && !s.dtm1RspVld
  }

  lemma ProgressStep(t: seq<Event>, r: Regs, i: Inputs)
    requires Serial(t) && Fits(r, t) && DmFair(t, r, i)
    ensures var s := Step(r, i);
      && (r.qRsp ==> Remaining(s) <= Remaining(r) && (Responsive(r, i) <==> Remaining(s) < Remaining(r)))
      && (Remaining(s) == 0 <==> !s.qRsp)
      && (!s.qRsp ==> AtRest(s))
  {
    hide Serial, EventRight, Events;
    UnansweredIs(t);
    EndOfRun(r, t);
    if |t| % 4 == 0 {
    } else if |t| % 4 == 1 {
    } else if |t| % 4 == 2 {
    } else {
    }
  }

  /** `Remaining` tells where in a transaction the trace is. */
  lemma EndOfRun(r: Regs, t: seq<Event>)
    requires Serial(t) && Fits(r, t)
    ensures Remaining(r) == (4 - |t| % 4) % 4
  {
  }

  /** Clocks of `more`, after the run `ins`, in which the awaited handshake happens or none is awaited. */
  function ResponsiveClocks(ins: seq<Inputs>, more: seq<Inputs>): nat
    decreases |more|
  {
    if more == [] then 0 else
      var before, i := more[..|more| - 1], more[|more| - 1];
      ResponsiveClocks(ins, before) + (if Responsive(After(ins + before), i) then 1 else 0)
  }

  predicate NeverAccepted(ins: seq<Inputs>, more: seq<Inputs>, p: Port) {
    forall k :: 0 <= k < |more| ==> !Accepts(After(ins + more[..k]), more[k], p)
  }

  /** How many responsive clocks a waiting port can still lose. */
  function Patience(r: Regs, p: Port): nat {
    Remaining(r) + (if ServedLast(r, p) then 4 else 0)
  }

  lemma PatienceShrinks(ins: seq<Inputs>, i: Inputs, p: Port)
    requires DmFairRun(ins + [i]) && Asks(i, p) && !Accepts(After(ins), i, p)
    ensures Patience(After(ins + [i]), p) + (if Responsive(After(ins), i) then 1 else 0) <= Patience(After(ins), p)
  {
    hide After, Trace, DmFairRun;
    OneMore(ins, i);
    if After(ins).qRsp {
      Progress(ins, i);
    } else {
      RunIsSerial(ins);
      FreePatience(Trace(ins), After(ins), i, p);
    }
  }

  lemma FreePatience(t: seq<Event>, r: Regs, i: Inputs, p: Port)
    requires Serial(t) && Fits(r, t) && !r.qRsp && Asks(i, p) && !Accepts(r, i, p)
    ensures Patience(Step(r, i), p) + 1 <= Patience(r, p)
  {
    hide Serial, EventRight;
  }

  /**
    Bounded waiting: however the run got here, a port that keeps asking loses at most seven
    responsive clocks before it is accepted.
   */
  lemma {:induction false} BoundedWait(ins: seq<Inputs>, more: seq<Inputs>, p: Port)
    requires DmFairRun(ins + more) && KeepsAsking(more, p) && NeverAccepted(ins, more, p)
    ensures ResponsiveClocks(ins, more) + Patience(After(ins + more), p) <= Patience(After(ins), p) <= 7
    decreases |more|
  {
    hide After, Accepts, DmFairRun, Responsive, Asks;
    if more == [] {
      assert ins + more == ins;
    } else {
      var n := |more| - 1;
      var before, i := more[..n], more[n];
      assert ins + before + [i] == ins + more;
      FairBefore(ins + before, i);
      assert NeverAccepted(ins, before, p) by {
        NotYetAccepted(ins, more, p);
      }
      BoundedWait(ins, before, p);
      assert !Accepts(After(ins + before), i, p);
      assert Asks(i, p);
      PatienceShrinks(ins + before, i, p);
    }
  }

  lemma FairBefore(ins: seq<Inputs>, i: Inputs)
    requires DmFairRun(ins + [i])
    ensures DmFairRun(ins)
  {
    assert (ins + [i])[..|ins|] == ins;
  }

  lemma NotYetAccepted(ins: seq<Inputs>, more: seq<Inputs>, p: Port)
    requires NeverAccepted(ins, more, p) && more != []
    ensures NeverAccepted(ins, more[..|more| - 1], p)
  {
    hide Accepts, After;
    var before := more[..|more| - 1];
    forall k | 0 <= k < |before|
      ensures !Accepts(After(ins + before[..k]), before[k], p)
    {
      assert before[..k] == more[..k];
    }
  }

  // ---------------------------------------------------------------------------
  // Ready and valid are not acceptance
  // ---------------------------------------------------------------------------

  /** Port `p` shows ready in this state. */
  predicate Ready(r: Regs, p: Port) {
    if p == Port0 then r.dtm0ReqRdy else r.dtm1ReqRdy
  }

  /**
    A port whose valid and ready are both high, which the module's interface calls a complete
    handshake, is accepted exactly when no transaction is under way and the other port is not
    asking or was served last.
   */
  lemma HandshakeAcceptedWhen(r: Regs, i: Inputs, p: Port)
    requires Asks(i, p) && Ready(r, p)
    ensures Accepts(r, i, p) <==> !r.qRsp && (!Asks(i, Other(p)) || ServedLast(r, Other(p)))
  {
    match p
    case Port0 =>
    case Port1 =>
  }

  /** One more clock of a run. */
  lemma OneMore(ins: seq<Inputs>, i: Inputs)
    ensures After(ins + [i]) == Step(After(ins), i)
    ensures Trace(ins + [i]) == Trace(ins) + Events(After(ins), i)
    ensures DmFairRun(ins + [i]) <==> DmFairRun(ins) && DmFair(Trace(ins), After(ins), i)
  {
    assert (ins + [i])[..|ins|] == ins;
  }

  /**
    So a port can complete a handshake and be forgotten.  Port 0 asks for `a`; one clock later
    port 1 completes a handshake for `b` and stops asking; when everything has come to rest
    again only `a` has been accepted and forwarded.
   */
  lemma HandshakeLost(a: Bits, b: Bits, answer: Bits) returns (ins: seq<Inputs>)
    ensures DmFairRun(ins) && |ins| == 4 && ins[1].dtm1ReqVld && ins[1].dtm1ReqBits == b
    ensures After(ins[..1]).dtm1ReqRdy
    ensures !After(ins).qRsp && Trace(ins) == [Accept(Port0, a), Forward(a), Answer(answer), Deliver(Port0, answer)]
  {
    hide After, Trace, DmFairRun, Step, Events;
    var quiet := Inputs(false, [], true, false, [], true, true, false, answer);
    var ask0, ask1 := quiet.(dtm0ReqVld := true, dtm0ReqBits := a), quiet.(dtm1ReqVld := true, dtm1ReqBits := b);
    var ans := quiet.(dmRspVld := true);
    OneMore([], ask0);
    OneMore([ask0], ask1);
    OneMore([ask0, ask1], ans);
    OneMore([ask0, ask1, ans], quiet);
    assert [] + [ask0] == [ask0] && [ask0] + [ask1] == [ask0, ask1];
    assert [ask0, ask1] + [ans] == [ask0, ask1, ans] && [ask0, ask1, ans] + [quiet] == [ask0, ask1, ans, quiet];
    ins := [ask0, ask1, ans, quiet];
    assert ins[..1] == [ask0];
    LostClocks(ask0, ask1, ans, quiet);
    StartOfRun();
    var f, d := Forward(a), Accept(Port0, a);
    assert [] + [d] == [d] && [d] + [f] == [d, f] && [d, f] + [Answer(answer)] == [d, f, Answer(answer)];
    hide DmFair, Unanswered;
    LostFair(d, f, ask0, ask1, ans, quiet);
  }

  lemma LostFair(d: Event, f: Event, ask0: Inputs, ask1: Inputs, ans: Inputs, quiet: Inputs)
    requires d.Accept? && f.Forward? && !ask0.dmRspVld && !ask1.dmRspVld && !quiet.dmRspVld
    ensures forall r: Regs, t: seq<Event> :: DmFair(t, r, ask0) && DmFair(t, r, ask1) && DmFair(t, r, quiet)
    ensures forall r: Regs :: DmFair([d, f], r, ans)
  {
    assert [d, f][..1] == [d] && [d][..0] == [];
    assert Unanswered([d]) == 0 && Unanswered([d, f]) == 1;
  }

  lemma StartOfRun()
    ensures After([]) == Reset() && Trace([]) == [] && DmFairRun([])
  {
  }

  lemma LostClocks(ask0: Inputs, ask1: Inputs, ans: Inputs, quiet: Inputs)
    requires quiet == Inputs(false, [], true, false, [], true, true, false, quiet.dmRspBits)
    requires ask0 == quiet.(dtm0ReqVld := true, dtm0ReqBits := ask0.dtm0ReqBits)
    requires ask1 == quiet.(dtm1ReqVld := true, dtm1ReqBits := ask1.dtm1ReqBits)
    requires ans == quiet.(dmRspVld := true)
    ensures var r1 := Step(Reset(), ask0);
      var r2 := Step(r1, ask1);
      var r3 := Step(r2, ans);
      && r1.dtm1ReqRdy && !Step(r3, quiet).qRsp
      && Events(Reset(), ask0) == [Accept(Port0, ask0.dtm0ReqBits)]
      && Events(r1, ask1) == [Forward(ask0.dtm0ReqBits)]
      && Events(r2, ans) == [Answer(quiet.dmRspBits)]
      && Events(r3, quiet) == [Deliver(Port0, quiet.dmRspBits)]
  {
  }

  // ---------------------------------------------------------------------------
  // The registers themselves
  // ---------------------------------------------------------------------------

  /** The clocked blocks of the module.  All of them read the values from before the edge. */
  class Arbiter {
    var dmReqVld: bool
    var dmReqBits: Bits
    var dtm0ReqRdy: bool
    var dtm1ReqRdy: bool
    var dtmRspBits: Bits
    var dmRspRdy: bool
    var dtm0RspVld: bool
    var dtm1RspVld: bool
    var dtmSrcLast: bool
    var qRsp: bool
    ghost var ins: seq<Inputs>

    function State(): Regs
      reads this
    {
      Regs(dmReqVld, dmReqBits, dtm0ReqRdy, dtm1ReqRdy, dtmRspBits, dmRspRdy, dtm0RspVld, dtm1RspVld, dtmSrcLast, qRsp)
    }

    constructor ()
      ensures State() == After([]) && ins == []
    {
      dmReqVld, dmReqBits := false, Zeros(DBUS_REQ_BITS);
      dtm0ReqRdy, dtm1ReqRdy := true, true;
      dtmRspBits, dmRspRdy := Zeros(DBUS_RSP_BITS), true;
      dtm0RspVld, dtm1RspVld := false, false;
      dtmSrcLast, qRsp, ins := false, false, [];
    }

    /** One rising edge; the module's own assertion (never both ports at once) is checked on the way. */
    method PosEdge(i: Inputs)
      requires State() == After(ins) && DmFairRun(ins + [i])
      modifies this
      ensures ins == old(ins) + [i] && State() == After(ins)
    {
      hide After, Trace, DmFairRun, Step, Dtm0ReqAccept, Dtm1ReqAccept;
      FairBefore(ins, i);
      NeverBoth(ins, i);
      OneMore(ins, i);
      assert !(Dtm0ReqAccept(State(), i) && Dtm1ReqAccept(State(), i));
      Clock(i);
      ins := ins + [i];
    }

    /** The `assign` statements. */
    method Wires(i: Inputs) returns (s: Strobes)
      ensures s == StrobesOf(State(), i)
    {
      var allow0 := !qRsp && (dtmSrcLast || !i.dtm1ReqVld);
      var allow1 := !qRsp && (!dtmSrcLast || !i.dtm0ReqVld);
      var accept0 := i.dtm0ReqVld && dtm0ReqRdy && allow0;
      var accept1 := i.dtm1ReqVld && dtm1ReqRdy && allow1;
      var sent := dmReqVld && i.dmReqRdy;
      var done0 := sent && !dtm0ReqRdy;
      var done1 := sent && !dtm1ReqRdy;
      var answered := qRsp && i.dmRspVld && dmRspRdy;
      var clr0 := dtm0RspVld && i.dtm0RspRdy;
      var clr1 := dtm1RspVld && i.dtm1RspRdy;
      var rspDone := if dtmSrcLast then clr1 else clr0;
      s := Strobes(accept0, accept1, sent, done0, done1, answered, rspDone, clr0, clr1);
    }

    predicate RequestRegsAre(n: Regs)
      reads `dmReqVld, `dmReqBits, `dtm0ReqRdy, `dtm1ReqRdy
    {
      dmReqVld == n.dmReqVld && dmReqBits == n.dmReqBits && dtm0ReqRdy == n.dtm0ReqRdy && dtm1ReqRdy == n.dtm1ReqRdy
    }

    predicate ResponseRegsAre(n: Regs)
      reads `dtmRspBits, `dmRspRdy, `dtm0RspVld, `dtm1RspVld
    {
      dtmRspBits == n.dtmRspBits && dmRspRdy == n.dmRspRdy && dtm0RspVld == n.dtm0RspVld && dtm1RspVld == n.dtm1RspVld
    }

    predicate PolicyRegsAre(n: Regs)
      reads `dtmSrcLast, `qRsp
    {
      dtmSrcLast == n.dtmSrcLast && qRsp == n.qRsp
    }

    lemma TakenTogether(n: Regs)
      ensures State() == n <==> RequestRegsAre(n) && ResponseRegsAre(n) && PolicyRegsAre(n)
    {
    }

    method Clock(i: Inputs)
      modifies this
      ensures State() == Step(old(State()), i) && ins == old(ins)
    {
      hide StrobesOf, Latch, RequestRegsAre, ResponseRegsAre, PolicyRegsAre;
      ghost var r := State();
      TakenTogether(r);
      var s := Wires(i);
      TakeRequest(i, s, r);
      TakeAnswer(i, s, r);
      ServePort(i, s, r);
      TakenTogether(Latch(r, i, s));
    }

    /** The request path: p_dm_req_bits, p_dm_req_vld, p_dtm0_req_rdy and p_dtm1_req_rdy. */
    method TakeRequest(i: Inputs, s: Strobes, ghost r: Regs)
      requires RequestRegsAre(r)
      modifies `dmReqBits, `dmReqVld, `dtm0ReqRdy, `dtm1ReqRdy
      ensures RequestRegsAre(Latch(r, i, s))
    {
      if s.accept0 {
        dmReqBits := i.dtm0ReqBits;
      } else if s.accept1 {
        dmReqBits := i.dtm1ReqBits;
      }
      if s.accept0 || s.accept1 || s.sent {
        dmReqVld := s.accept0 || s.accept1 || !s.sent;
      }
      if s.accept0 || s.done0 {
        dtm0ReqRdy := !s.accept0 || s.done0;
      }
      if s.accept1 || s.done1 {
        dtm1ReqRdy := !s.accept1 || s.done1;
      }
    }

    /** The response path: p_dtm_rsp_bits, p_dm_rsp_rdy, p_dtm0_rsp_vld and p_dtm1_rsp_vld. */
    method TakeAnswer(i: Inputs, s: Strobes, ghost r: Regs)
      requires ResponseRegsAre(r) && PolicyRegsAre(r)
      modifies `dtmRspBits, `dmRspRdy, `dtm0RspVld, `dtm1RspVld
      ensures ResponseRegsAre(Latch(r, i, s))
    {
      var rsp0 := s.answered && !dtmSrcLast;
      var rsp1 := s.answered && dtmSrcLast;
      if s.answered {
        dtmRspBits := i.dmRspBits;
      }
      if s.answered || s.rspDone {
        dmRspRdy := !s.answered || s.rspDone;
      }
      if rsp0 || s.clr0 {
        dtm0RspVld := rsp0 || !s.clr0;
      }
      if rsp1 || s.clr1 {
        dtm1RspVld := rsp1 || !s.clr1;
      }
    }

    /** The arbitration policy and the transaction FSM: p_dtm_src_last and p_trans_fsm_q. */
    method ServePort(i: Inputs, s: Strobes, ghost r: Regs)
      requires PolicyRegsAre(r)
      modifies `dtmSrcLast, `qRsp
      ensures PolicyRegsAre(Latch(r, i, s))
    {
      if s.accept0 || s.accept1 {
        dtmSrcLast := s.accept1;
      }
      if !qRsp {
        if s.accept0 || s.accept1 {
          qRsp := true;
        }
      } else if s.rspDone {
        qRsp := false;
      }
    }
  }

  lemma NeverBoth(ins: seq<Inputs>, i: Inputs)
    requires DmFairRun(ins)
    ensures !(Accepts(After(ins), i, Port0) && Accepts(After(ins), i, Port1))
  {
    RunIsSerial(ins);
  }
}
