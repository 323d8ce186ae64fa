/**
  The debug bus of the core complex (`rtl/zr_coreplex.sv`, lines 467-494) with both transport
  modules in use and with CTRL and the request registers written at any time: when exactly an
  operation of the system-bus module gets the answer to the request it was started with, when
  it gets another request's answer, and when it hangs.
 */
module DebugHazards {
  import opened DmiArbiter
  import opened Icb2DebugBus
  import opened DebugAccess

  /** What the JTAG transport module does at port 0 in one clock. */
  datatype Jtag = Jtag(reqVld: bool, reqBits: Bits, rspRdy: bool)

  /** One clock's inputs from both sides. */
  datatype Shared = Shared(sys: SysInputs, jtag: Jtag)

  function SharedIn(s: Sys, x: Shared): Inputs
    requires Widths(s.icb)
  {
    ArbIn(s, x.sys).(dtm0ReqVld := x.jtag.reqVld, dtm0ReqBits := x.jtag.reqBits, dtm0RspRdy := x.jtag.rspRdy)
  }

  predicate SizedSys(s: Sys) {
    Widths(s.icb) && |s.arb.dtmRspBits| == DBUS_RSP_BITS
  }

  function SharedStep(s: Sys, x: Shared): (n: Sys)
    requires SizedSys(s) && Sized(x.sys)
    ensures SizedSys(n)
  {
    Sys(Step(s.arb, SharedIn(s, x)), IcbStep(s.icb, x.sys.cmd, DebugIn(s)))
  }

  predicate AllShared(xs: seq<Shared>) {
    forall k :: 0 <= k < |xs| ==> Sized(xs[k].sys)
  }

  /** The registers after a run, from reset. */
  function SharedAfter(xs: seq<Shared>): (s: Sys)
    requires AllShared(xs)
    ensures SizedSys(s)
  {
    if xs == [] then Sys(Reset(), IcbReset()) else
      assert Sized(xs[|xs| - 1].sys);
      SharedStep(SharedAfter(xs[..|xs| - 1]), xs[|xs| - 1])
  }

  function SharedArbRun(xs: seq<Shared>): seq<Inputs>
    requires AllShared(xs)
  {
    if xs == [] then [] else SharedArbRun(xs[..|xs| - 1]) + [SharedIn(SharedAfter(xs[..|xs| - 1]), xs[|xs| - 1])]
  }

  predicate PoliteShared(xs: seq<Shared>)
    requires AllShared(xs)
  {
    xs == [] || (PoliteShared(xs[..|xs| - 1]) && Polite(SharedAfter(xs[..|xs| - 1]).icb, xs[|xs| - 1].sys.cmd))
  }

  lemma {:induction false} SharedArbiterRuns(xs: seq<Shared>)
    requires AllShared(xs)
    ensures SharedAfter(xs).arb == After(SharedArbRun(xs))
  {
    if xs != [] {
      var before := xs[..|xs| - 1];
      SharedArbiterRuns(before);
      OneMore(SharedArbRun(before), SharedIn(SharedAfter(before), xs[|xs| - 1]));
    }
  }

  // ---------------------------------------------------------------------------
  // A run, continued
  // ---------------------------------------------------------------------------

  /** The registers after more clocks. */
  function SharedFrom(s: Sys, xs: seq<Shared>): (n: Sys)
    requires SizedSys(s) && AllShared(xs)
    ensures SizedSys(n)
    decreases |xs|
  {
    if xs == [] then s else
      assert Sized(xs[0].sys);
      SharedFrom(SharedStep(s, xs[0]), xs[1..])
  }

  /** The events of these clocks. */
  function EventsFrom(s: Sys, xs: seq<Shared>): seq<Event>
    requires SizedSys(s) && AllShared(xs)
    decreases |xs|
  {
    if xs == [] then [] else
      assert Sized(xs[0].sys);
      Events(s.arb, SharedIn(s, xs[0])) + EventsFrom(SharedStep(s, xs[0]), xs[1..])
  }

  /** The debug module is fair in these clocks; `t` is the trace so far. */
  predicate FairFrom(t: seq<Event>, s: Sys, xs: seq<Shared>)
    requires SizedSys(s) && AllShared(xs)
    decreases |xs|
  {
    xs == [] ||
    (assert Sized(xs[0].sys);
     && DmFair(t, s.arb, SharedIn(s, xs[0]))
     && FairFrom(t + Events(s.arb, SharedIn(s, xs[0])), SharedStep(s, xs[0]), xs[1..]))
  }

  /** The operation does not end before the last of these clocks. */
  predicate BusyUntilLast(s: Sys, xs: seq<Shared>)
    requires SizedSys(s) && AllShared(xs)
    decreases |xs|
  {
    xs == [] ||
    (assert Sized(xs[0].sys);
     s.icb.fsm != Idle && BusyUntilLast(SharedStep(s, xs[0]), xs[1..]))
  }

  /** How many of these clocks bring the handshake that the arbiter is waiting for, if any. */
  function ResponsiveFrom(s: Sys, xs: seq<Shared>): nat
    requires SizedSys(s) && AllShared(xs)
    decreases |xs|
  {
    if xs == [] then 0 else
      assert Sized(xs[0].sys);
      (if Responsive(s.arb, SharedIn(s, xs[0])) then 1 else 0) + ResponsiveFrom(SharedStep(s, xs[0]), xs[1..])
  }

  predicate NoCtrl(xs: seq<Shared>) {
    forall k :: 0 <= k < |xs| ==> !Writes(xs[k].sys.cmd, ADDR_CTRL)
  }

  /** A run from reset is its beginning and then the rest. */
  lemma {:induction false} RunJoins(xs: seq<Shared>, ys: seq<Shared>)
    requires AllShared(xs) && AllShared(ys)
    ensures AllShared(xs + ys) && SharedAfter(xs + ys) == SharedFrom(SharedAfter(xs), ys)
    ensures Trace(SharedArbRun(xs + ys)) == Trace(SharedArbRun(xs)) + EventsFrom(SharedAfter(xs), ys)
    ensures DmFairRun(SharedArbRun(xs + ys)) <==>
      DmFairRun(SharedArbRun(xs)) && FairFrom(Trace(SharedArbRun(xs)), SharedAfter(xs), ys)
    decreases |ys|
  {
    hide SharedAfter, SharedArbRun, SharedStep, SharedIn, DmFairRun, DmFair, Trace, Events, After;
    if ys == [] {
      assert xs + ys == xs;
    } else {
      var y, rest := ys[0], ys[1..];
      assert Sized(y.sys);
      OneMoreShared(xs, y);
      assert xs + [y] + rest == xs + ys;
      RunJoins(xs + [y], rest);
    }
  }

  lemma OneMoreShared(xs: seq<Shared>, y: Shared)
    requires AllShared(xs) && Sized(y.sys)
    ensures AllShared(xs + [y]) && SharedAfter(xs + [y]) == SharedStep(SharedAfter(xs), y)
    ensures Trace(SharedArbRun(xs + [y])) ==
      Trace(SharedArbRun(xs)) + Events(SharedAfter(xs).arb, SharedIn(SharedAfter(xs), y))
    ensures DmFairRun(SharedArbRun(xs + [y])) <==>
      DmFairRun(SharedArbRun(xs)) && DmFair(Trace(SharedArbRun(xs)), SharedAfter(xs).arb, SharedIn(SharedAfter(xs), y))
  {
    hide SharedAfter, SharedArbRun, DmFairRun, DmFair, Trace, Events, After, SharedIn, SharedStep;
    OneMoreInput(xs, y);
    SharedArbiterRuns(xs);
    OneMore(SharedArbRun(xs), SharedIn(SharedAfter(xs), y));
  }

  lemma OneMoreInput(xs: seq<Shared>, y: Shared)
    requires AllShared(xs) && Sized(y.sys)
    ensures AllShared(xs + [y]) && SharedAfter(xs + [y]) == SharedStep(SharedAfter(xs), y)
    ensures SharedArbRun(xs + [y]) == SharedArbRun(xs) + [SharedIn(SharedAfter(xs), y)]
  {
    assert (xs + [y])[..|xs|] == xs;
    hide SharedIn, SharedStep;
  }

  // ---------------------------------------------------------------------------
  // Whose transaction it is
  // ---------------------------------------------------------------------------

  /** Where the transaction under way, if any, begins in the trace. */
  function Opened(t: seq<Event>): nat {
    |t| - |t| % 4
  }

  /** A transaction of port 1 is under way. */
  predicate Open1(t: seq<Event>) {
    |t| % 4 != 0 && t[Opened(t)].Accept? && t[Opened(t)].port == Port1
  }

  /** What the arbiter shows to port 1, by the trace. */
  predicate Shows(r: Regs, t: seq<Event>) {
    && (r.qRsp <==> |t| % 4 != 0)
    && (!r.dtm1ReqRdy <==> Open1(t) && |t| % 4 == 1)
    && (r.dtm1RspVld <==> Open1(t) && |t| % 4 == 3)
    && (|t| % 4 == 3 ==> t[|t| - 1] == Answer(r.dtmRspBits))
    && Remaining(r) == (4 - |t| % 4) % 4
  }

  lemma ShowsNow(r: Regs, t: seq<Event>)
    requires Serial(t) && Fits(r, t)
    ensures Shows(r, t)
  {
    EndOfRun(r, t);
    if |t| % 4 != 0 {
      EventAt(t, Opened(t));
      EventAt(t, |t| - 1);
    }
    hide Serial, EventRight;
  }

  /** What happens to the request of an operation. */
  datatype Fate =
    | Own     // it is accepted now
    | Stale   // an older request of this port is still under way: its answer ends the operation
    | Lost    // nobody takes it, and no answer will come

  /** The fate is decided in the first clock in which the request is offered. */
  function FateOf(t: seq<Event>, r: Regs, jtagAsks: bool): Fate {
    if Open1(t) then Stale
    else if |t| % 4 == 0 && (!jtagAsks || !r.dtmSrcLast) then Own
    else Lost
  }

  /** An operation waits, and port 1 has no transaction. */
  predicate Orphaned(s: Sys) {
    s.icb.fsm == RspBusy && !s.arb.dtm1RspVld && !(s.arb.qRsp && s.arb.dtmSrcLast)
  }

  /** Until CTRL is written an orphaned operation stays orphaned, whatever the other modules do. */
  lemma OrphanStays(s: Sys, x: Shared)
    requires SizedSys(s) && Sized(x.sys) && Orphaned(s) && !Writes(x.sys.cmd, ADDR_CTRL)
    ensures Orphaned(SharedStep(s, x))
  {
  }

  lemma {:induction false} OrphanForever(s: Sys, xs: seq<Shared>)
    requires SizedSys(s) && AllShared(xs) && NoCtrl(xs) && Orphaned(s)
    ensures Orphaned(SharedFrom(s, xs))
    decreases |xs|
  {
    if xs != [] {
      assert Sized(xs[0].sys) && !Writes(xs[0].sys.cmd, ADDR_CTRL);
      OrphanStays(s, xs[0]);
      hide SharedStep, Orphaned;
      OrphanForever(SharedStep(s, xs[0]), xs[1..]);
    }
  }

  // ---------------------------------------------------------------------------
  // One clock of an operation
  // ---------------------------------------------------------------------------

  /** While an operation is under way its request does not change. */
  lemma IcbHolds(g: Icb, c: Command, d: DebugBus)
    requires Widths(g) && BusWidths(c, d) && g.fsm != Idle && !Writes(c, ADDR_CTRL)
    ensures var n := IcbStep(g, c, d);
      && RequestBits(n) == RequestBits(g) && n.fsm == NextFsm(g, d)
      && (n.fsm == Idle ==> Holds(n, RequestBits(g), d.respBits))
  {
    assert ([false, false, d.respBits[0], g.sticky] + AddressField(g.reqOthers))[4..] == AddressField(g.reqOthers);
    assert RequestBits(g)[34..] == AddressField(g.reqOthers);
  }

  /** The arbiter's half of a clock. */
  lemma ArbiterClock(t: seq<Event>, r: Regs, i: Inputs)
    requires Serial(t) && Fits(r, t) && DmFair(t, r, i) && i.dtm1RspRdy == r.dtm1RspVld
    ensures var e, n := Events(r, i), Step(r, i);
      && Serial(t + e) && Fits(n, t + e) && Shows(r, t) && Shows(n, t + e)
      && (|t| % 4 == 0 && i.dtm1ReqVld && (!i.dtm0ReqVld || !r.dtmSrcLast) ==> e == [Accept(Port1, i.dtm1ReqBits)])
      && (Open1(t) ==> |e| <= 4 - |t| % 4)
      && (Open1(t) && |t| % 4 == 3 ==> e == [Deliver(Port1, r.dtmRspBits)])
      && (Open1(t) && |t| % 4 != 3 ==> |e| < 4 - |t| % 4)
      && (Open1(t) ==> Remaining(n) + (if Responsive(r, i) then 1 else 0) <= Remaining(r))
  {
    ShowsNow(r, t);
    StepKeeps(t, r, i);
    ShowsNow(Step(r, i), t + Events(r, i));
    ProgressStep(t, r, i);
    UnansweredIs(t);
    EventsNow(r, i);
    hide Serial, EventRight, Events, Step, Responsive;
    Sides(r, t);
  }

  /** During a transaction the registers tell whose it is. */
  lemma Sides(r: Regs, t: seq<Event>)
    requires Serial(t) && Fits(r, t)
    ensures |t| % 4 != 0 ==> (r.dtmSrcLast <==> Open1(t))
  {
    if |t| % 4 != 0 {
      EventAt(t, Opened(t));
    }
    hide Serial, EventRight;
  }

  /** The trace, after one more clock. */
  function Longer(t: seq<Event>, s: Sys, x: Shared): seq<Event>
    requires SizedSys(s) && Sized(x.sys)
  {
    t + Events(s.arb, SharedIn(s, x))
  }

  predicate Fitting(s: Sys, t: seq<Event>) {
    SizedSys(s) && Serial(t) && Fits(s.arb, t)
  }

  /** The clock that decides, when no request of this port is under way. */
  lemma OfferClock(s: Sys, t: seq<Event>, x: Shared)
    requires Fitting(s, t) && Sized(x.sys) && DmFair(t, s.arb, SharedIn(s, x))
    requires s.icb.fsm == ReqBusy && !Writes(x.sys.cmd, ADDR_CTRL) && !Open1(t)
    ensures var n, q := SharedStep(s, x), RequestBits(s.icb);
      && Fitting(n, Longer(t, s, x)) && n.icb.fsm == RspBusy && RequestBits(n.icb) == q
      && (FateOf(t, s.arb, x.jtag.reqVld) == Own ==>
            |t| % 4 == 0 && Longer(t, s, x) == t + [Accept(Port1, q)] && Open1(Longer(t, s, x)))
      && (FateOf(t, s.arb, x.jtag.reqVld) == Lost ==> Orphaned(n))
  {
    var r, i := s.arb, SharedIn(s, x);
    ArbiterClock(t, r, i);
    IcbHolds(s.icb, x.sys.cmd, DebugIn(s));
    Sides(r, t);
    if FateOf(t, r, x.jtag.reqVld) == Lost {
      NowOrphaned(r, i);
    }
    hide Serial, EventRight, Fits, Events, Step, IcbStep, RequestBits;
  }

  lemma NowOrphaned(r: Regs, i: Inputs)
    requires !r.dtm1RspVld && i.dtm1RspRdy == r.dtm1RspVld
    requires if r.qRsp then !r.dtmSrcLast else i.dtm0ReqVld && r.dtm0ReqRdy && r.dtmSrcLast
    ensures var n := Step(r, i); !n.dtm1RspVld && !(n.qRsp && n.dtmSrcLast)
  {
  }

  /** A clock of an operation while a transaction of this port is under way: its answer ends the operation. */
  lemma ServedClock(s: Sys, t: seq<Event>, x: Shared)
    requires Fitting(s, t) && Sized(x.sys) && DmFair(t, s.arb, SharedIn(s, x))
    requires s.icb.fsm != Idle && !Writes(x.sys.cmd, ADDR_CTRL) && Open1(t)
    ensures var n, u := SharedStep(s, x), Longer(t, s, x);
      && Fitting(n, u) && RequestBits(n.icb) == RequestBits(s.icb)
      && Opened(t) < |u| <= Opened(t) + 4
      && (n.icb.fsm == Idle <==> |u| == Opened(t) + 4)
      && (n.icb.fsm == Idle ==> u[|u| - 2].Answer? && Holds(n.icb, RequestBits(s.icb), u[|u| - 2].bits))
      && (n.icb.fsm != Idle ==> Open1(u) && Opened(u) == Opened(t))
      && (s.icb.fsm == RspBusy ==> n.icb.fsm != ReqBusy)
      && Remaining(n.arb) + (if Responsive(s.arb, SharedIn(s, x)) then 1 else 0) <= Remaining(s.arb)
  {
    ArbiterClock(t, s.arb, SharedIn(s, x));
    IcbHolds(s.icb, x.sys.cmd, DebugIn(s));
    hide Serial, EventRight, Fits, Events, Step, IcbStep, RequestBits, Responsive, Remaining, Holds;
  }

  lemma EarlierStays(t: seq<Event>, s: Sys, x: Shared)
    requires SizedSys(s) && Sized(x.sys)
    ensures |t| <= |Longer(t, s, x)| && Longer(t, s, x)[..|t|] == t
  {
  }

  /** The trace after more clocks. */
  function TraceFrom(t: seq<Event>, s: Sys, xs: seq<Shared>): seq<Event>
    requires SizedSys(s) && AllShared(xs)
  {
    t + EventsFrom(s, xs)
  }

  lemma FirstClock(t: seq<Event>, s: Sys, xs: seq<Shared>)
    requires SizedSys(s) && AllShared(xs) && xs != []
    ensures Sized(xs[0].sys) && AllShared(xs[1..])
    ensures TraceFrom(t, s, xs) == TraceFrom(Longer(t, s, xs[0]), SharedStep(s, xs[0]), xs[1..])
    ensures SharedFrom(s, xs) == SharedFrom(SharedStep(s, xs[0]), xs[1..])
    ensures FairFrom(t, s, xs) <==>
      DmFair(t, s.arb, SharedIn(s, xs[0])) && FairFrom(Longer(t, s, xs[0]), SharedStep(s, xs[0]), xs[1..])
    ensures BusyUntilLast(s, xs) <==> s.icb.fsm != Idle && BusyUntilLast(SharedStep(s, xs[0]), xs[1..])
    ensures ResponsiveFrom(s, xs) ==
      (if Responsive(s.arb, SharedIn(s, xs[0])) then 1 else 0) + ResponsiveFrom(SharedStep(s, xs[0]), xs[1..])
    ensures NoCtrl(xs) ==> !Writes(xs[0].sys.cmd, ADDR_CTRL) && NoCtrl(xs[1..])
  {
    hide SharedStep, Events, SharedIn, DmFair, Responsive, Writes;
  }

  /** Whatever the program and JTAG do, the events continue the same transaction, and its answer ends the operation. */
  lemma {:induction false} ServedRun(s: Sys, t: seq<Event>, xs: seq<Shared>)
    requires Fitting(s, t) && AllShared(xs) && NoCtrl(xs) && FairFrom(t, s, xs) && BusyUntilLast(s, xs)
    requires s.icb.fsm != Idle && Open1(t)
    ensures var n, u := SharedFrom(s, xs), TraceFrom(t, s, xs);
      && Serial(u) && |t| <= |u| <= Opened(t) + 4 && u[..|t|] == t
      && (n.icb.fsm == Idle <==> |u| == Opened(t) + 4)
      && (n.icb.fsm == Idle ==> u[|u| - 2].Answer? && Holds(n.icb, RequestBits(s.icb), u[|u| - 2].bits))
      && (n.icb.fsm != Idle ==> Remaining(n.arb) > 0)
      && Remaining(n.arb) + ResponsiveFrom(s, xs) <= Remaining(s.arb)
    decreases |xs|
  {
    hide SharedStep, Longer, TraceFrom, FairFrom, EventsFrom, BusyUntilLast, ResponsiveFrom, SharedFrom, NoCtrl,
      AllShared, Serial, Fits, DmFair, Responsive, RequestBits, Holds, Writes, SharedIn, Remaining;
    if xs == [] {
      NoClocks(s, t);
    } else {
      FirstClock(t, s, xs);
      var x, rest := xs[0], xs[1..];
      ServedClock(s, t, x);
      EarlierStays(t, s, x);
      var n, u := SharedStep(s, x), Longer(t, s, x);
      if n.icb.fsm == Idle {
        OnlyLast(n, rest);
        NoClocks(n, u);
      } else {
        ServedRun(n, u, rest);
        Grows(t, u, TraceFrom(u, n, rest));
      }
    }
  }

  lemma Grows(t: seq<Event>, u: seq<Event>, w: seq<Event>)
    requires |t| <= |u| <= |w| && u[..|t|] == t && w[..|u|] == u
    ensures w[..|t|] == t
  {
  }

  /** After the end of the operation there are no more clocks. */
  lemma OnlyLast(s: Sys, xs: seq<Shared>)
    requires SizedSys(s) && AllShared(xs) && BusyUntilLast(s, xs) && s.icb.fsm == Idle
    ensures xs == []
  {
  }

  lemma NoClocks(s: Sys, t: seq<Event>)
    requires Fitting(s, t)
    ensures SharedFrom(s, []) == s && TraceFrom(t, s, []) == t && ResponsiveFrom(s, []) == 0 && t[..|t|] == t
    ensures Remaining(s.arb) > 0 <==> |t| % 4 != 0
  {
    ShowsNow(s.arb, t);
  }

  // ---------------------------------------------------------------------------
  // Which answer an operation gets
  // ---------------------------------------------------------------------------

  /** The whole transaction of this request, and its answer in the response registers. */
  predicate OwnAnswer(e: seq<Event>, g: Icb, request: Bits)
    requires Widths(g)
  {
    && |e| == 4 && e[0] == Accept(Port1, request) && e[1] == Forward(request)
    && e[2].Answer? && e[3] == Deliver(Port1, e[2].bits)
    && Holds(g, request, e[2].bits)
  }

  predicate NoneAccepted(e: seq<Event>) {
    forall k :: 0 <= k < |e| ==> !e[k].Accept?
  }

  /** The transaction that was under way after `t` ended, and its answer is reported under this request's address. */
  predicate OldAnswer(t: seq<Event>, e: seq<Event>, g: Icb, request: Bits)
    requires Widths(g) && Open1(t)
  {
    var u, k := t + e, Opened(t);
    && |u| == k + 4 && u[k + 1] == Forward(t[k].bits)
    && u[k + 2].Answer? && u[k + 3] == Deliver(Port1, u[k + 2].bits)
    && Holds(g, request, u[k + 2].bits)
  }

  /** What follows from the fate of a request, over any clocks without a CTRL write. */
  predicate Outcome(s: Sys, t: seq<Event>, xs: seq<Shared>)
    requires SizedSys(s) && AllShared(xs) && xs != []
  {
    var n, e, q := SharedFrom(s, xs), EventsFrom(s, xs), RequestBits(s.icb);
    && (match FateOf(t, s.arb, xs[0].jtag.reqVld)
        case Own => n.icb.fsm == Idle ==> OwnAnswer(e, n.icb, q)
        case Stale => Open1(t) && NoneAccepted(e) && (n.icb.fsm == Idle ==> OldAnswer(t, e, n.icb, q))
        case Lost => Orphaned(n))
    && (FateOf(t, s.arb, xs[0].jtag.reqVld) != Lost ==>
          Remaining(n.arb) + ResponsiveFrom(s, xs) <= 4 && (n.icb.fsm != Idle ==> Remaining(n.arb) > 0))
  }

  lemma OutcomeOf(s: Sys, t: seq<Event>, xs: seq<Shared>)
    requires Fitting(s, t) && AllShared(xs) && NoCtrl(xs) && FairFrom(t, s, xs) && BusyUntilLast(s, xs)
    requires s.icb.fsm == ReqBusy && xs != []
    ensures Outcome(s, t, xs)
  {
    hide SharedStep, Longer, TraceFrom, FairFrom, EventsFrom, BusyUntilLast, ResponsiveFrom, SharedFrom, NoCtrl,
      AllShared, Serial, Fits, DmFair, RequestBits, Holds, Writes, SharedIn, FateOf, Outcome, Orphaned;
    FirstClock(t, s, xs);
    var x, rest := xs[0], xs[1..];
    var n, u := SharedStep(s, x), Longer(t, s, x);
    if Open1(t) {
      ServedRun(s, t, xs);
      StaleOutcome(s, t, xs);
    } else {
      OfferClock(s, t, x);
      if FateOf(t, s.arb, x.jtag.reqVld) == Own {
        ServedRun(n, u, rest);
        OwnOutcome(s, t, xs);
      } else {
        assert FateOf(t, s.arb, x.jtag.reqVld) == Lost by {
          NotStale(t, s.arb, x.jtag.reqVld);
        }
        OrphanForever(n, rest);
        LostOutcome(s, t, xs);
      }
    }
  }

  lemma NotStale(t: seq<Event>, r: Regs, jtagAsks: bool)
    ensures Open1(t) <==> FateOf(t, r, jtagAsks) == Stale
  {
  }

  lemma LostOutcome(s: Sys, t: seq<Event>, xs: seq<Shared>)
    requires SizedSys(s) && AllShared(xs) && xs != [] && FateOf(t, s.arb, xs[0].jtag.reqVld) == Lost
    requires Orphaned(SharedFrom(s, xs))
    ensures Outcome(s, t, xs)
  {
    hide SharedFrom, EventsFrom, RequestBits, FateOf, Orphaned, ResponsiveFrom;
  }

  lemma StaleOutcome(s: Sys, t: seq<Event>, xs: seq<Shared>)
    requires Fitting(s, t) && AllShared(xs) && xs != [] && Open1(t)
    requires var n, u := SharedFrom(s, xs), TraceFrom(t, s, xs);
      && Serial(u) && |t| <= |u| <= Opened(t) + 4 && u[..|t|] == t
      && (n.icb.fsm == Idle <==> |u| == Opened(t) + 4)
      && (n.icb.fsm == Idle ==> u[|u| - 2].Answer? && Holds(n.icb, RequestBits(s.icb), u[|u| - 2].bits))
      && (n.icb.fsm != Idle ==> Remaining(n.arb) > 0)
      && Remaining(n.arb) + ResponsiveFrom(s, xs) <= Remaining(s.arb)
    ensures Outcome(s, t, xs)
  {
    hide SharedFrom, EventsFrom, ResponsiveFrom, RequestBits, Holds, Serial, EventRight;
    var n, e, u := SharedFrom(s, xs), EventsFrom(s, xs), TraceFrom(t, s, xs);
    NotStale(t, s.arb, xs[0].jtag.reqVld);
    forall k | 0 <= k < |e|
      ensures !e[k].Accept?
    {
      assert e[k] == u[|t| + k];
      LaterEvents(u, |t| + k);
    }
    if n.icb.fsm == Idle {
      ForwardsAt(u, Opened(t) / 4);
      DeliversAt(u, Opened(t) / 4);
      assert u[Opened(t)] == t[Opened(t)];
    }
    hide FateOf;
  }

  /** Accepted requests stand at every fourth place. */
  lemma LaterEvents(t: seq<Event>, k: nat)
    requires Serial(t) && k < |t| && k % 4 != 0
    ensures !t[k].Accept?
  {
    EventAt(t, k);
  }

  lemma OwnOutcome(s: Sys, t: seq<Event>, xs: seq<Shared>)
    requires Fitting(s, t) && AllShared(xs) && xs != [] && |t| % 4 == 0
    requires FateOf(t, s.arb, xs[0].jtag.reqVld) == Own
    requires var n, u, q := SharedFrom(s, xs), TraceFrom(t, s, xs), RequestBits(s.icb);
      && Serial(u) && |t| < |u| <= |t| + 4 && u[..|t| + 1] == t + [Accept(Port1, q)]
      && (n.icb.fsm == Idle <==> |u| == |t| + 4)
      && (n.icb.fsm == Idle ==> u[|u| - 2].Answer? && Holds(n.icb, q, u[|u| - 2].bits))
      && (n.icb.fsm != Idle ==> Remaining(n.arb) > 0)
      && Remaining(n.arb) + ResponsiveFrom(s, xs) <= 4
    ensures Outcome(s, t, xs)
  {
    hide SharedFrom, EventsFrom, ResponsiveFrom, RequestBits, Holds, Serial, EventRight, FateOf;
    var n, e, u, q := SharedFrom(s, xs), EventsFrom(s, xs), TraceFrom(t, s, xs), RequestBits(s.icb);
    assert u == t + e;
    if n.icb.fsm == Idle {
      ForwardsAt(u, |t| / 4);
      DeliversAt(u, |t| / 4);
      assert u[|t|] == (t + [Accept(Port1, q)])[|t|];
      assert e[0] == u[|t|] && e[1] == u[|t| + 1] && e[2] == u[|t| + 2] && e[3] == u[|t| + 3];
    }
  }

  // ---------------------------------------------------------------------------
  // The same over runs from reset
  // ---------------------------------------------------------------------------

  /** All events of a run. */
  function SharedTrace(xs: seq<Shared>): seq<Event>
    requires AllShared(xs)
  {
    Trace(SharedArbRun(xs))
  }

  predicate FairRun(xs: seq<Shared>)
    requires AllShared(xs)
  {
    DmFairRun(SharedArbRun(xs))
  }

  lemma RunFits(xs: seq<Shared>)
    requires AllShared(xs) && FairRun(xs)
    ensures Fitting(SharedAfter(xs), SharedTrace(xs))
  {
    SharedArbiterRuns(xs);
    RunIsSerial(SharedArbRun(xs));
  }

  /** One more clock of a fair run. */
  lemma NextClock(xs: seq<Shared>, x: Shared)
    requires AllShared(xs) && Sized(x.sys) && AllShared(xs + [x]) && FairRun(xs + [x])
    ensures FairRun(xs) && Fitting(SharedAfter(xs), SharedTrace(xs))
    ensures DmFair(SharedTrace(xs), SharedAfter(xs).arb, SharedIn(SharedAfter(xs), x))
    ensures SharedAfter(xs + [x]) == SharedStep(SharedAfter(xs), x)
    ensures SharedTrace(xs + [x]) == Longer(SharedTrace(xs), SharedAfter(xs), x)
  {
    OneMoreShared(xs, x);
    hide SharedAfter, SharedArbRun, DmFairRun, DmFair, Trace, Events, SharedIn, SharedStep, Fitting;
    RunFits(xs);
  }

  /** What becomes of a request that is offered in a clock of a run. */
  function FateAfter(xs: seq<Shared>, jtagAsks: bool): Fate
    requires AllShared(xs)
  {
    FateOf(SharedTrace(xs), SharedAfter(xs).arb, jtagAsks)
  }

  /**
    Which answer an operation gets, after any run, whatever CTRL and register writes and JTAG
    transactions it contains, and over any continuation without a CTRL write.  The first clock in
    which the request is offered decides.  `Own`: the operation ends with its own address and the
    answer to its own request, which is forwarded once.  `Stale`: nothing is accepted, and it ends
    with the answer to the port's older request.  `Lost`: it never ends.  In the first two cases it
    is over after at most four responsive clocks.
   */
  lemma AnswerDecided(xs: seq<Shared>, ys: seq<Shared>)
    requires AllShared(xs) && AllShared(ys) && AllShared(xs + ys) && FairRun(xs + ys)
    requires SharedAfter(xs).icb.fsm == ReqBusy && ys != [] && NoCtrl(ys) && BusyUntilLast(SharedAfter(xs), ys)
    ensures Outcome(SharedAfter(xs), SharedTrace(xs), ys)
    ensures SharedAfter(xs + ys) == SharedFrom(SharedAfter(xs), ys)
  {
    RunJoins(xs, ys);
    hide SharedAfter, SharedArbRun, Trace, DmFairRun, FairFrom, SharedFrom, EventsFrom, Outcome, BusyUntilLast, Fitting;
    RunFits(xs);
    OutcomeOf(SharedAfter(xs), SharedTrace(xs), ys);
  }

  /** An operation is about to be offered: DM Request Others was written in the clock before. */
  predicate Starting(g: Icb) {
    g.fsm == Idle && g.opStart
  }

  /** The request that the write started. */
  function StartedRequest(g: Icb): Bits
    requires Widths(g)
  {
    Request(g.reqDword, OpField(g.reqOthers), AddressField(g.reqOthers))
  }

  /** A command in the clock after the starting write leaves data and address as they are. */
  predicate Carries(g: Icb, c: Command)
    requires Widths(g) && |c.wdata| == 32
  {
    && (Writes(c, ADDR_REQ_DWORD) ==> c.wdata == g.reqDword)
    && (Writes(c, ADDR_REQ_OTHERS) ==> AddressField(c.wdata[..DBUS_OTHERS_LEN]) == AddressField(g.reqOthers))
  }

  /** The offered request is the started one, exactly when the command in between keeps it. */
  lemma CarriesIff(g: Icb, c: Command, d: DebugBus)
    requires Widths(g) && BusWidths(c, d) && Starting(g) && !Writes(c, ADDR_CTRL)
    ensures IcbStep(g, c, d).fsm == ReqBusy
    ensures RequestBits(IcbStep(g, c, d)) == StartedRequest(g) <==> Carries(g, c)
    ensures var q := RequestBits(IcbStep(g, c, d));
      && (Writes(c, ADDR_REQ_OTHERS) ==>
            q == Request(g.reqDword, OpField(g.reqOthers), AddressField(c.wdata[..DBUS_OTHERS_LEN])))
      && (Writes(c, ADDR_REQ_DWORD) ==> q == Request(c.wdata, OpField(g.reqOthers), AddressField(g.reqOthers)))
  {
    var n := IcbStep(g, c, d);
    var a, b := RequestBits(n), StartedRequest(g);
    assert a[..32] == n.reqDword && b[..32] == g.reqDword;
    assert a[34..] == AddressField(n.reqOthers) && b[34..] == AddressField(g.reqOthers);
  }

  /**
    When exactly an operation ends with the answer to the request it was started with, both ports
    in use and every register writable at any time: if and only if the command in the clock after
    the starting write keeps data and address, and in the next clock no transaction is under way
    and JTAG does not ask or was served last.
   */
  lemma GetsOwnAnswerIff(xs: seq<Shared>, x: Shared, ys: seq<Shared>)
    requires AllShared(xs) && Sized(x.sys) && AllShared(ys) && AllShared(xs + [x]) && AllShared(xs + [x] + ys)
    requires FairRun(xs + [x] + ys) && Starting(SharedAfter(xs).icb) && !Writes(x.sys.cmd, ADDR_CTRL)
    requires ys != [] && NoCtrl(ys) && BusyUntilLast(SharedAfter(xs + [x]), ys)
    requires SharedAfter(xs + [x] + ys).icb.fsm == Idle
    ensures var s, g := SharedAfter(xs + [x]), SharedAfter(xs).icb;
      && s.icb.fsm == ReqBusy
      && (OwnAnswer(EventsFrom(s, ys), SharedAfter(xs + [x] + ys).icb, StartedRequest(g)) <==>
            Carries(g, x.sys.cmd) && FateAfter(xs + [x], ys[0].jtag.reqVld) == Own)
  {
    OneMoreShared(xs, x);
    CarriesIff(SharedAfter(xs).icb, x.sys.cmd, DebugIn(SharedAfter(xs)));
    hide SharedAfter, SharedTrace, FairRun, SharedFrom, EventsFrom, BusyUntilLast, StartedRequest, RequestBits,
      Carries, Starting, Holds, Step, IcbStep, FateOf, Orphaned, NoCtrl;
    AnswerDecided(xs + [x], ys);
    OneOutcome(SharedAfter(xs + [x]), SharedTrace(xs + [x]), ys, StartedRequest(SharedAfter(xs).icb));
  }

  /** An ended operation got its own answer for the request that it offered, or another one. */
  lemma OneOutcome(s: Sys, t: seq<Event>, xs: seq<Shared>, request: Bits)
    requires SizedSys(s) && AllShared(xs) && xs != [] && Outcome(s, t, xs) && SharedFrom(s, xs).icb.fsm == Idle
    ensures OwnAnswer(EventsFrom(s, xs), SharedFrom(s, xs).icb, request) <==>
      request == RequestBits(s.icb) && FateOf(t, s.arb, xs[0].jtag.reqVld) == Own
  {
    hide SharedFrom, EventsFrom, RequestBits, Holds, FateOf, Remaining, ResponsiveFrom;
  }

  predicate NoneDelivered(e: seq<Event>) {
    forall k :: 0 <= k < |e| ==> !e[k].Deliver?
  }

  /** A transaction lasts until its answer is delivered. */
  lemma StillOpen(t: seq<Event>, e: seq<Event>)
    requires Serial(t + e) && Open1(t) && NoneDelivered(e)
    ensures Open1(t + e) && Opened(t + e) == Opened(t)
  {
    var u, k := t + e, Opened(t);
    if |u| >= k + 4 {
      assert u[k + 3] == e[k + 3 - |t|];
      assert !u[k + 3].Deliver?;
      hide Serial, EventRight, NoneDelivered;
      DeliversAt(u, k / 4);
    }
    assert u[k] == t[k];
  }

  lemma {:induction false} StaysOwed(xs: seq<Shared>, zs: seq<Shared>)
    requires AllShared(xs) && AllShared(zs) && AllShared(xs + zs) && FairRun(xs + zs)
    requires Open1(SharedTrace(xs)) && NoneDelivered(EventsFrom(SharedAfter(xs), zs))
    ensures Open1(SharedTrace(xs + zs)) && Opened(SharedTrace(xs + zs)) == Opened(SharedTrace(xs))
  {
    RunJoins(xs, zs);
    hide SharedAfter, SharedArbRun, Trace, DmFairRun, FairFrom, SharedFrom, EventsFrom, Serial, Fits, Open1,
      NoneDelivered;
    RunFits(xs + zs);
    StillOpen(SharedTrace(xs), EventsFrom(SharedAfter(xs), zs));
  }

  /**
    An answer that is owed stays owed: whatever is written, CTRL included, an operation that is
    offered before the delivery of the port's older answer ends with that answer.
   */
  lemma {:induction false} CtrlMixesAnswers(xs: seq<Shared>, zs: seq<Shared>, ys: seq<Shared>)
    requires AllShared(xs) && AllShared(zs) && AllShared(xs + zs) && AllShared(ys) && AllShared(xs + zs + ys)
    requires FairRun(xs + zs + ys) && Open1(SharedTrace(xs)) && NoneDelivered(EventsFrom(SharedAfter(xs), zs))
    requires SharedAfter(xs + zs).icb.fsm == ReqBusy && ys != [] && NoCtrl(ys)
    requires BusyUntilLast(SharedAfter(xs + zs), ys)
    ensures var s, n, t := SharedAfter(xs + zs), SharedAfter(xs + zs + ys), SharedTrace(xs + zs);
      var e := EventsFrom(s, ys);
      && Open1(t) && Opened(t) == Opened(SharedTrace(xs)) && NoneAccepted(e)
      && (n.icb.fsm == Idle ==> OldAnswer(t, e, n.icb, RequestBits(s.icb)))
      && ResponsiveFrom(s, ys) <= (if n.icb.fsm == Idle then 4 else 3)
  {
    hide SharedAfter, SharedTrace, FairRun, SharedFrom, EventsFrom, BusyUntilLast, RequestBits, Holds, FateOf, Orphaned,
      NoCtrl, OldAnswer, NoneAccepted, ResponsiveFrom, DmFairRun, SharedArbRun, Trace, FairFrom, Open1, NoneDelivered,
      AllShared;
    FairPrefix(xs + zs, ys);
    StaysOwed(xs, zs);
    AnswerDecided(xs + zs, ys);
    NotStale(SharedTrace(xs + zs), SharedAfter(xs + zs).arb, ys[0].jtag.reqVld);
  }

  lemma FairPrefix(xs: seq<Shared>, ys: seq<Shared>)
    requires AllShared(xs) && AllShared(ys) && AllShared(xs + ys) && FairRun(xs + ys)
    ensures FairRun(xs)
  {
    RunJoins(xs, ys);
  }

  // ---------------------------------------------------------------------------
  // When an operation hangs
  // ---------------------------------------------------------------------------

  /** No continuation without a CTRL write, however responsive, ends the operation. */
  ghost predicate Hangs(s: Sys, t: seq<Event>)
    requires SizedSys(s)
  {
    forall ys: seq<Shared> :: AllShared(ys) && NoCtrl(ys) && FairFrom(t, s, ys) ==> SharedFrom(s, ys).icb.fsm != Idle
  }

  /** A clock without a bus command in which the debug module takes what is offered, or gives the answer it owes. */
  function Quiet(answers: bool): Shared {
    var idle := Command(false, 0, false, Zeros(32), false);
    Shared(SysInputs(idle, true, answers, Zeros(DBUS_RSP_BITS)), Jtag(false, [], true))
  }

  lemma QuietIs(answers: bool)
    ensures Sized(Quiet(answers).sys) && !Writes(Quiet(answers).sys.cmd, ADDR_CTRL)
    ensures AllShared([Quiet(answers)]) && NoCtrl([Quiet(answers)])
  {
  }

  /** A quiet clock is fair, and never a wasted one. */
  lemma QuietClock(s: Sys, t: seq<Event>)
    requires Fitting(s, t) && |t| % 4 != 0 && (Open1(t) || |t| % 4 != 3)
    ensures var x := Quiet(|t| % 4 == 2);
      Sized(x.sys) && DmFair(t, s.arb, SharedIn(s, x)) && Responsive(s.arb, SharedIn(s, x))
  {
    UnansweredIs(t);
    ShowsNow(s.arb, t);
    Sides(s.arb, t);
    hide Serial, EventRight, RequestBits;
  }

  /** An operation whose answer is owed can always be brought to its end. */
  lemma {:induction false} CanEnd(s: Sys, t: seq<Event>) returns (ys: seq<Shared>)
    requires Fitting(s, t) && s.icb.fsm != Idle && Open1(t)
    ensures AllShared(ys) && NoCtrl(ys) && FairFrom(t, s, ys) && SharedFrom(s, ys).icb.fsm == Idle
    decreases Remaining(s.arb)
  {
    hide SharedStep, Longer, TraceFrom, FairFrom, EventsFrom, SharedFrom, NoCtrl, AllShared, SharedIn,
      Serial, Fits, DmFair, Responsive, RequestBits, Holds, Writes, Remaining, Quiet, BusyUntilLast, ResponsiveFrom,
      Sized;
    var x := Quiet(|t| % 4 == 2);
    QuietIs(|t| % 4 == 2);
    QuietClock(s, t);
    ServedClock(s, t, x);
    var n := SharedStep(s, x);
    if n.icb.fsm == Idle {
      ys := [];
      NoneLeft(n, Longer(t, s, x));
    } else {
      ys := CanEnd(n, Longer(t, s, x));
    }
    InFront(x, ys);
    FirstClock(t, s, [x] + ys);
    assert ([x] + ys)[1..] == ys;
    ys := [x] + ys;
  }

  lemma NoneLeft(s: Sys, t: seq<Event>)
    requires SizedSys(s)
    ensures AllShared([]) && NoCtrl([]) && FairFrom(t, s, []) && SharedFrom(s, []) == s
  {
  }

  lemma InFront(x: Shared, ys: seq<Shared>)
    requires Sized(x.sys) && AllShared(ys) && NoCtrl(ys) && !Writes(x.sys.cmd, ADDR_CTRL)
    ensures AllShared([x] + ys) && NoCtrl([x] + ys)
  {
  }

  /**
    When exactly an operation hangs, with JTAG in use, after any run: exactly when its request is
    lost in the clock in which it is first offered.
   */
  lemma {:induction false} HangsExactlyWhen(xs: seq<Shared>, x: Shared)
    requires AllShared(xs) && Sized(x.sys) && AllShared(xs + [x]) && FairRun(xs + [x])
    requires SharedAfter(xs).icb.fsm == ReqBusy && !Writes(x.sys.cmd, ADDR_CTRL)
    ensures Hangs(SharedAfter(xs + [x]), SharedTrace(xs + [x])) <==> FateAfter(xs, x.jtag.reqVld) == Lost
  {
    hide SharedAfter, SharedTrace, FairRun, SharedStep, Longer, Fitting, FateOf, Hangs, AllShared, DmFair, SharedIn,
         Writes;
    NextClock(xs, x);
    OfferHangs(SharedAfter(xs), SharedTrace(xs), x);
  }

  lemma OfferHangs(s: Sys, t: seq<Event>, x: Shared)
    requires Fitting(s, t) && Sized(x.sys) && DmFair(t, s.arb, SharedIn(s, x))
    requires s.icb.fsm == ReqBusy && !Writes(x.sys.cmd, ADDR_CTRL)
    ensures Hangs(SharedStep(s, x), Longer(t, s, x)) <==> FateOf(t, s.arb, x.jtag.reqVld) == Lost
  {
    hide SharedStep, Longer, Serial, Fits, RequestBits, DmFair, SharedIn, FateOf, Open1, Orphaned, Holds, Responsive,
      Remaining, Writes;
    var n, u := SharedStep(s, x), Longer(t, s, x);
    NotStale(t, s.arb, x.jtag.reqVld);
    if Open1(t) {
      ServedClock(s, t, x);
      EndsSomehow(n, u);
    } else {
      OfferClock(s, t, x);
      if FateOf(t, s.arb, x.jtag.reqVld) == Own {
        EndsSomehow(n, u);
      } else {
        assert FateOf(t, s.arb, x.jtag.reqVld) == Lost;
        NeverEnds(n, u);
      }
    }
  }

  lemma EndsSomehow(s: Sys, t: seq<Event>)
    requires Fitting(s, t) && (s.icb.fsm == Idle || Open1(t))
    ensures !Hangs(s, t)
  {
    hide SharedFrom, FairFrom, Serial, Fits, Open1;
    if s.icb.fsm == Idle {
      NoneLeft(s, t);
      assert FairFrom(t, s, []);
    } else {
      var ys := CanEnd(s, t);
      assert FairFrom(t, s, ys);
    }
  }

  lemma {:induction false} NeverEnds(s: Sys, t: seq<Event>)
    requires SizedSys(s) && Orphaned(s)
    ensures Hangs(s, t)
  {
    hide SharedFrom, FairFrom;
    forall ys: seq<Shared> | AllShared(ys) && NoCtrl(ys) && FairFrom(t, s, ys)
      ensures SharedFrom(s, ys).icb.fsm != Idle
    {
      OrphanForever(s, ys);
    }
  }

  // ---------------------------------------------------------------------------
  // What politeness is good for
  // ---------------------------------------------------------------------------

  /** Only an operation that waits has a transaction. */
  predicate InOrder1(s: Sys, t: seq<Event>) {
    s.icb.fsm != RspBusy ==> !Open1(t)
  }

  /** A port that does not ask is not accepted. */
  lemma NotAsking(s: Sys, t: seq<Event>, x: Shared)
    requires Fitting(s, t) && Sized(x.sys) && DmFair(t, s.arb, SharedIn(s, x))
    requires s.icb.fsm != ReqBusy && !Open1(t)
    ensures !Open1(Longer(t, s, x))
  {
    var n, u := SharedStep(s, x), Longer(t, s, x);
    ArbiterClock(t, s.arb, SharedIn(s, x));
    Sides(s.arb, t);
    Sides(n.arb, u);
    hide Serial, EventRight, Fits, Events, IcbStep, RequestBits;
  }

  lemma PoliteClock(s: Sys, t: seq<Event>, x: Shared)
    requires Fitting(s, t) && Sized(x.sys) && DmFair(t, s.arb, SharedIn(s, x))
    requires InOrder1(s, t) && Polite(s.icb, x.sys.cmd)
    ensures InOrder1(SharedStep(s, x), Longer(t, s, x))
  {
    hide Fits, Serial, SharedIn, SharedStep, Longer, RequestBits, DmFair, Open1, FateOf, Holds, Responsive, Remaining,
      Writes;
    if s.icb.fsm == RspBusy && Open1(t) {
      ServedClock(s, t, x);
      EndOpens(Longer(t, s, x), Opened(t));
    } else if s.icb.fsm == ReqBusy {
      OfferClock(s, t, x);
    } else {
      NotAsking(s, t, x);
    }
  }

  lemma EndOpens(u: seq<Event>, k: nat)
    ensures |u| == k + 4 && k % 4 == 0 ==> !Open1(u)
  {
  }

  /**
    With JTAG in use, a program that leaves CTRL alone during an operation, and the request
    registers alone in the clock after a write to DM Request Others, never gets an older answer.
   */
  lemma {:induction false} PoliteNeverStale(xs: seq<Shared>)
    requires AllShared(xs) && PoliteShared(xs) && FairRun(xs)
    ensures InOrder1(SharedAfter(xs), SharedTrace(xs))
    decreases |xs|
  {
    if xs == [] {
      NothingYet();
    } else {
      var before, x := xs[..|xs| - 1], xs[|xs| - 1];
      LastPolite(xs);
      hide *;
      NextClock(before, x);
      PoliteNeverStale(before);
      StaysInOrder(before, x);
    }
  }

  lemma {:induction false} StaysInOrder(xs: seq<Shared>, x: Shared)
    requires AllShared(xs) && Sized(x.sys) && AllShared(xs + [x]) && FairRun(xs + [x])
    requires InOrder1(SharedAfter(xs), SharedTrace(xs)) && Polite(SharedAfter(xs).icb, x.sys.cmd)
    ensures InOrder1(SharedAfter(xs + [x]), SharedTrace(xs + [x]))
  {
    hide *;
    NextClock(xs, x);
    PoliteClock(SharedAfter(xs), SharedTrace(xs), x);
  }

  lemma LastPolite(xs: seq<Shared>)
    requires AllShared(xs) && PoliteShared(xs) && xs != []
    ensures var before, x := xs[..|xs| - 1], xs[|xs| - 1];
      && before + [x] == xs && Sized(x.sys) && AllShared(before)
      && PoliteShared(before) && Polite(SharedAfter(before).icb, x.sys.cmd)
  {
    assert Sized(xs[|xs| - 1].sys);
  }

  lemma NothingYet()
    ensures InOrder1(SharedAfter([]), SharedTrace([]))
  {
  }
}
