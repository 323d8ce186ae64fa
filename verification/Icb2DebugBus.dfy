/**
  The debug transport module that a program reaches over the system bus
  (`rtl/icb2debug_bus.sv`): its debug-bus half.  The interrupt mask registers are not modelled.
 */
module Icb2DebugBus {
  import opened DmiArbiter

  const DEBUG_OP_BITS: nat := 2
  const DBUS_OTHERS_LEN: nat := 11

  const ADDR_REQ_DWORD: nat := 0
  const ADDR_REQ_OTHERS: nat := 4
  const ADDR_RSP_DWORD: nat := 8
  const ADDR_RSP_OTHERS: nat := 12
  const ADDR_CTRL: nat := 16
  const ADDR_STAT: nat := 20

  /** The command channel of the system bus at one rising edge. */
  datatype Command = Command(valid: bool, addr: nat, read: bool, wdata: Bits, rspReady: bool)

  /** What the module sees on its debug-bus side. */
  datatype DebugBus = DebugBus(reqReady: bool, respValid: bool, respBits: Bits)

  datatype Fsm = Idle | ReqBusy | RspBusy

  datatype Icb = Icb(
    reqDword: Bits, reqOthers: Bits,   // DM Request registers
    rspDword: Bits, rspOthers: Bits,   // DM Response registers
    weOthersD: bool, opStart: bool,    // start strobe and the delayed write enable
    sticky: bool,                      // dbus_rsp_stat_sticky
    reqOp: Bits, fsm: Fsm)

  predicate Widths(g: Icb) {
    && |g.reqDword| == |g.rspDword| == 32 && |g.reqOthers| == |g.rspOthers| == DBUS_OTHERS_LEN
    && |g.reqOp| == DEBUG_OP_BITS
  }

  predicate BusWidths(c: Command, d: DebugBus) {
    |c.wdata| == 32 && |d.respBits| == DBUS_RSP_BITS
  }

  /** The values that `rst_n` forces. */
  function IcbReset(): Icb {
    Icb(Zeros(32), Zeros(DBUS_OTHERS_LEN), Zeros(32), Zeros(DBUS_OTHERS_LEN), false, false, false, Zeros(2), Idle)
  }

  // ---------------------------------------------------------------------------
  // The combinational signals
  // ---------------------------------------------------------------------------

  /** A write to this register goes through: `icb_cmd_ready` is `icb_rsp_ready`. */
  predicate Writes(c: Command, addr: nat) {
    c.addr == addr && c.valid && c.rspReady && !c.read
  }

  /** `dbus_op_done` */
  predicate OpDone(g: Icb, d: DebugBus) {
    match g.fsm
    case Idle => false
    case ReqBusy => d.reqReady && d.respValid
    case RspBusy => d.respValid
  }

  function NextFsm(g: Icb, d: DebugBus): Fsm {
    match g.fsm
    case Idle => if g.opStart then ReqBusy else Idle
    case ReqBusy => if d.reqReady then (if d.respValid then Idle else RspBusy) else ReqBusy
    case RspBusy => if d.respValid then Idle else RspBusy
  }

  /** Operation and address fields of DM Request Others.  The address is bits 10 to 4. */
  function OpField(others: Bits): Bits
    requires |others| == DBUS_OTHERS_LEN
  {
    others[2..4]
  }

  function AddressField(others: Bits): Bits
    requires |others| == DBUS_OTHERS_LEN
  {
    others[4..]
  }

  /** A debug-bus request: data, operation and address, lowest bit first. */
  function Request(dword: Bits, op: Bits, address: Bits): Bits {
    dword + op + address
  }

  /** `dtm_req_bits` */
  function RequestBits(g: Icb): Bits
    requires Widths(g)
  {
    Request(g.reqDword, g.reqOp, AddressField(g.reqOthers))
  }

  /** `icb_rsp_rdata` for a read; `irq` is the debug interrupt line. */
  function ReadData(g: Icb, c: Command, irq: bool): Bits
    requires Widths(g)
  {
    if !(c.valid && c.read) then Zeros(32)
    else if c.addr == ADDR_REQ_DWORD then g.reqDword
    else if c.addr == ADDR_REQ_OTHERS then g.reqOthers + Zeros(21)
    else if c.addr == ADDR_RSP_DWORD then g.rspDword
    else if c.addr == ADDR_RSP_OTHERS then g.rspOthers + Zeros(21)
    else if c.addr == ADDR_STAT then [irq] + Zeros(30) + [g.fsm != Idle]
    else Zeros(32)
  }

  // ---------------------------------------------------------------------------
  // One clock
  // ---------------------------------------------------------------------------

  function IcbStep(g: Icb, c: Command, d: DebugBus): (n: Icb)
    requires Widths(g) && BusWidths(c, d)
    ensures Widths(n)
  {
    Icb(
      if Writes(c, ADDR_REQ_DWORD) && g.fsm == Idle then c.wdata else g.reqDword,
      if Writes(c, ADDR_REQ_OTHERS) && g.fsm == Idle then c.wdata[..DBUS_OTHERS_LEN] else g.reqOthers,
      if OpDone(g, d) then d.respBits[DEBUG_OP_BITS..] else g.rspDword,
      if OpDone(g, d) then [false, false, d.respBits[0], g.sticky] + AddressField(g.reqOthers) else g.rspOthers,
      Writes(c, ADDR_REQ_OTHERS),
      Writes(c, ADDR_REQ_OTHERS) && !g.weOthersD,
      if Writes(c, ADDR_CTRL) then false
      else if (Writes(c, ADDR_REQ_DWORD) || Writes(c, ADDR_REQ_OTHERS)) && g.fsm != Idle then true
      else g.sticky,
      if Writes(c, ADDR_CTRL) then Zeros(2) else if g.opStart && g.fsm == Idle then OpField(g.reqOthers) else g.reqOp,
      if Writes(c, ADDR_CTRL) then Idle else NextFsm(g, d))
  }

  // ---------------------------------------------------------------------------
  // The registers themselves
  // ---------------------------------------------------------------------------

  /** The clocked blocks of the module.  All of them read the values from before the edge. */
  class DebugBusMaster {
    var reqDword: Bits
    var reqOthers: Bits
    var rspDword: Bits
    var rspOthers: Bits
    var weOthersD: bool
    var opStart: bool
    var sticky: bool
    var reqOp: Bits
    var fsm: Fsm

    function State(): Icb
      reads this
    {
      Icb(reqDword, reqOthers, rspDword, rspOthers, weOthersD, opStart, sticky, reqOp, fsm)
    }

    constructor ()
      ensures State() == IcbReset()
    {
      reqDword, reqOthers := Zeros(32), Zeros(DBUS_OTHERS_LEN);
      rspDword, rspOthers := Zeros(32), Zeros(DBUS_OTHERS_LEN);
      weOthersD, opStart, sticky, reqOp, fsm := false, false, false, Zeros(2), Idle;
    }

    predicate RequestRegsAre(n: Icb)
      reads `reqDword, `reqOthers, `reqOp
    {
      reqDword == n.reqDword && reqOthers == n.reqOthers && reqOp == n.reqOp
    }

    predicate ResponseRegsAre(n: Icb)
      reads `rspDword, `rspOthers
    {
      rspDword == n.rspDword && rspOthers == n.rspOthers
    }

    predicate ControlRegsAre(n: Icb)
      reads `weOthersD, `opStart, `sticky, `fsm
    {
      weOthersD == n.weOthersD && opStart == n.opStart && sticky == n.sticky && fsm == n.fsm
    }

    lemma TakenTogether(n: Icb)
      ensures State() == n <==> RequestRegsAre(n) && ResponseRegsAre(n) && ControlRegsAre(n)
    {
    }

    /** One rising edge. */
    method PosEdge(c: Command, d: DebugBus)
      requires Widths(State()) && BusWidths(c, d)
      modifies this
      ensures State() == IcbStep(old(State()), c, d)
    {
      hide IcbStep, RequestRegsAre, ResponseRegsAre, ControlRegsAre;
      ghost var g := State();
      TakenTogether(g);
      LatchResponse(c, d, g);
      LatchRequest(c, d, g);
      LatchControl(c, d, g);
      TakenTogether(IcbStep(g, c, d));
    }

    /** p_resp_regs */
    method LatchResponse(c: Command, d: DebugBus, ghost g: Icb)
      requires Widths(g) && BusWidths(c, d) && RequestRegsAre(g) && ResponseRegsAre(g) && ControlRegsAre(g)
      modifies `rspDword, `rspOthers
      ensures ResponseRegsAre(IcbStep(g, c, d))
    {
      if (fsm == ReqBusy && d.reqReady && d.respValid) || (fsm == RspBusy && d.respValid) {
        rspDword := d.respBits[DEBUG_OP_BITS..];
        rspOthers := [false, false, d.respBits[0], sticky] + reqOthers[4..];
      }
    }

    /** p_dbus_req_op and p_req_regs */
    method LatchRequest(c: Command, d: DebugBus, ghost g: Icb)
      requires Widths(g) && BusWidths(c, d) && RequestRegsAre(g) && ControlRegsAre(g)
      modifies `reqDword, `reqOthers, `reqOp
      ensures RequestRegsAre(IcbStep(g, c, d))
    {
      var write := c.valid && c.rspReady && !c.read;
      if write && c.addr == ADDR_CTRL {
        reqOp := Zeros(2);
      } else if opStart && fsm == Idle {
        reqOp := reqOthers[2..4];
      }
      if write && fsm == Idle {
        if c.addr == ADDR_REQ_OTHERS {
          reqOthers := c.wdata[..DBUS_OTHERS_LEN];
        }
        if c.addr == ADDR_REQ_DWORD {
          reqDword := c.wdata;
        }
      }
    }

    /** p_dbus_op_start, p_dbus_stat_sticky and p_dbus_fsm_act */
    method LatchControl(c: Command, d: DebugBus, ghost g: Icb)
      requires Widths(g) && BusWidths(c, d) && ControlRegsAre(g)
      modifies `weOthersD, `opStart, `sticky, `fsm
      ensures ControlRegsAre(IcbStep(g, c, d))
    {
      var write := c.valid && c.rspReady && !c.read;
      var weOthers := write && c.addr == ADDR_REQ_OTHERS;
      if write && c.addr == ADDR_CTRL {
        sticky, fsm := false, Idle;
      } else {
        if (weOthers || (write && c.addr == ADDR_REQ_DWORD)) && fsm != Idle {
          sticky := true;
        }
        fsm := if fsm == Idle then (if opStart then ReqBusy else Idle)
               else if fsm == ReqBusy && !d.reqReady then ReqBusy
               else if d.respValid then Idle
               else RspBusy;
      }
      weOthersD, opStart := weOthers, weOthers && !weOthersD;
    }
  }
}
