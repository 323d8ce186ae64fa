/**
  The receiver of the testbench (`verilator/uart_model.sv`): its registers, one clock, and the
  serial line that it should be able to read.
 */
module UartModel {

  datatype Config = Config(baudClks: int, bits: int, stops: int)

  datatype RxState = RxIdle | RxStart | RxData | RxStop | RxRecover

  /** `rx_data` and `rx_data_int` are 32 bits, lowest first. */
  datatype Uart = Uart(
    fsm: RxState, baudCnt: int, bitCnt: int, dataInt: seq<bool>,
    rdy: bool, err: bool, data: seq<bool>)

  function Zeros(n: nat): seq<bool> {
    seq(n, _ => false)
  }

  // ---------------------------------------------------------------------------
  // One clock
  // ---------------------------------------------------------------------------

  predicate BaudHalf(f: Config, r: Uart) {
    r.baudCnt == f.baudClks / 2
  }

  predicate BaudFull(f: Config, r: Uart) {
    r.baudCnt >= f.baudClks
  }

  /** The outputs of the combinational block. */
  datatype Comb = Comb(next: RxState, baudRst: bool, rdy: bool, err: bool)

  function CombOf(f: Config, r: Uart, rxd: bool): Comb {
    match r.fsm
    case RxIdle =>
      if rxd then Comb(RxIdle, true, false, false)
      else Comb(if BaudHalf(f, r) then RxData else RxStart, BaudHalf(f, r), false, false)
    case RxStart =>
      if BaudHalf(f, r) then Comb(RxData, true, false, false)
      else if rxd then Comb(RxRecover, true, true, true)
      else Comb(RxStart, false, false, false)
    case RxData =>
      Comb(if BaudHalf(f, r) && r.bitCnt > f.bits then RxStop else RxData, false, false, false)
    case RxStop =>
      if !rxd then Comb(RxRecover, true, true, true)
      else if BaudFull(f, r) && r.bitCnt >= f.stops then Comb(RxIdle, true, true, false)
      else Comb(RxStop, false, false, false)
    case RxRecover =>
      if !rxd then Comb(RxRecover, true, false, false)
      else if BaudFull(f, r) && r.bitCnt >= f.stops then Comb(RxIdle, true, false, false)
      else Comb(RxRecover, false, false, false)
  }

  /** `int_value[k] <= bit`; an index outside the value has no effect. */
  function SetAt(s: seq<bool>, k: int, bit: bool): seq<bool> {
    if 0 <= k < |s| then s[k := bit] else s
  }

  function Step(f: Config, r: Uart, rxd: bool): Uart {
    var c := CombOf(f, r, rxd);
    Uart(
      c.next,
      if c.baudRst || BaudFull(f, r) then 1 else r.baudCnt + 1,
      if c.baudRst then 1
      else if BaudFull(f, r) then (if c.next == RxStop then 1 else r.bitCnt + 1)
      else r.bitCnt,
      if c.baudRst then Zeros(32)
      else if BaudFull(f, r) && r.fsm == RxData then SetAt(r.dataInt, r.bitCnt - 1, rxd)
      else r.dataInt,
      c.rdy,
      c.err,
      if c.rdy then (if c.err then Zeros(32) else r.dataInt) else r.data)
  }

  // ---------------------------------------------------------------------------
  // A line over many clocks
  // ---------------------------------------------------------------------------

  /** What is shown in a clock with `rx_rdy` high. */
  datatype Report = Good(data: seq<bool>) | Bad

  function ReportOf(r: Uart): seq<Report> {
    if !r.rdy then [] else if r.err then [Bad] else [Good(r.data)]
  }

  /** The registers after the line had these levels, one per clock. */
  function After(f: Config, r: Uart, line: seq<bool>): Uart
    decreases |line|
  {
    if line == [] then r else After(f, Step(f, r, line[0]), line[1..])
  }

  /** Everything reported meanwhile. */
  function Reports(f: Config, r: Uart, line: seq<bool>): seq<Report>
    decreases |line|
  {
    if line == [] then [] else
      ReportOf(Step(f, r, line[0])) + Reports(f, Step(f, r, line[0]), line[1..])
  }

  /** From `r` the line leads to `n`, with these reports. */
  predicate Leads(f: Config, r: Uart, line: seq<bool>, n: Uart, reports: seq<Report>) {
    After(f, r, line) == n && Reports(f, r, line) == reports
  }

  lemma {:induction false} LeadsOn(f: Config, r: Uart, a: seq<bool>, m: Uart, p: seq<Report>, b: seq<bool>, n: Uart,
                                   q: seq<Report>)
    requires Leads(f, r, a, m, p) && Leads(f, m, b, n, q)
    ensures Leads(f, r, a + b, n, p + q)
    decreases |a|
  {
    hide Step;
    if a == [] {
      assert a + b == b && p + q == q;
    } else {
      var s := Step(f, r, a[0]);
      var rest := Reports(f, s, a[1..]);
      LeadsOn(f, s, a[1..], m, rest, b, n, q);
      assert (a + b)[1..] == a[1..] + b;
      assert ReportOf(s) + (rest + q) == p + q;
    }
  }

  /** The line holds one level for `n` clocks. */
  function Hold(level: bool, n: nat): seq<bool> {
    seq(n, _ => level)
  }

  lemma HoldOne(f: Config, r: Uart, level: bool, n: nat, m: Uart, reports: seq<Report>)
    requires n > 0 && Leads(f, Step(f, r, level), Hold(level, n - 1), m, reports)
    ensures Leads(f, r, Hold(level, n), m, ReportOf(Step(f, r, level)) + reports)
  {
    hide Step;
    assert Hold(level, n)[1..] == Hold(level, n - 1);
  }

  // ---------------------------------------------------------------------------
  // The parts of a frame
  // ---------------------------------------------------------------------------

  predicate Usable(f: Config) {
    f.baudClks >= 2 && 0 <= f.bits <= 32
  }

  /** Waiting for a start bit, with all counters at rest. */
  predicate Clean(r: Uart) {
    r.fsm == RxIdle && r.baudCnt == 1 && r.bitCnt == 1 && r.dataInt == Zeros(32)
  }

  /** In the middle of a frame, nothing reported. */
  function At(r: Uart, fsm: RxState, baudCnt: int, bitCnt: int, dataInt: seq<bool>): Uart {
    Uart(fsm, baudCnt, bitCnt, dataInt, false, false, r.data)
  }

  /** The line is high: nothing happens. */
  lemma {:induction false} Rest(f: Config, r: Uart, n: nat)
    requires Clean(r)
    ensures Leads(f, r, Hold(true, n), if n == 0 then r else At(r, RxIdle, 1, 1, Zeros(32)), [])
    decreases n
  {
    if n > 0 {
      var s := At(r, RxIdle, 1, 1, Zeros(32));
      assert Step(f, r, true) == s;
      Rest(f, s, n - 1);
      HoldOne(f, r, true, n, s, []);
    }
  }

  /** The rest of the first half of the start bit. */
  lemma {:induction false} StartHalf(f: Config, r: Uart, x: int, n: nat)
    requires Usable(f) && 1 <= x && x + n - 1 == f.baudClks / 2 && n > 0
    requires r == At(r, RxStart, x, 1, Zeros(32)) || (Clean(r) && x == 1)
    ensures Leads(f, r, Hold(false, n), At(r, RxData, 1, 1, Zeros(32)), [])
    decreases n
  {
    var s := Step(f, r, false);
    if n == 1 {
      assert s == At(r, RxData, 1, 1, Zeros(32));
      assert Leads(f, s, Hold(false, 0), s, []);
    } else {
      assert s == At(r, RxStart, x + 1, 1, Zeros(32));
      StartHalf(f, s, x + 1, n - 1);
    }
    HoldOne(f, r, false, n, At(r, RxData, 1, 1, Zeros(32)), []);
  }

  /** Within a bit period, before the sampling clock. */
  lemma {:induction false} DataHold(f: Config, r: Uart, x: int, k: nat, d: seq<bool>, level: bool, n: nat)
    requires Usable(f) && 1 <= x && x + n <= f.baudClks && r == At(r, RxData, x, k, d)
    requires k <= f.bits || x + n <= f.baudClks / 2 || f.baudClks / 2 < x
    ensures Leads(f, r, Hold(level, n), At(r, RxData, x + n, k, d), [])
    decreases n
  {
    if n > 0 {
      var s := Step(f, r, level);
      assert s == At(r, RxData, x + 1, k, d);
      DataHold(f, s, x + 1, k, d, level, n - 1);
      HoldOne(f, r, level, n, At(r, RxData, x + n, k, d), []);
    }
  }

  /** One bit period, from the middle of a bit to the middle of the next, which is sampled. */
  lemma BitPeriod(f: Config, r: Uart, k: nat, d: seq<bool>, before: bool, bit: bool)
    requires Usable(f) && 1 <= k <= f.bits && r == At(r, RxData, 1, k, d)
    ensures var half := f.baudClks / 2;
      Leads(f, r, Hold(before, f.baudClks - half) + Hold(bit, half), At(r, RxData, 1, k + 1, SetAt(d, k - 1, bit)), [])
  {
    var b, half := f.baudClks, f.baudClks / 2;
    var m := At(r, RxData, 1 + b - half, k, d);
    var l := At(r, RxData, b, k, d);
    var n := At(r, RxData, 1, k + 1, SetAt(d, k - 1, bit));
    DataHold(f, r, 1, k, d, before, b - half);
    DataHold(f, m, 1 + b - half, k, d, bit, half - 1);
    assert Step(f, l, bit) == n;
    LastClock(f, m, bit, half, l, n);
    hide Step, At, Leads;
    LeadsOn(f, r, Hold(before, b - half), m, [], Hold(bit, half), n, []);
  }

  /** A level held one clock longer. */
  lemma LastClock(f: Config, r: Uart, level: bool, n: nat, m: Uart, s: Uart)
    requires n > 0 && Leads(f, r, Hold(level, n - 1), m, []) && s == Step(f, m, level)
    ensures Leads(f, r, Hold(level, n), s, ReportOf(s))
  {
    hide Step;
    assert Leads(f, s, Hold(level, 0), s, []);
    HoldOne(f, m, level, 1, s, []);
    LeadsOn(f, r, Hold(level, n - 1), m, [], Hold(level, 1), s, ReportOf(s) + []);
    assert [] + (ReportOf(s) + []) == ReportOf(s);
    assert Hold(level, n - 1) + Hold(level, 1) == Hold(level, n);
  }

  /** Half a bit after the last sample the receiver waits for the stop bit. */
  lemma LastHalf(f: Config, r: Uart, d: seq<bool>, level: bool)
    requires Usable(f) && r == At(r, RxData, 1, f.bits + 1, d)
    ensures var half := f.baudClks / 2;
      Leads(f, r, Hold(level, half), At(r, RxStop, half + 1, f.bits + 1, d), [])
  {
    var half := f.baudClks / 2;
    var m := At(r, RxData, half, f.bits + 1, d);
    DataHold(f, r, 1, f.bits + 1, d, level, half - 1);
    LastClock(f, r, level, half, m, At(r, RxStop, half + 1, f.bits + 1, d));
  }

  /** The line stays high until the end of the counter's period: the frame is reported. */
  lemma {:induction false} StopHalf(f: Config, r: Uart, x: int, k: int, d: seq<bool>, n: nat)
    requires Usable(f) && 1 <= x && x + n - 1 == f.baudClks && n > 0 && f.stops <= k && r == At(r, RxStop, x, k, d)
    ensures Leads(f, r, Hold(true, n), Uart(RxIdle, 1, 1, Zeros(32), true, false, d), [Good(d)])
    decreases n
  {
    var s := Step(f, r, true);
    var last := Uart(RxIdle, 1, 1, Zeros(32), true, false, d);
    if n == 1 {
      assert s == last && Hold(true, 0) == [];
      assert Leads(f, s, Hold(true, 0), s, []);
      HoldOne(f, r, true, 1, s, []);
    } else {
      assert s == At(r, RxStop, x + 1, k, d);
      StopHalf(f, s, x + 1, k, d, n - 1);
      HoldOne(f, r, true, n, last, [Good(d)]);
    }
  }

  /** With too many stop bits asked for, the bit counter starts again from 1 and never gets there. */
  lemma {:induction false} StopForever(f: Config, r: Uart, n: nat)
    requires Usable(f) && r.fsm == RxStop && 1 <= r.bitCnt <= f.bits + 1 && f.stops > f.bits + 1
    ensures After(f, r, Hold(true, n)).fsm == RxStop && Reports(f, r, Hold(true, n)) == []
    decreases n
  {
    if n > 0 {
      assert Hold(true, n)[1..] == Hold(true, n - 1);
      StopForever(f, Step(f, r, true), n - 1);
    }
  }

  // ---------------------------------------------------------------------------
  // Frames
  // ---------------------------------------------------------------------------

  /** Data bits on the line, `b` clocks each, lowest first. */
  function BitLevels(bits: seq<bool>, b: nat): seq<bool> {
    if bits == [] then [] else BitLevels(bits[..|bits| - 1], b) + Hold(bits[|bits| - 1], b)
  }

  /** A start bit, the data bits, and the line high for `gap` clocks. */
  function Frame(bits: seq<bool>, b: nat, gap: nat): seq<bool> {
    Hold(false, b) + BitLevels(bits, b) + Hold(true, gap)
  }

  /** The level of the last bit before the stop bits. */
  function LastLevel(bits: seq<bool>): bool {
    bits != [] && bits[|bits| - 1]
  }

  /** The value of a frame as the receiver shows it. */
  function Padded(bits: seq<bool>): seq<bool>
    requires |bits| <= 32
  {
    bits + Zeros(32 - |bits|)
  }

  /** The value shows the frame's bits, lowest first, and zeros above them. */
  lemma PaddedIs(bits: seq<bool>, i: nat)
    requires |bits| <= 32 && i < 32
    ensures Padded(bits)[i] <==> i < |bits| && bits[i]
  {
  }

  /** The line from the start bit up to the middle of the last of these bits. */
  function ToMiddle(bits: seq<bool>, b: nat): seq<bool> {
    if bits == [] then Hold(false, b / 2) else
      var before := bits[..|bits| - 1];
      ToMiddle(before, b) + (Hold(LastLevel(before), b - b / 2) + Hold(LastLevel(bits), b / 2))
  }

  lemma {:induction false} MiddleAndRest(bits: seq<bool>, b: nat)
    ensures ToMiddle(bits, b) + Hold(LastLevel(bits), b - b / 2) == Hold(false, b) + BitLevels(bits, b)
  {
    if bits != [] {
      var before := bits[..|bits| - 1];
      MiddleAndRest(before, b);
      var v := LastLevel(bits);
      assert Hold(v, b / 2) + Hold(v, b - b / 2) == Hold(v, b);
      hide Hold;
      var m, a, h, z := ToMiddle(before, b), Hold(LastLevel(before), b - b / 2), Hold(v, b / 2), Hold(v, b - b / 2);
      assert m + (a + h) + z == (m + a) + (h + z);
    }
  }

  lemma NothingSampled(f: Config, r: Uart)
    requires Usable(f) && Clean(r)
    ensures Leads(f, r, ToMiddle([], f.baudClks), At(r, RxData, 1, 1, Padded([])), [])
  {
    StartHalf(f, r, 1, f.baudClks / 2);
    assert Padded([]) == Zeros(32);
  }

  lemma OneMoreBit(bits: seq<bool>)
    requires 0 < |bits| <= 32
    ensures SetAt(Padded(bits[..|bits| - 1]), |bits| - 1, LastLevel(bits)) == Padded(bits)
  {
  }

  lemma AtOnly(r: Uart, fsm: RxState, baudCnt: int, bitCnt: int, d: seq<bool>, fsm': RxState, baudCnt': int,
               bitCnt': int, d': seq<bool>)
    ensures At(At(r, fsm, baudCnt, bitCnt, d), fsm', baudCnt', bitCnt', d') == At(r, fsm', baudCnt', bitCnt', d')
  {
  }

  /** In the middle of the last bit: all bits so far are in the shift register. */
  lemma {:induction false} BitsSampled(f: Config, r: Uart, bits: seq<bool>)
    requires Usable(f) && Clean(r) && |bits| <= f.bits
    ensures Leads(f, r, ToMiddle(bits, f.baudClks), At(r, RxData, 1, |bits| + 1, Padded(bits)), [])
    decreases |bits|
  {
    hide Leads, Step, Hold, At, Padded;
    var b := f.baudClks;
    if bits == [] {
      NothingSampled(f, r);
    } else {
      var before, k, v := bits[..|bits| - 1], |bits| - 1, LastLevel(bits);
      var m := At(r, RxData, 1, k + 1, Padded(before));
      OneMoreBit(bits);
      AtOnly(r, RxData, 1, k + 1, Padded(before), RxData, 1, k + 1, Padded(before));
      AtOnly(r, RxData, 1, k + 1, Padded(before), RxData, 1, k + 2, Padded(bits));
      BitsSampled(f, r, before);
      BitPeriod(f, m, k + 1, Padded(before), LastLevel(before), v);
      LeadsOn(f, r, ToMiddle(before, b), m, [], Hold(LastLevel(before), b - b / 2) + Hold(v, b / 2),
        At(r, RxData, 1, k + 2, Padded(bits)), []);
      var none: seq<Report> := [];
      assert none + none == none;
    }
  }

  /** After the last sample the line is held `n` clocks more and then high. */
  lemma FromLastSample(f: Config, r: Uart, bits: seq<bool>, rest: seq<bool>, n: Uart, reports: seq<Report>)
    requires Usable(f) && Clean(r) && |bits| == f.bits
    requires Leads(f, At(r, RxData, 1, f.bits + 1, Padded(bits)),
                   Hold(LastLevel(bits), f.baudClks - f.baudClks / 2) + rest, n, reports)
    ensures Leads(f, r, Hold(false, f.baudClks) + BitLevels(bits, f.baudClks) + rest, n, reports)
  {
    hide Leads, Step, Hold, BitLevels, ToMiddle;
    var b := f.baudClks;
    var m, h := ToMiddle(bits, b), Hold(LastLevel(bits), b - b / 2);
    BitsSampled(f, r, bits);
    LeadsOn(f, r, m, At(r, RxData, 1, f.bits + 1, Padded(bits)), [], h + rest, n, reports);
    MiddleAndRest(bits, b);
    assert m + (h + rest) == (m + h) + rest;
    assert [] + reports == reports;
  }

  lemma SplitGap(gap: nat, n: nat)
    requires n <= gap
    ensures Hold(true, gap) == Hold(true, n) + Hold(true, gap - n)
  {
  }

  /** The registers once a frame has been reported and the line stayed high for `n` clocks. */
  function Finished(d: seq<bool>, n: nat): Uart {
    Uart(RxIdle, 1, 1, Zeros(32), n == 0, false, d)
  }

  /** From the stop bit on: half a bit of high line is enough. */
  lemma StopReceived(f: Config, r: Uart, x: int, d: seq<bool>, gap: nat)
    requires Usable(f) && f.stops <= f.bits + 1 && r == At(r, RxStop, x, f.bits + 1, d)
    requires 1 <= x <= f.baudClks && gap >= f.baudClks + 1 - x
    ensures Leads(f, r, Hold(true, gap), Finished(d, gap - (f.baudClks + 1 - x)), [Good(d)])
  {
    var n := f.baudClks + 1 - x;
    var last := Finished(d, 0);
    StopHalf(f, r, x, f.bits + 1, d, n);
    Rest(f, last, gap - n);
    SplitGap(gap, n);
    hide Leads, Step, Hold;
    LeadsOn(f, r, Hold(true, n), last, [Good(d)], Hold(true, gap - n), Finished(d, gap - n), []);
  }

  /**
    An even number of clocks per bit: a frame is reported with its value, and the receiver is
    ready for the next start bit as soon as the line was high for half a bit.
   */
  lemma FrameReceived(f: Config, r: Uart, bits: seq<bool>, gap: nat)
    requires Usable(f) && f.baudClks % 2 == 0 && f.stops <= f.bits + 1
    requires Clean(r) && |bits| == f.bits && gap >= f.baudClks / 2
    ensures Leads(f, r, Frame(bits, f.baudClks, gap), Finished(Padded(bits), gap - f.baudClks / 2),
                  [Good(Padded(bits))])
  {
    hide Leads, Step, Hold, BitLevels;
    var half, d, v := f.baudClks / 2, Padded(bits), LastLevel(bits);
    var m := At(r, RxData, 1, f.bits + 1, d);
    var s := At(r, RxStop, half + 1, f.bits + 1, d);
    LastHalf(f, m, d, v);
    StopReceived(f, s, half + 1, d, gap);
    LeadsOn(f, m, Hold(v, half), s, [], Hold(true, gap), Finished(d, gap - half), [Good(d)]);
    assert [] + [Good(d)] == [Good(d)];
    FromLastSample(f, r, bits, Hold(true, gap), Finished(d, gap - half), [Good(d)]);
  }

  /**
    More than `bits + 1` stop bits can never be counted: the frame is not reported, however long
    the line stays high.
   */
  lemma TooManyStops(f: Config, r: Uart, bits: seq<bool>, gap: nat)
    requires Usable(f) && f.baudClks % 2 == 0 && f.stops > f.bits + 1
    requires Clean(r) && |bits| == f.bits
    ensures Reports(f, r, Frame(bits, f.baudClks, gap)) == []
    ensures After(f, r, Frame(bits, f.baudClks, gap)).fsm == RxStop
  {
    var half, d, v := f.baudClks / 2, Padded(bits), LastLevel(bits);
    var m := At(r, RxData, 1, f.bits + 1, d);
    var s := At(r, RxStop, half + 1, f.bits + 1, d);
    LastHalf(f, m, d, v);
    StopForever(f, s, gap);
    hide Step, Hold, BitLevels, After, Reports;
    var n := After(f, s, Hold(true, gap));
    LeadsOn(f, m, Hold(v, half), s, [], Hold(true, gap), n, []);
    FromLastSample(f, r, bits, Hold(true, gap), n, []);
  }

  // ---------------------------------------------------------------------------
  // Odd numbers of clocks per bit, and the exact condition
  // ---------------------------------------------------------------------------

  /** After an error the receiver is silent while the line is high. */
  lemma {:induction false} Silent(f: Config, r: Uart, n: nat)
    requires r.fsm == RxRecover || r.fsm == RxIdle
    ensures Reports(f, r, Hold(true, n)) == []
    decreases n
  {
    if n > 0 {
      assert Hold(true, n)[1..] == Hold(true, n - 1);
      Silent(f, Step(f, r, true), n - 1);
    }
  }

  /** The last data clock is taken for the stop bit already. */
  lemma OddStop(f: Config, r: Uart, d: seq<bool>, level: bool, gap: nat)
    requires Usable(f) && f.baudClks % 2 == 1 && r == At(r, RxData, 1, f.bits + 1, d) && gap >= f.baudClks / 2
    ensures var half := f.baudClks / 2;
      Reports(f, r, Hold(level, half + 1) + Hold(true, gap)) ==
        if !level then [Bad] else if f.stops <= f.bits + 1 then [Good(d)] else []
  {
    var half := f.baudClks / 2;
    var s := At(r, RxStop, half + 1, f.bits + 1, d);
    LastHalf(f, r, d, level);
    var u := Step(f, s, level);
    LastClock(f, r, level, half + 1, s, u);
    if !level {
      assert u.fsm == RxRecover && ReportOf(u) == [Bad];
      Silent(f, u, gap);
    } else {
      assert u == At(r, RxStop, half + 2, f.bits + 1, d);
      if f.stops <= f.bits + 1 {
        StopReceived(f, u, half + 2, d, gap);
      } else {
        StopForever(f, u, gap);
      }
    }
    hide Step, Hold;
    var q := Reports(f, u, Hold(true, gap));
    LeadsOn(f, r, Hold(level, half + 1), u, ReportOf(u), Hold(true, gap), After(f, u, Hold(true, gap)), q);
    assert [] + q == q && [Bad] + [] == [Bad];
  }

  /** A last bit of 1 before the stop bits makes up for the clock that is missing. */
  lemma OddReceived(f: Config, r: Uart, bits: seq<bool>, gap: nat)
    requires Usable(f) && f.baudClks % 2 == 1 && f.stops <= f.bits + 1 && LastLevel(bits)
    requires Clean(r) && |bits| == f.bits && gap >= f.baudClks / 2
    ensures Leads(f, r, Frame(bits, f.baudClks, gap), Finished(Padded(bits), gap - f.baudClks / 2),
                  [Good(Padded(bits))])
  {
    var half, d := f.baudClks / 2, Padded(bits);
    var m := At(r, RxData, 1, f.bits + 1, d);
    var s, u := At(r, RxStop, half + 1, f.bits + 1, d), At(r, RxStop, half + 2, f.bits + 1, d);
    LastHalf(f, m, d, true);
    assert Step(f, s, true) == u;
    LastClock(f, m, true, half + 1, s, u);
    hide Leads, Step, Hold, BitLevels;
    StopReceived(f, u, half + 2, d, gap);
    LeadsOn(f, m, Hold(true, half + 1), u, [], Hold(true, gap), Finished(d, gap - half), [Good(d)]);
    assert [] + [Good(d)] == [Good(d)];
    FromLastSample(f, r, bits, Hold(true, gap), Finished(d, gap - half), [Good(d)]);
  }

  /**
    When exactly a correctly timed frame is reported with its value: the stop bits can be
    counted, and the clocks per bit are even or the last bit before the stop bits is 1.  With an
    odd number and a last 0 it is reported as an error, and otherwise not at all.
   */
  lemma FrameReportedIff(f: Config, r: Uart, bits: seq<bool>, gap: nat)
    requires Usable(f) && Clean(r) && |bits| == f.bits && gap >= f.baudClks / 2
    ensures var reports := Reports(f, r, Frame(bits, f.baudClks, gap));
      && (reports == [Good(Padded(bits))] <==> f.stops <= f.bits + 1 && (f.baudClks % 2 == 0 || LastLevel(bits)))
      && (reports == [Bad] <==> f.baudClks % 2 == 1 && !LastLevel(bits))
      && (reports == [] <==> f.stops > f.bits + 1 && (f.baudClks % 2 == 0 || LastLevel(bits)))
  {
    hide After, Reports, Step, BitLevels, Hold;
    var b, half, d, v := f.baudClks, f.baudClks / 2, Padded(bits), LastLevel(bits);
    if b % 2 == 0 {
      if f.stops <= f.bits + 1 {
        FrameReceived(f, r, bits, gap);
      } else {
        TooManyStops(f, r, bits, gap);
      }
    } else {
      var m := At(r, RxData, 1, f.bits + 1, d);
      OddStop(f, m, d, v, gap);
      var line := Hold(v, half + 1) + Hold(true, gap);
      FromLastSample(f, r, bits, Hold(true, gap), After(f, m, line), Reports(f, m, line));
    }
  }

  // ---------------------------------------------------------------------------
  // Errors, and recovering from them
  // ---------------------------------------------------------------------------

  /** The registers after an error has been reported. */
  function Failed(): Uart {
    Uart(RxRecover, 1, 1, Zeros(32), true, true, Zeros(32))
  }

  /** How long the line has to be high: the stop bits, one at least, for a whole bit period each. */
  function RecoveryTime(f: Config): int {
    (if f.stops < 1 then 1 else f.stops) * f.baudClks
  }

  /** The line is low for `n` clocks of a start bit. */
  lemma {:induction false} StartHold(f: Config, r: Uart, n: nat)
    requires Usable(f) && Clean(r) && 1 <= n && n + 1 <= f.baudClks / 2
    ensures Leads(f, r, Hold(false, n), At(r, RxStart, n + 1, 1, Zeros(32)), [])
    decreases n
  {
    var m := At(r, RxStart, n, 1, Zeros(32));
    if n == 1 {
      assert Hold(false, 0) == [] && Leads(f, r, Hold(false, 0), r, []);
      LastClock(f, r, false, 1, r, At(r, RxStart, 2, 1, Zeros(32)));
    } else {
      StartHold(f, r, n - 1);
      LastClock(f, r, false, n, m, At(r, RxStart, n + 1, 1, Zeros(32)));
    }
  }

  /** A start bit that does not last until its middle is reported as an error. */
  lemma FalseStart(f: Config, r: Uart, n: nat)
    requires Usable(f) && Clean(r) && 1 <= n && n + 1 < f.baudClks / 2
    ensures Leads(f, r, Hold(false, n) + [true], Failed(), [Bad])
  {
    var m := At(r, RxStart, n + 1, 1, Zeros(32));
    StartHold(f, r, n);
    assert Step(f, m, true) == Failed();
    OneClock(f, m, true);
    LeadsOn(f, r, Hold(false, n), m, [], [true], Failed(), [Bad]);
    assert [] + [Bad] == [Bad];
  }

  lemma OneClock(f: Config, r: Uart, level: bool)
    ensures Leads(f, r, [level], Step(f, r, level), ReportOf(Step(f, r, level)))
  {
    hide Step;
    var s := Step(f, r, level);
    assert [level][1..] == [] && After(f, s, []) == s && Reports(f, s, []) == [];
    assert ReportOf(s) + [] == ReportOf(s);
  }

  /** The line is high in the stop state, not long enough or never long enough. */
  lemma {:induction false} StopHold(f: Config, r: Uart, n: nat)
    requires Usable(f) && r.fsm == RxStop && 1 <= r.baudCnt <= f.baudClks && 1 <= r.bitCnt <= f.bits + 1
    requires r.baudCnt + n <= f.baudClks || f.stops > f.bits + 1
    ensures After(f, r, Hold(true, n)).fsm == RxStop && Reports(f, r, Hold(true, n)) == []
    decreases n
  {
    if n > 0 {
      assert Hold(true, n)[1..] == Hold(true, n - 1);
      StopHold(f, Step(f, r, true), n - 1);
    }
  }

  /** A low clock in the stop state is an error. */
  lemma StopBroken(f: Config, r: Uart, n: nat)
    requires Usable(f) && r.fsm == RxStop && 1 <= r.baudCnt <= f.baudClks && 1 <= r.bitCnt <= f.bits + 1
    requires r.baudCnt + n <= f.baudClks || f.stops > f.bits + 1
    ensures Leads(f, r, Hold(true, n) + [false], Failed(), [Bad])
  {
    StopHold(f, r, n);
    var m := After(f, r, Hold(true, n));
    assert Step(f, m, false) == Failed();
    OneClock(f, m, false);
    hide Step;
    LeadsOn(f, r, Hold(true, n), m, [], [false], Failed(), [Bad]);
    assert [] + [Bad] == [Bad];
  }

  /**
    A frame with correctly timed bits whose line goes low again in the first half of the stop bit,
    or at any time if more stop bits are asked for than can be counted, is reported as an error.
   */
  lemma BrokenStop(f: Config, r: Uart, bits: seq<bool>, n: nat)
    requires Usable(f) && Clean(r) && |bits| == f.bits && (f.baudClks % 2 == 0 || LastLevel(bits))
    requires n < f.baudClks / 2 || f.stops > f.bits + 1
    ensures Leads(f, r, Hold(false, f.baudClks) + BitLevels(bits, f.baudClks) + (Hold(true, n) + [false]), Failed(),
                  [Bad])
  {
    var m := At(r, RxData, 1, f.bits + 1, Padded(bits));
    BreaksOff(f, m, Padded(bits), LastLevel(bits), n);
    hide Leads, Step, Hold, BitLevels;
    FromLastSample(f, r, bits, Hold(true, n) + [false], Failed(), [Bad]);
  }

  /** A clock in the middle of the stop bit. */
  lemma StopClock(f: Config, r: Uart)
    requires r.fsm == RxStop && r.baudCnt < f.baudClks
    ensures Step(f, r, true) == r.(baudCnt := r.baudCnt + 1, rdy := false, err := false)
  {
  }

  /** From the last sample on. */
  lemma BreaksOff(f: Config, m: Uart, d: seq<bool>, v: bool, n: nat)
    requires Usable(f) && m == At(m, RxData, 1, f.bits + 1, d) && (f.baudClks % 2 == 0 || v)
    requires n < f.baudClks / 2 || f.stops > f.bits + 1
    ensures Leads(f, m, Hold(v, f.baudClks - f.baudClks / 2) + (Hold(true, n) + [false]), Failed(), [Bad])
  {
    var half := f.baudClks / 2;
    var s := At(m, RxStop, half + 1, f.bits + 1, d);
    hide Leads, Step, Hold;
    LastHalf(f, m, d, v);
    var u := s;
    if f.baudClks % 2 == 1 {
      u := Step(f, s, true);
      StopClock(f, s);
      LastClock(f, m, true, half + 1, s, u);
    }
    StopBroken(f, u, n);
    LeadsOn(f, m, Hold(v, f.baudClks - half), u, [], Hold(true, n) + [false], Failed(), [Bad]);
    assert [] + [Bad] == [Bad];
  }

  /** The error output is never high without the ready output, and never with a value. */
  lemma {:induction false} ErrorMeansReport(f: Config, r: Uart, line: seq<bool>)
    requires !r.err || (r.rdy && forall i :: 0 <= i < |r.data| ==> !r.data[i])
    ensures var n := After(f, r, line);
      !n.err || (n.rdy && forall i :: 0 <= i < |n.data| ==> !n.data[i])
    decreases |line|
  {
    if line != [] {
      ErrorMeansReport(f, Step(f, r, line[0]), line[1..]);
    }
  }

  /** After an error the line has been high for `h` clocks. */
  predicate Recovering(f: Config, r: Uart, h: int) {
    && r.fsm == RxRecover && 1 <= r.baudCnt <= f.baudClks && 1 <= r.bitCnt
    && h == r.baudCnt - 1 + (r.bitCnt - 1) * f.baudClks && h < RecoveryTime(f)
  }

  lemma RecoveringStep(f: Config, r: Uart, h: int, level: bool)
    requires Usable(f) && Recovering(f, r, h)
    ensures var n := Step(f, r, level);
      && ReportOf(n) == []
      && (!level ==> Recovering(f, n, 0))
      && (level && h + 1 < RecoveryTime(f) ==> Recovering(f, n, h + 1))
      && (level && h + 1 == RecoveryTime(f) ==> Clean(n))
  {
    var b, k, want := f.baudClks, r.bitCnt, if f.stops < 1 then 1 else f.stops;
    Periods(b, k, want, r.baudCnt);
  }

  /**
    After `k - 1` periods of `b` clocks and `x - 1` more the time is up exactly with the last clock of period
    `want`.
   */
  lemma Periods(b: int, k: int, want: int, x: int)
    requires b >= 1 && 1 <= x <= b && k >= 1 && want >= 1 && x - 1 + (k - 1) * b < want * b
    ensures k <= want && 0 < want * b && k * b == (k - 1) * b + b
    ensures x + (k - 1) * b == want * b <==> x == b && k == want
    ensures x == b && k < want ==> k * b < want * b
  {
    OneMorePeriod(k, b);
    OneMorePeriod(want, b);
    MorePeriods(0, want - 1, b);
    if want < k {
      MorePeriods(want, k - 1, b);
    } else if k < want {
      MorePeriods(k, want - 1, b);
    }
  }

  lemma OneMorePeriod(k: int, b: int)
    ensures k * b == (k - 1) * b + b
  {
  }

  lemma MorePeriods(k: int, n: int, b: int)
    requires k <= n && b >= 0
    ensures k * b <= n * b
  {
    var d := n - k;
    assert d * b >= 0;
    assert (k + d) * b == k * b + d * b;
  }

  predicate AllHigh(line: seq<bool>, i: nat, j: nat)
    requires i <= j <= |line|
  {
    forall k :: i <= k < j ==> line[k]
  }

  /** The line is never high for `n` clocks on end; before it, it was for `h`. */
  predicate NeverLong(line: seq<bool>, h: int, n: int) {
    && (forall j: nat :: j <= |line| && AllHigh(line, 0, j) ==> h + j < n)
    && (forall i: nat, j: nat :: i <= j <= |line| && AllHigh(line, i, j) ==> j - i < n)
  }

  lemma NeverLongTail(line: seq<bool>, h: int, n: int)
    requires line != [] && NeverLong(line, h, n)
    ensures NeverLong(line[1..], if line[0] then h + 1 else 0, n) && (line[0] ==> h + 1 < n)
  {
    var rest := line[1..];
    assert line[0] ==> AllHigh(line, 0, 1);
    forall j: nat | j <= |rest| && AllHigh(rest, 0, j)
      ensures (if line[0] then h + 1 else 0) + j < n
    {
      assert AllHigh(line, 1, j + 1);
      if line[0] {
        assert AllHigh(line, 0, j + 1);
      }
    }
    forall i: nat, j: nat | i <= j <= |rest| && AllHigh(rest, i, j)
      ensures j - i < n
    {
      assert AllHigh(line, i + 1, j + 1);
    }
  }

  /** As long as the line is never high long enough, the receiver neither reports nor takes a start bit. */
  lemma {:induction false} RecoveryLasts(f: Config, r: Uart, h: int, line: seq<bool>)
    requires Usable(f) && Recovering(f, r, h) && NeverLong(line, h, RecoveryTime(f))
    ensures Reports(f, r, line) == [] && After(f, r, line).fsm == RxRecover
    ensures line != [] && !line[|line| - 1] ==> Recovering(f, After(f, r, line), 0)
    decreases |line|
  {
    if line != [] {
      var n := Step(f, r, line[0]);
      RecoveringStep(f, r, h, line[0]);
      NeverLongTail(line, h, RecoveryTime(f));
      hide Step, NeverLong;
      RecoveryLasts(f, n, if line[0] then h + 1 else 0, line[1..]);
    }
  }

  /** Once it was, the receiver waits for a start bit again. */
  lemma {:induction false} RecoveryEnds(f: Config, r: Uart, h: int, n: nat)
    requires Usable(f) && Recovering(f, r, h) && h + n == RecoveryTime(f)
    ensures Reports(f, r, Hold(true, n)) == [] && Clean(After(f, r, Hold(true, n)))
    decreases n
  {
    if n > 0 {
      assert Hold(true, n)[1..] == Hold(true, n - 1) && Hold(true, n)[0];
      RecoveringStep(f, r, h, true);
      if n > 1 {
        hide Step;
        RecoveryEnds(f, Step(f, r, true), h + 1, n - 1);
      }
    }
  }

  /**
    After an error nothing is reported and no start bit is taken while the line is not high for
    the recovery time; when it has been, the receiver is as new.
   */
  lemma RecoveryIs(f: Config, line: seq<bool>)
    requires Usable(f) && NeverLong(line, 0, RecoveryTime(f))
    ensures Reports(f, Failed(), line) == [] && After(f, Failed(), line).fsm == RxRecover
    ensures line == [] || !line[|line| - 1] ==>
      var all := line + Hold(true, RecoveryTime(f));
      Reports(f, Failed(), all) == [] && Clean(After(f, Failed(), all))
  {
    assert RecoveryTime(f) >= f.baudClks > 0;
    RecoveryLasts(f, Failed(), 0, line);
    if line == [] || !line[|line| - 1] {
      var m, high := After(f, Failed(), line), Hold(true, RecoveryTime(f));
      assert Recovering(f, Failed(), 0);
      RecoveryEnds(f, m, 0, RecoveryTime(f));
      hide Step, Hold, Recovering;
      LeadsOn(f, Failed(), line, m, [], high, After(f, m, high), []);
    }
  }

  // ---------------------------------------------------------------------------
  // Streams of frames
  // ---------------------------------------------------------------------------

  /** A frame to send, and for how many clocks the line is high after it. */
  datatype Sent = Sent(bits: seq<bool>, gap: nat)

  function Line(frames: seq<Sent>, b: nat): seq<bool> {
    if frames == [] then [] else Frame(frames[0].bits, b, frames[0].gap) + Line(frames[1..], b)
  }

  predicate WellSent(f: Config, frames: seq<Sent>) {
    forall k :: 0 <= k < |frames| ==> |frames[k].bits| == f.bits && frames[k].gap >= f.baudClks / 2
  }

  function Values(frames: seq<Sent>): seq<Report>
    requires forall k :: 0 <= k < |frames| ==> |frames[k].bits| <= 32
  {
    seq(|frames|, k requires 0 <= k < |frames| => Good(Padded(frames[k].bits)))
  }

  /** Any stream of frames is reported as exactly its values, without an error, and the receiver is ready again. */
  lemma {:induction false} RoundTrip(f: Config, r: Uart, frames: seq<Sent>)
    requires Usable(f) && f.baudClks % 2 == 0 && f.stops <= f.bits + 1
    requires Clean(r) && WellSent(f, frames)
    ensures Reports(f, r, Line(frames, f.baudClks)) == Values(frames)
    ensures Clean(After(f, r, Line(frames, f.baudClks)))
    decreases |frames|
  {
    if frames != [] {
      var first, rest := frames[0], frames[1..];
      var line := Frame(first.bits, f.baudClks, first.gap);
      FrameReceived(f, r, first.bits, first.gap);
      var s := After(f, r, line);
      RoundTrip(f, s, rest);
      hide After, Reports, Step, Frame;
      LeadsOn(f, r, line, s, Reports(f, r, line),
              Line(rest, f.baudClks), After(f, s, Line(rest, f.baudClks)), Values(rest));
      assert Values(frames) == [Good(Padded(first.bits))] + Values(rest);
    }
  }

  /** The frames' last bits make up for an odd number of clocks. */
  predicate Readable(f: Config, frames: seq<Sent>) {
    f.baudClks % 2 == 0 || forall k :: 0 <= k < |frames| ==> LastLevel(frames[k].bits)
  }

  lemma FrameGood(f: Config, r: Uart, first: Sent)
    requires Usable(f) && f.stops <= f.bits + 1 && Clean(r) && |first.bits| == f.bits && first.gap >= f.baudClks / 2
    requires f.baudClks % 2 == 0 || LastLevel(first.bits)
    ensures Leads(f, r, Frame(first.bits, f.baudClks, first.gap),
                  Finished(Padded(first.bits), first.gap - f.baudClks / 2), [Good(Padded(first.bits))])
  {
    hide *;
    if f.baudClks % 2 == 0 {
      FrameReceived(f, r, first.bits, first.gap);
    } else {
      OddReceived(f, r, first.bits, first.gap);
    }
  }

  /** The same as long as the stop bits can be counted. */
  lemma {:induction false} CountedStreamIff(f: Config, r: Uart, frames: seq<Sent>)
    requires Usable(f) && f.stops <= f.bits + 1 && Clean(r) && WellSent(f, frames)
    ensures Reports(f, r, Line(frames, f.baudClks)) == Values(frames) <==> Readable(f, frames)
    decreases |frames|
  {
    if frames != [] {
      hide Readable, Values;
      var first, rest, b := frames[0], frames[1..], f.baudClks;
      var s := After(f, r, Frame(first.bits, b, first.gap));
      FirstFrame(f, r, frames);
      if b % 2 == 0 || LastLevel(first.bits) {
        CountedStreamIff(f, s, rest);
      }
    }
  }

  /** In the stop state the bit counter is at most `bits + 1`. */
  predicate Bounded(f: Config, r: Uart) {
    && 1 <= r.baudCnt && 1 <= r.bitCnt
    && (r.fsm == RxStop ==> r.bitCnt <= f.bits + 1)
    && (r.fsm == RxData ==> r.bitCnt <= f.bits || (r.bitCnt == f.bits + 1 && r.baudCnt <= f.baudClks / 2))
    && (r.fsm == RxIdle ==> r.baudCnt == 1 && r.bitCnt == 1)
    && (r.fsm == RxStart ==> r.bitCnt == 1 && r.baudCnt <= f.baudClks / 2)
  }

  lemma BoundedStep(f: Config, r: Uart, rxd: bool)
    requires Usable(f) && Bounded(f, r)
    ensures Bounded(f, Step(f, r, rxd))
    ensures f.stops > f.bits + 1 ==> ReportOf(Step(f, r, rxd)) == [] || ReportOf(Step(f, r, rxd)) == [Bad]
  {
  }

  /** With more stop bits than the width plus one, no line whatever makes the receiver report a value. */
  lemma {:induction false} NeverGood(f: Config, r: Uart, line: seq<bool>)
    requires Usable(f) && Bounded(f, r) && f.stops > f.bits + 1
    ensures forall k :: 0 <= k < |Reports(f, r, line)| ==> Reports(f, r, line)[k] == Bad
    decreases |line|
  {
    if line != [] {
      BoundedStep(f, r, line[0]);
      hide Step, ReportOf;
      NeverGood(f, Step(f, r, line[0]), line[1..]);
    }
  }

  /**
    Exactly when a stream of correctly timed frames is reported as it was sent: there are none,
    or the stop bits can be counted, and the clocks per bit are even or the last bit of every
    frame is 1.
   */
  lemma {:induction false} StreamReportedIff(f: Config, r: Uart, frames: seq<Sent>)
    requires Usable(f) && Clean(r) && WellSent(f, frames)
    ensures Reports(f, r, Line(frames, f.baudClks)) == Values(frames) <==>
      frames == [] || (f.stops <= f.bits + 1 && Readable(f, frames))
  {
    if f.stops <= f.bits + 1 {
      CountedStreamIff(f, r, frames);
    } else {
      NeverGood(f, r, Line(frames, f.baudClks));
      if frames != [] {
        assert Values(frames)[0].Good?;
      }
    }
  }

  /** The first frame of a stream: a good report and then the rest, or an error. */
  lemma FirstFrame(f: Config, r: Uart, frames: seq<Sent>)
    requires Usable(f) && f.stops <= f.bits + 1 && Clean(r) && WellSent(f, frames) && frames != []
    ensures var first, rest, b := frames[0], frames[1..], f.baudClks;
      var s := After(f, r, Frame(first.bits, b, first.gap));
      var fits := b % 2 == 0 || LastLevel(first.bits);
      && (fits ==> Clean(s))
      && (Readable(f, frames) <==> fits && Readable(f, rest))
      && (Reports(f, r, Line(frames, b)) == Values(frames) <==> fits && Reports(f, s, Line(rest, b)) == Values(rest))
  {
    var first, rest, b := frames[0], frames[1..], f.baudClks;
    var line := Frame(first.bits, b, first.gap);
    var s := After(f, r, line);
    var more, good := Reports(f, s, Line(rest, b)), Good(Padded(first.bits));
    assert Values(frames) == [good] + Values(rest);
    assert Readable(f, frames) <==> (b % 2 == 0 || LastLevel(first.bits)) && Readable(f, rest);
    hide Step, Frame, After, Reports, Values, Readable;
    LeadsOn(f, r, line, s, Reports(f, r, line), Line(rest, b), After(f, s, Line(rest, b)), more);
    SameTail(good, more, Values(rest));
    FrameReportedIff(f, r, first.bits, first.gap);
    if b % 2 == 0 || LastLevel(first.bits) {
      FrameGood(f, r, first);
    } else {
      assert ([Bad] + more)[0] == Bad && ([good] + Values(rest))[0] == good;
    }
  }

  lemma SameTail(x: Report, a: seq<Report>, b: seq<Report>)
    ensures [x] + a == [x] + b <==> a == b
  {
    assert ([x] + a)[1..] == a && ([x] + b)[1..] == b;
  }

  // ---------------------------------------------------------------------------
  // The registers themselves
  // ---------------------------------------------------------------------------

  /** The clocked blocks of the module.  All of them read the values from before the edge. */
  class Receiver {
    const config: Config
    var fsm: RxState
    var baudCnt: int
    var bitCnt: int
    var dataInt: seq<bool>
    var rdy: bool
    var err: bool
    var data: seq<bool>
    ghost var reports: seq<Report>

    function State(): Uart
      reads this
    {
      Uart(fsm, baudCnt, bitCnt, dataInt, rdy, err, data)
    }

    /** After reset and one clock with the line high, which sets the counters. */
    constructor (f: Config)
      ensures config == f && Clean(State()) && reports == []
    {
      config := f;
      fsm, baudCnt, bitCnt, dataInt := RxIdle, 1, 1, Zeros(32);
      rdy, err, data, reports := false, false, Zeros(32), [];
    }

    predicate OutputsAre(n: Uart)
      reads `fsm, `rdy, `err, `data
    {
      fsm == n.fsm && rdy == n.rdy && err == n.err && data == n.data
    }

    predicate CountersAre(n: Uart)
      reads `baudCnt, `bitCnt, `dataInt
    {
      baudCnt == n.baudCnt && bitCnt == n.bitCnt && dataInt == n.dataInt
    }

    lemma TakenTogether(n: Uart)
      ensures State() == n <==> OutputsAre(n) && CountersAre(n)
    {
    }

    method PosEdge(rxd: bool)
      modifies this
      ensures State() == Step(config, old(State()), rxd)
      ensures reports == old(reports) + ReportOf(State())
    {
      hide CombOf, Step, OutputsAre, CountersAre;
      ghost var r := State();
      TakenTogether(r);
      var c := CombOf(config, State(), rxd);
      var full, data0, fsm0 := baudCnt >= config.baudClks, dataInt, fsm;
      Count(c, full, fsm0, rxd, r);
      Show(c, data0, rxd, r);
      TakenTogether(Step(config, r, rxd));
      reports := reports + ReportOf(State());
    }

    /** The baud counter, p_bit_cnt and p_rx_data_int. */
    method Count(c: Comb, full: bool, fsm0: RxState, rxd: bool, ghost r: Uart)
      requires CountersAre(r) && c == CombOf(config, r, rxd) && full == BaudFull(config, r) && fsm0 == r.fsm
      modifies `baudCnt, `bitCnt, `dataInt
      ensures CountersAre(Step(config, r, rxd))
    {
      hide CombOf;
      if c.baudRst {
        dataInt := Zeros(32);
      } else if full && fsm0 == RxData {
        dataInt := SetAt(dataInt, bitCnt - 1, rxd);
      }
      if c.baudRst {
        bitCnt := 1;
      } else if full {
        bitCnt := if c.next == RxStop then 1 else bitCnt + 1;
      }
      baudCnt := if c.baudRst || full then 1 else baudCnt + 1;
    }

    /** The state register, `rx_rdy`, `rx_err` and p_rx_data. */
    method Show(c: Comb, data0: seq<bool>, rxd: bool, ghost r: Uart)
      requires OutputsAre(r) && c == CombOf(config, r, rxd) && data0 == r.dataInt
      modifies `fsm, `rdy, `err, `data
      ensures OutputsAre(Step(config, r, rxd))
    {
      hide CombOf;
      if c.rdy {
        data := if c.err then Zeros(32) else data0;
      }
      fsm, rdy, err := c.next, c.rdy, c.err;
    }

    /** The receiver over a whole line. */
    method Receive(line: seq<bool>)
      modifies this
      ensures State() == After(config, old(State()), line)
      ensures reports == old(reports) + Reports(config, old(State()), line)
    {
      hide Step, After, Reports, ReportOf;
      ghost var start, told := State(), reports;
      var i := 0;
      NoLine(config, start);
      assert line[..0] == [] && told + [] == told;
      while i < |line|
        invariant 0 <= i <= |line|
        invariant State() == After(config, start, line[..i])
        invariant reports == told + Reports(config, start, line[..i])
      {
        OneMoreLevel(config, start, line[..i], line[i]);
        assert line[..i] + [line[i]] == line[..i + 1];
        PosEdge(line[i]);
        i := i + 1;
      }
      assert line[..i] == line;
    }
  }

  lemma NoLine(f: Config, r: Uart)
    ensures After(f, r, []) == r && Reports(f, r, []) == []
  {
  }

  lemma OneMoreLevel(f: Config, r: Uart, line: seq<bool>, level: bool)
    ensures var s := After(f, r, line);
      && After(f, r, line + [level]) == Step(f, s, level)
      && Reports(f, r, line + [level]) == Reports(f, r, line) + ReportOf(Step(f, s, level))
  {
    hide Step, After, Reports, ReportOf;
    var s := After(f, r, line);
    OneLevel(f, s, level);
    LeadsOn(f, r, line, s, Reports(f, r, line), [level], Step(f, s, level), ReportOf(Step(f, s, level)));
  }

  lemma OneLevel(f: Config, r: Uart, level: bool)
    ensures Leads(f, r, [level], Step(f, r, level), ReportOf(Step(f, r, level)))
  {
    assert [level][1..] == [];
    assert ReportOf(Step(f, r, level)) + [] == ReportOf(Step(f, r, level));
  }

  /** A fresh receiver reports any stream of correctly timed frames as it was sent. */
  method ReceiveFrames(f: Config, frames: seq<Sent>) returns (u: Receiver)
    requires Usable(f) && f.baudClks % 2 == 0 && f.stops <= f.bits + 1 && WellSent(f, frames)
    ensures fresh(u) && u.reports == Values(frames) && Clean(u.State())
  {
    u := new Receiver(f);
    ghost var r := u.State();
    u.Receive(Line(frames, f.baudClks));
    RoundTrip(f, r, frames);
  }
}
