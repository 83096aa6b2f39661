/** The ADC peripheral: four clocked processes that step together. Bit vectors are sequences
    with the most significant bit first. */
module AdcModel {
  import opened Basics

  type Positive = x: int | 0 < x witness 1

  /** The generics. */
  datatype Params = Params(clkDiv: Positive, convHigh: Positive, convWait: Positive, acqHold: Positive)

  type Bits3 = s: seq<bool> | |s| == 3 witness [false, false, false]

  type Bits12 = s: seq<bool> | |s| == 12 witness ZEROS

  type Bits16 = s: seq<bool> | |s| == 16 witness [false, false, false, false] + ZEROS

  const ZEROS := [false, false, false, false, false, false, false, false, false, false, false, false]

  datatype Phase = Idle | ConvHigh | ConvWait | Shift | AcqHold | Done

  /** The registers of each process. */
  datatype BusRegs = BusRegs(channel: Bits3, startReq: bool, clearReq: bool)

  datatype FsmRegs = FsmRegs(phase: Phase, ready: bool, busy: bool, convst: bool,
                             highCnt: int, waitCnt: int, holdCnt: int, bitCnt: int)

  datatype SckRegs = SckRegs(clkCnt: int, sclk: bool)

  datatype SpiRegs = SpiRegs(tx: Bits12, rx: Bits12, data: Bits12, sdi: bool)

  datatype Regs = Regs(bus: BusRegs, fsm: FsmRegs, sck: SckRegs, spi: SpiRegs)

  const RESET := Regs(
    BusRegs([false, false, false], false, false),
    FsmRegs(Idle, false, false, false, 0, 0, 0, 0),
    SckRegs(0, false),
    SpiRegs(ZEROS, ZEROS, ZEROS, false))

  /** What the bus and the converter drive at a rising clock edge. */
  datatype Inputs = Inputs(write: bool, address: nat, data: Bits16, sdo: bool)

  /** A rising clock edge with RESETN high, or RESETN low, which resets at once and as long as
      it lasts. */
  datatype Event = Reset | Clock(inputs: Inputs)

  const CTRL := 0xC0
  const STATUS := 0xC1
  const DATA := 0xC2
  const CHANNEL := 0xC3

  predicate WritesStart(i: Inputs) {
    i.write && i.address == CTRL && i.data[15]
  }

  predicate WritesClear(i: Inputs) {
    i.write && i.address == CTRL && i.data[14]
  }

  /** The bus interface process. */
  function BusNext(s: Regs, i: Inputs): BusRegs {
    BusRegs(
      if i.write && i.address == CHANNEL then i.data[13..] else s.bus.channel,
      WritesStart(i) || (s.bus.startReq && s.fsm.phase != ConvHigh),
      WritesClear(i))
  }

  predicate SclkRises(p: Params, s: Regs) {
    s.fsm.phase == Shift && s.sck.clkCnt == p.clkDiv - 1 && !s.sck.sclk
  }

  predicate SclkFalls(p: Params, s: Regs) {
    s.fsm.phase == Shift && s.sck.clkCnt == p.clkDiv - 1 && s.sck.sclk
  }

  /** The control state machine. */
  function FsmNext(p: Params, s: Regs): FsmRegs {
    var f := s.fsm.(ready := s.fsm.ready && !s.bus.clearReq);
    match f.phase
    case Idle =>
      if s.bus.startReq then f.(busy := true, convst := true, highCnt := p.convHigh - 1, phase := ConvHigh)
      else f.(busy := false, convst := false)
    case ConvHigh =>
      if f.highCnt == 0 then f.(busy := true, convst := false, waitCnt := p.convWait - 1, phase := ConvWait)
      else f.(busy := true, convst := true, highCnt := f.highCnt - 1)
    case ConvWait =>
      if f.waitCnt == 0 then f.(busy := true, convst := false, bitCnt := 0, phase := Shift)
      else f.(busy := true, convst := false, waitCnt := f.waitCnt - 1)
    case Shift =>
      var g := f.(busy := true, convst := false);
      if !SclkRises(p, s) then g
      else if f.bitCnt == 11 then g.(holdCnt := p.acqHold - 1, phase := AcqHold)
      else g.(bitCnt := f.bitCnt + 1)
    case AcqHold =>
      if f.holdCnt == 0 then f.(busy := true, convst := false, ready := true, phase := Done)
      else f.(busy := true, convst := false, holdCnt := f.holdCnt - 1)
    case Done => f.(busy := false, convst := false, phase := Idle)
  }

  /** The serial clock. */
  function SckNext(p: Params, s: Regs): SckRegs {
    if s.fsm.phase != Shift then SckRegs(0, false)
    else if s.sck.clkCnt == p.clkDiv - 1 then SckRegs(0, !s.sck.sclk)
    else s.sck.(clkCnt := s.sck.clkCnt + 1)
  }

  /** The command for a single-ended unipolar conversion of a channel, six bits, and the zeros
      that follow it out of the transmit register. */
  function Command(channel: Bits3): Bits12 {
    [true] + channel + [true, false] + [false, false, false, false, false, false]
  }

  /** The serial data path. */
  function SpiNext(p: Params, s: Regs, sdo: bool): SpiRegs {
    match s.fsm.phase
    case Idle =>
      if s.bus.startReq then
        s.spi.(tx := Command(s.bus.channel), rx := ZEROS, sdi := Command(s.bus.channel)[0])
      else s.spi
    case Shift =>
      if SclkFalls(p, s) then s.spi.(tx := s.spi.tx[1..] + [false], sdi := s.spi.tx[1])
      else if SclkRises(p, s) then s.spi.(rx := s.spi.rx[1..] + [sdo])
      else s.spi
    case AcqHold => s.spi.(data := s.spi.rx)
    case _ => s.spi
  }

  function Step(p: Params, s: Regs, e: Event): Regs {
    match e
    case Reset => RESET
    case Clock(i) => Regs(BusNext(s, i), FsmNext(p, s), SckNext(p, s), SpiNext(p, s, i.sdo))
  }

  /** What the peripheral drives on the bus, or nothing. */
  function ReadBus(s: Regs, read: bool, address: nat): Option<Bits16> {
    if !read then None
    else if address == STATUS then Some([false, false] + ZEROS + [s.fsm.busy, s.fsm.ready])
    else if address == DATA then Some([false, false, false, false] + s.spi.data)
    else if address == CHANNEL then Some([false] + ZEROS + s.bus.channel)
    else None
  }

  // ---------- Runs ----------

  /** The register values before each event, and the events. */
  type History = nat -> Regs

  type Traffic = nat -> Event

  /** Any bus traffic, converter output and resets, from any of the states in between. */
  ghost predicate IsRun(p: Params, run: History, traffic: Traffic) {
    forall n: nat :: run(n + 1) == Step(p, run(n), traffic(n))
  }

  /** A conversion is accepted at clock edge `m`. */
  predicate Accepts(run: History, traffic: Traffic, m: nat) {
    traffic(m).Clock? && run(m).fsm.phase == Idle && run(m).bus.startReq
  }

  /** There is no reset from `m` up to `n`. */
  ghost predicate Undisturbed(traffic: Traffic, m: nat, n: nat) {
    forall k: nat | m <= k < n :: traffic(k).Clock?
  }

  function SdoAt(e: Event): bool {
    e.Clock? && e.inputs.sdo
  }

  // ---------- Time within a conversion ----------

  /** The number of clocks between the edge that accepts a conversion and the `t`-th toggle of
      the serial clock, counted from 0. Even toggles are the rises. */
  function ToggleTime(p: Params, t: nat): nat {
    TimesMonotone(0, t + 1, p.clkDiv);
    p.convHigh + p.convWait + (t + 1) * p.clkDiv
  }

  /** The number of clocks from the edge that accepts a conversion to the edge that sets READY. */
  function Duration(p: Params): nat {
    p.convHigh + p.convWait + 23 * p.clkDiv + p.acqHold
  }

  /** The twelve bits that the converter shows at the twelve rises of the serial clock. */
  function Sampled(p: Params, traffic: Traffic, m: nat): Bits12 {
    seq(12, j requires 0 <= j => SdoAt(traffic(m + ToggleTime(p, 2 * j))))
  }
}
