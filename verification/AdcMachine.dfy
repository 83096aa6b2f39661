/** The ADC peripheral as its four clocked processes. A process assigns to its registers in the
    order of its statements, a later assignment replacing an earlier one, and all processes see
    the values from before the edge. */
module AdcMachine {
  import opened Basics
  import opened AdcModel
  import opened AdcTheorems

  class Peripheral {
    const p: Params
    var bus: BusRegs
    var fsm: FsmRegs
    var sck: SckRegs
    var spi: SpiRegs

    function State(): Regs
      reads this
    {
      Regs(bus, fsm, sck, spi)
    }

    constructor (p: Params)
      ensures this.p == p && State() == RESET
    {
      this.p := p;
      bus, fsm, sck, spi := RESET.bus, RESET.fsm, RESET.sck, RESET.spi;
    }

    /** RESETN goes low. */
    method AsyncReset()
      modifies this
      ensures State() == RESET
    {
      bus, fsm, sck, spi := RESET.bus, RESET.fsm, RESET.sck, RESET.spi;
    }

    method BusProcess(i: Inputs) returns (next: BusRegs)
      ensures next == BusNext(State(), i)
    {
      next := bus.(clearReq := false);
      if fsm.phase == ConvHigh {
        next := next.(startReq := false);
      }
      if i.write && i.address == CTRL {
        if i.data[15] {
          next := next.(startReq := true);
        }
        if i.data[14] {
          next := next.(clearReq := true);
        }
      }
      if i.write && i.address == CHANNEL {
        next := next.(channel := i.data[13..]);
      }
    }

    method ControlProcess() returns (next: FsmRegs)
      ensures next == FsmNext(p, State())
    {
      next := fsm;
      if bus.clearReq {
        next := next.(ready := false);
      }
      match fsm.phase {
        case Idle =>
          next := next.(busy := false, convst := false);
          if bus.startReq {
            next := next.(busy := true, convst := true, highCnt := p.convHigh - 1, phase := ConvHigh);
          }
        case ConvHigh =>
          next := next.(busy := true, convst := true);
          if fsm.highCnt == 0 {
            next := next.(convst := false, waitCnt := p.convWait - 1, phase := ConvWait);
          } else {
            next := next.(highCnt := fsm.highCnt - 1);
          }
        case ConvWait =>
          next := next.(busy := true, convst := false);
          if fsm.waitCnt == 0 {
            next := next.(bitCnt := 0, phase := Shift);
          } else {
            next := next.(waitCnt := fsm.waitCnt - 1);
          }
        case Shift =>
          next := next.(busy := true, convst := false);
          if SclkRises(p, State()) {
            if fsm.bitCnt == 11 {
              next := next.(holdCnt := p.acqHold - 1, phase := AcqHold);
            } else {
              next := next.(bitCnt := fsm.bitCnt + 1);
            }
          }
        case AcqHold =>
          next := next.(busy := true, convst := false);
          if fsm.holdCnt == 0 {
            next := next.(ready := true, phase := Done);
          } else {
            next := next.(holdCnt := fsm.holdCnt - 1);
          }
        case Done =>
          next := next.(busy := false, convst := false, phase := Idle);
      }
    }

    method SerialClockProcess() returns (next: SckRegs)
      ensures next == SckNext(p, State())
    {
      next := sck;
      if fsm.phase == Shift {
        if sck.clkCnt == p.clkDiv - 1 {
          next := SckRegs(0, !sck.sclk);
        } else {
          next := next.(clkCnt := sck.clkCnt + 1);
        }
      } else {
        next := SckRegs(0, false);
      }
    }

    method DataPathProcess(sdo: bool) returns (next: SpiRegs)
      ensures next == SpiNext(p, State(), sdo)
    {
      next := spi;
      match fsm.phase {
        case Idle =>
          if bus.startReq {
            next := next.(tx := Command(bus.channel), rx := ZEROS, sdi := Command(bus.channel)[0]);
          }
        case Shift =>
          if SclkFalls(p, State()) {
            next := next.(tx := spi.tx[1..] + [false], sdi := spi.tx[1]);
          }
          if SclkRises(p, State()) {
            next := next.(rx := spi.rx[1..] + [sdo]);
          }
        case AcqHold =>
          next := next.(data := spi.rx);
        case _ =>
      }
    }

    method RisingEdge(i: Inputs)
      modifies this
      ensures State() == Step(p, old(State()), Clock(i))
    {
      var nextBus := BusProcess(i);
      var nextFsm := ControlProcess();
      var nextSck := SerialClockProcess();
      var nextSpi := DataPathProcess(i.sdo);
      bus, fsm, sck, spi := nextBus, nextFsm, nextSck, nextSpi;
    }
  }

  function TrafficOf(events: seq<Event>): Traffic {
    (n: nat) => if n < |events| then events[n] else Reset
  }

  /** The peripheral, driven by any events, goes through the states of the run. */
  method Run(p: Params, events: seq<Event>) returns (final: Regs)
    ensures final == StateAt(p, TrafficOf(events), |events|)
  {
    var peripheral := new Peripheral(p);
    for n := 0 to |events|
      invariant fresh(peripheral) && peripheral.p == p
      invariant peripheral.State() == StateAt(p, TrafficOf(events), n)
    {
      match events[n] {
        case Reset => peripheral.AsyncReset();
        case Clock(i) => peripheral.RisingEdge(i);
      }
    }
    final := peripheral.State();
  }
}
