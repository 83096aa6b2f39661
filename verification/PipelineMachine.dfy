/** The clocked part of the pipelined core with its registers as fields: one edge reads every
    wire from the values before the edge and then updates all registers. */
module PipelineMachine {
  import opened Basics
  import opened RiscvIsa
  import opened Pipeline
  import opened PipelineProof
  import opened PipelineTheorems
  import Seq = DecodeCore

  class Core {
    var pc: Word
    var fetchValid: bool
    var fetched: Word
    var ifId: IfId
    var idEx: IdEx
    var exMem: ResultBuf
    var memWb: ResultBuf
    const registers: array<Word>

    ghost predicate Valid() {
      registers.Length == 32
    }

    ghost function State(): Pipe
      requires Valid()
      reads this, registers
    {
      Pipe(pc, fetchValid, fetched, ifId, idEx, exMem, memWb, registers[..])
    }

    /** The registers power up with arbitrary contents; these are the ones given. */
    constructor (p: Pipe)
      ensures Valid() && State() == p && fresh(registers)
    {
      pc, fetchValid, fetched := p.pc, p.fetchValid, p.fetched;
      ifId, idEx, exMem, memWb := p.ifId, p.idEx, p.exMem, p.memWb;
      registers := new Word[32](i requires 0 <= i < 32 => p.regs[i]);
    }

    /** The 32 flip-flops of the register file: number 0 is never enabled. */
    method RegisterFileEdge(reset: bool, enable: bool, rd: Reg, data: Word)
      requires Valid()
      modifies registers
      ensures registers[..] == if reset then ZeroRegs() else WriteReg(old(registers[..]), enable, rd, data)
    {
      for x := 0 to 32
        invariant forall i | 0 <= i < x ::
          registers[i] == if reset then 0 else if enable && i == rd && i != 0 then data else old(registers[i])
        invariant forall i | x <= i < 32 :: registers[i] == old(registers[i])
      {
        if reset {
          registers[x] := 0;
        } else if x != 0 && enable && x == rd {
          registers[x] := data;
        }
      }
    }

    // ---------- The combinational controllers ----------

    method StallControl(reset: bool) returns (stall: bool)
      requires Valid()
      ensures stall == Stall(State(), reset)
    {
      stall := false;
      if !reset && ifId.valid {
        var w := ifId.instr;
        var usesRs1, usesRs2 := false, false;
        if Opcode(w) == OPCODE_OP {
          usesRs1, usesRs2 := true, true;
        } else if Opcode(w) == OPCODE_OPIMM || Opcode(w) == OPCODE_LOAD {
          usesRs1 := true;
        }
        var rs1, rs2 := Some(Rs1(w)), Some(Rs2(w));
        if idEx.opcode == Some(OPCODE_LOAD) && idEx.rd != None && idEx.rd != Some(0) {
          if (usesRs1 && idEx.rd == rs1) || (usesRs2 && idEx.rd == rs2) {
            stall := true;
          }
        }
        var writes, _ := WriteBackMux();
        if writes && memWb.rd != Some(0) && memWb.rd != None {
          if usesRs1 && memWb.rd == rs1 && rs1 != idEx.rd && rs1 != exMem.rd {
            stall := true;
          }
          if usesRs2 && memWb.rd == rs2 && rs2 != idEx.rd && rs2 != exMem.rd {
            stall := true;
          }
        }
      }
    }

    method ForwardControl() returns (a: Forward, b: Forward)
      requires Valid()
      ensures a == ForwardA(State()) && b == ForwardB(State())
    {
      a, b := OriginalSelect, OriginalSelect;
      var exWrites, memWrites := exMem.wb != NoWriteback, memWb.wb != NoWriteback;
      if idEx.opcode == Some(OPCODE_OP) || idEx.opcode == Some(OPCODE_OPIMM) {
        if exWrites && exMem.rd != Some(0) && exMem.rd == idEx.rs1 {
          a := ExResultSelect;
        } else if memWrites && memWb.rd != Some(0) && memWb.rd == idEx.rs1 {
          a := MemResultSelect;
        }
      }
      if idEx.opcode == Some(OPCODE_OP) {
        if exWrites && exMem.rd != Some(0) && exMem.rd == idEx.rs2 {
          b := ExResultSelect;
        } else if memWrites && memWb.rd != Some(0) && memWb.rd == idEx.rs2 {
          b := MemResultSelect;
        }
      }
    }

    method WriteBackMux() returns (valid: bool, data: Word)
      requires Valid()
      ensures valid == WbValid(memWb) && data == WbData(memWb)
    {
      match memWb.wb {
        case ReadAluResult => valid, data := memWb.aluValid, memWb.alu;
        case ReadPc4 => valid, data := true, Wrap(memWb.pc + 4);
        case NoWriteback => valid, data := false, 0;
      }
    }

    /** The operand muxes and the ALU of the execute stage. */
    method Execute() returns (result: Word, valid: bool)
      requires Valid()
      ensures result == ExResult(State()) && valid == AluValid(idEx.alu)
    {
      var selectA, selectB := ForwardControl();
      var _, forwarded := WriteBackMux();
      var a, b := idEx.a, idEx.b;
      match selectA {
        case OriginalSelect =>
        case ExResultSelect => a := exMem.alu;
        case MemResultSelect => a := forwarded;
      }
      match selectB {
        case OriginalSelect =>
        case ExResultSelect => b := exMem.alu;
        case MemResultSelect => b := forwarded;
      }
      match idEx.alu {
        case AluAdd => result, valid := Wrap(a + b), true;
        case AluSub => result, valid := Wrap(a - b), true;
        case AluSlts => result, valid := if Signed(a) < Signed(b) then 1 else 0, true;
        case AluNop => result, valid := 0, false;
      }
    }

    method FlushControl(reset: bool, aluValid: bool) returns (flush: bool)
      requires Valid() && aluValid == AluValid(idEx.alu)
      ensures flush == Flush(State(), reset)
    {
      flush := false;
      if !reset {
        if idEx.pcMux == AluTarget && aluValid {
          flush := true;
        }
      }
    }

    method SelectNextPc(reset: bool, flush: bool, stall: bool, result: Word, valid: bool) returns (next: Word)
      requires Valid()
      ensures (flush, stall) == (Flush(State(), reset), Stall(State(), reset))
           && (result, valid) == (ExResult(State()), AluValid(idEx.alu))
        ==> next == NextPcOf(State(), reset)
    {
      if reset {
        next := 0;
      } else if flush && idEx.pcMux == AluTarget {
        next := if valid then result else pc;
      } else if stall {
        next := pc;
      } else {
        match idEx.pcMux {
          case NextPc => next := Wrap(pc + 4);
          case AluTarget => next := if valid then result else pc;
          case NopPcMux => next := Wrap(pc + 4);
        }
      }
    }

    // ---------- The clocked buffers ----------

    method FetchBuffer(reset: bool, flush: bool, stall: bool) returns (next: IfId)
      requires Valid() && flush == Flush(State(), reset) && stall == Stall(State(), reset)
      ensures next == NextIfId(State(), reset)
    {
      if reset || flush {
        next := IfId(false, 0, 0);
      } else if stall {
        next := ifId;
      } else {
        next := IfId(fetchValid, fetched, pc);
      }
    }

    /** The decoder: defaults first, then what the opcode overrides. */
    method DecodeInstruction() returns (next: IdEx)
      requires Valid()
      ensures next == if ifId.valid then Issue(ifId.instr, ifId.pc, registers[..]) else FLOATING.(pc := ifId.pc)
    {
      next := FLOATING.(pc := ifId.pc);
      if ifId.valid {
        var w := ifId.instr;
        next := next.(rd := Some(Rd(w)), opcode := Some(Opcode(w)), rs1 := Some(Rs1(w)), rs2 := Some(Rs2(w)));
        if Opcode(w) == OPCODE_OP {
          next := next.(a := registers[Rs1(w)], b := registers[Rs2(w)], wb := ReadAluResult);
          if Funct7(w) == 0 && Funct3(w) == 0 {
            next := next.(alu := AluAdd);
          } else if Funct7(w) == 0x20 && Funct3(w) == 0 {
            next := next.(alu := AluSub);
          } else if Funct7(w) == 0 && Funct3(w) == 2 {
            next := next.(alu := AluSlts);
          }
        } else if Opcode(w) == OPCODE_OPIMM {
          next := next.(a := registers[Rs1(w)], b := SignExtend12(ImmI(w)), wb := ReadAluResult);
          if Funct3(w) == 0 {
            next := next.(alu := AluAdd);
          }
        } else if Opcode(w) == OPCODE_JAL {
          next := next.(pcMux := AluTarget, wb := ReadPc4, alu := AluAdd, a := ifId.pc, b := JumpImmediate(w));
        }
      }
    }

    method DecodeBuffer(reset: bool, flush: bool, stall: bool) returns (next: IdEx)
      requires Valid() && flush == Flush(State(), reset) && stall == Stall(State(), reset)
      ensures next == NextIdEx(State(), reset)
    {
      if reset {
        next := BUBBLE;
      } else if flush {
        next := BUBBLE;
      } else if stall {
        next := BUBBLE;
      } else {
        next := DecodeInstruction();
      }
    }

    /** One clock edge: every wire is read from the values before it. */
    method ClockEdge(program: Word -> Word, reset: bool)
      requires Valid()
      modifies this, registers
      ensures Valid() && State() == Edge(program, old(State()), reset)
    {
      var result, valid := Execute();
      var flush := FlushControl(reset, valid);
      var stall := StallControl(reset);
      var next := SelectNextPc(reset, flush, stall, result, valid);
      var nextIfId := FetchBuffer(reset, flush, stall);
      var nextIdEx := DecodeBuffer(reset, flush, stall);
      var wbEnable, wbData := WriteBackMux();
      var rd := if memWb.rd.Some? then memWb.rd.value else 0;
      RegisterFileEdge(reset, wbEnable && memWb.rd.Some?, rd, wbData);
      memWb := exMem;
      exMem := ResultBuf(result, valid, idEx.wb, idEx.rd, idEx.pc);
      idEx := nextIdEx;
      ifId := nextIfId;
      pc := next;
      fetchValid := !reset;
      fetched := if reset then 0 else program(next);
    }
  }

  /** Power up in any state, hold reset for at least three edges, then clock `t` times: the
      register file is the single-cycle core's after the instructions that have retired. */
  method RunFromPowerUp(program: Word -> Word, p: Pipe, resetEdges: nat, t: nat) returns (core: Core)
    requires Supported(program) && 3 <= resetEdges
    ensures core.Valid() && core.State() == Run(program, t)
    ensures core.registers[..] == Seq.At(program, Retired(program, t)).regs
  {
    core := new Core(p);
    for i := 0 to resetEdges
      invariant core.Valid() && fresh(core) && fresh(core.registers)
      invariant core.State() == ResetEdges(program, p, i)
    {
      core.ClockEdge(program, true);
    }
    ResetTakesThreeEdges(program, p, resetEdges);
    for i := 0 to t
      invariant core.Valid() && fresh(core) && fresh(core.registers)
      invariant core.State() == Run(program, i)
    {
      core.ClockEdge(program, false);
    }
    PipelineRefinesCore(program, t);
  }
}
