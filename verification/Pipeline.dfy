/** The five-stage core: its pipeline registers as one record, its combinational controllers
    as functions, and one clock edge as a step that updates every register at once. A signal
    that floats (`z`) because no valid instruction drives it is None. */
module Pipeline {
  import opened Basics
  import opened RiscvIsa

  datatype PcMux = NextPc | AluTarget | NopPcMux

  /** IF/ID buffer. */
  datatype IfId = IfId(valid: bool, instr: Word, pc: Word)

  /** ID/EX buffer; opcode, rs1 and rs2 feed the forwarding and stall controllers. */
  datatype IdEx = IdEx(
    alu: AluOp, a: Word, b: Word,
    pcMux: PcMux, wb: WbMux,
    rd: Option<Reg>, opcode: Option<nat>, rs1: Option<Reg>, rs2: Option<Reg>,
    pc: Word)

  /** EX/MEM and MEM/WB buffers hold the same fields. */
  datatype ResultBuf = ResultBuf(alu: Word, aluValid: bool, wb: WbMux, rd: Option<Reg>, pc: Word)

  /** PC register, the registered output of the instruction memory, the four buffers and the
      register file. */
  datatype Pipe = Pipe(
    pc: Word, fetchValid: bool, fetched: Word,
    ifId: IfId, idEx: IdEx, exMem: ResultBuf, memWb: ResultBuf,
    regs: RegFile)

  const EMPTY_IF_ID := IfId(false, 0, 0)

  /** What reset, a flush and a stall load into ID/EX. */
  const BUBBLE := IdEx(AluNop, 0, 0, NopPcMux, NoWriteback, Some(0), Some(0), Some(0), Some(0), 0)

  const EMPTY_RESULT := ResultBuf(0, false, NoWriteback, Some(0), 0)

  // ---------- WB_Stage ----------

  function WbValid(m: ResultBuf): bool {
    match m.wb
    case ReadAluResult => m.aluValid
    case ReadPc4 => true
    case NoWriteback => false
  }

  function WbData(m: ResultBuf): Word {
    match m.wb
    case ReadAluResult => m.alu
    case ReadPc4 => Wrap(m.pc + 4)
    case NoWriteback => 0
  }

  // ---------- FWD_Control and the operand muxes of EX_Stage ----------

  datatype Forward = OriginalSelect | ExResultSelect | MemResultSelect

  /** The selection for one source register. */
  function ForwardFrom(exMem: ResultBuf, memWb: ResultBuf, rs: Option<Reg>): Forward {
    if exMem.wb != NoWriteback && exMem.rd != Some(0) && exMem.rd == rs then ExResultSelect
    else if memWb.wb != NoWriteback && memWb.rd != Some(0) && memWb.rd == rs then MemResultSelect
    else OriginalSelect
  }

  function ForwardA(p: Pipe): Forward {
    if p.idEx.opcode == Some(OPCODE_OP) || p.idEx.opcode == Some(OPCODE_OPIMM)
    then ForwardFrom(p.exMem, p.memWb, p.idEx.rs1) else OriginalSelect
  }

  function ForwardB(p: Pipe): Forward {
    if p.idEx.opcode == Some(OPCODE_OP) then ForwardFrom(p.exMem, p.memWb, p.idEx.rs2) else OriginalSelect
  }

  function Select(p: Pipe, f: Forward, original: Word): Word {
    match f
    case OriginalSelect => original
    case ExResultSelect => p.exMem.alu
    case MemResultSelect => WbData(p.memWb)
  }

  function OperandA(p: Pipe): Word { Select(p, ForwardA(p), p.idEx.a) }

  function OperandB(p: Pipe): Word { Select(p, ForwardB(p), p.idEx.b) }

  // ---------- EX_Stage and Flush_Control ----------

  function ExResult(p: Pipe): Word { AluResult(p.idEx.alu, OperandA(p), OperandB(p)) }

  function Flush(p: Pipe, reset: bool): bool {
    !reset && p.idEx.pcMux == AluTarget && AluValid(p.idEx.alu)
  }

  // ---------- Stall_Control ----------

  predicate UsesRs1(opcode: nat) {
    opcode == OPCODE_OP || opcode == OPCODE_OPIMM || opcode == OPCODE_LOAD
  }

  predicate UsesRs2(opcode: nat) {
    opcode == OPCODE_OP
  }

  /** The load-use rule for one source register. */
  predicate LoadUse(p: Pipe, rs: Reg) {
    p.idEx.opcode == Some(OPCODE_LOAD) && p.idEx.rd != Some(0) && p.idEx.rd == Some(rs)
  }

  /** The write-back rule for one source register: it is being written in this very cycle and
      neither EX nor MEM names it as its destination. */
  predicate WriteBackClash(p: Pipe, rs: Reg) {
    && WbValid(p.memWb) && p.memWb.rd.Some? && p.memWb.rd != Some(0)
    && p.memWb.rd == Some(rs) && Some(rs) != p.idEx.rd && Some(rs) != p.exMem.rd
  }

  predicate Stall(p: Pipe, reset: bool) {
    !reset && p.ifId.valid &&
    var w := p.ifId.instr;
    || (UsesRs1(Opcode(w)) && (LoadUse(p, Rs1(w)) || WriteBackClash(p, Rs1(w))))
    || (UsesRs2(Opcode(w)) && (LoadUse(p, Rs2(w)) || WriteBackClash(p, Rs2(w))))
  }

  // ---------- ID_Stage ----------

  /** The jump immediate: a 21-bit signed field extended to 32 bits. */
  function JumpImmediate(w: Word): Word {
    var field := Bit31(w) * 0x10_0000 + Bits19To12(w) * 0x1000 + Bit20(w) * 0x800 + Bits30To21(w) * 2;
    if Bit31(w) == 0 then field else field + 0xFFE0_0000
  }

  function DecodeOp(w: Word): AluOp {
    if Funct7(w) == 0 && Funct3(w) == 0 then AluAdd
    else if Funct7(w) == 0x20 && Funct3(w) == 0 then AluSub
    else if Funct7(w) == 0 && Funct3(w) == 2 then AluSlts
    else AluNop
  }

  /** The buffer with the register fields of `w` and the given control. */
  function Fields(w: Word, pc: Word, alu: AluOp, a: Word, b: Word, pcMux: PcMux, wb: WbMux): IdEx {
    IdEx(alu, a, b, pcMux, wb, Some(Rd(w)), Some(Opcode(w)), Some(Rs1(w)), Some(Rs2(w)), pc)
  }

  /** What ID loads into ID/EX for instruction `w` when it neither stalls nor is flushed. */
  function Issue(w: Word, pc: Word, regs: RegFile): IdEx {
    if Opcode(w) == OPCODE_OP then
      Fields(w, pc, DecodeOp(w), regs[Rs1(w)], regs[Rs2(w)], NextPc, ReadAluResult)
    else if Opcode(w) == OPCODE_OPIMM then
      Fields(w, pc, if Funct3(w) == 0 then AluAdd else AluNop,
             regs[Rs1(w)], SignExtend12(ImmI(w)), NextPc, ReadAluResult)
    else if Opcode(w) == OPCODE_JAL then
      Fields(w, pc, AluAdd, pc, JumpImmediate(w), AluTarget, ReadPc4)
    else
      Fields(w, pc, AluNop, 0, 0, NextPc, NoWriteback)
  }

  /** Without a valid instruction every decoded field floats and nothing is enabled. */
  const FLOATING := IdEx(AluNop, 0, 0, NextPc, NoWriteback, None, None, None, None, 0)

  function NextIdEx(p: Pipe, reset: bool): IdEx {
    if reset || Flush(p, reset) || Stall(p, reset) then BUBBLE
    else if p.ifId.valid then Issue(p.ifId.instr, p.ifId.pc, p.regs)
    else FLOATING.(pc := p.ifId.pc)
  }

  // ---------- IF_Stage ----------

  function NextPcOf(p: Pipe, reset: bool): Word {
    if reset then 0
    else if Flush(p, reset) then ExResult(p)
    else if Stall(p, reset) then p.pc
    else if p.idEx.pcMux == AluTarget then (if AluValid(p.idEx.alu) then ExResult(p) else p.pc)
    else Wrap(p.pc + 4)
  }

  function NextIfId(p: Pipe, reset: bool): IfId {
    if reset || Flush(p, reset) then EMPTY_IF_ID
    else if Stall(p, reset) then p.ifId
    else IfId(p.fetchValid, p.fetched, p.pc)
  }

  // ---------- One clock edge ----------

  /** Every register takes its next value from the values before the edge; the instruction
      memory reads the address that the PC register is about to take. */
  function Edge(program: Word -> Word, p: Pipe, reset: bool): Pipe {
    var next := NextPcOf(p, reset);
    Pipe(
      next,
      !reset,
      if reset then 0 else program(next),
      NextIfId(p, reset),
      NextIdEx(p, reset),
      ResultBuf(ExResult(p), AluValid(p.idEx.alu), p.idEx.wb, p.idEx.rd, p.idEx.pc),
      p.exMem,
      if reset then ZeroRegs()
      else if p.memWb.rd.Some? then WriteReg(p.regs, WbValid(p.memWb), p.memWb.rd.value, WbData(p.memWb))
      else p.regs)
  }

  const RESET_STATE := Pipe(0, false, 0, EMPTY_IF_ID, BUBBLE, EMPTY_RESULT, EMPTY_RESULT, ZeroRegs())

  function ResetEdges(program: Word -> Word, p: Pipe, n: nat): Pipe {
    if n == 0 then p else Edge(program, ResetEdges(program, p, n - 1), true)
  }

  /** The EX/MEM and MEM/WB buffers have no reset of their own, so three edges in reset are
      needed, and enough, to forget whatever the pipeline held. */
  lemma {:induction false} ResetTakesThreeEdges(program: Word -> Word, p: Pipe, n: nat)
    requires 3 <= n
    ensures ResetEdges(program, p, n) == RESET_STATE
  {
    if n == 3 {
      var p1 := ResetEdges(program, p, 1);
      var p2 := ResetEdges(program, p, 2);
      assert p1 == Edge(program, ResetEdges(program, p, 0), true);
      assert p2 == Edge(program, p1, true);
      assert ResetEdges(program, p, 3) == Edge(program, p2, true);
      assert p2.exMem == EMPTY_RESULT;
    } else {
      ResetTakesThreeEdges(program, p, n - 1);
    }
  }

  /** Two edges are not enough: a write that was in EX can still be waiting in MEM/WB. */
  lemma TwoResetEdgesLeaveAWrite(program: Word -> Word, p: Pipe)
    requires p.idEx.wb == ReadPc4 && p.idEx.rd.Some? && p.idEx.rd != Some(0)
    ensures WbValid(ResetEdges(program, p, 2).memWb) && ResetEdges(program, p, 2).memWb.rd == p.idEx.rd
  {
    assert ResetEdges(program, p, 1) == Edge(program, ResetEdges(program, p, 0), true);
    assert ResetEdges(program, p, 2) == Edge(program, ResetEdges(program, p, 1), true);
  }

  /** The state `t` edges after reset was released. */
  function Run(program: Word -> Word, t: nat): Pipe {
    if t == 0 then RESET_STATE else Edge(program, Run(program, t - 1), false)
  }
}
