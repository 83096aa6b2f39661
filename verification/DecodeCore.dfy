/** The single-cycle core: one clock edge executes one instruction. */
module DecodeCore {
  import opened RiscvIsa

  datatype PcMux = NextPc | Offset

  /** The outputs of the decoder for one instruction word. */
  datatype Control = Control(alu: AluOp, immediate: bool, wb: WbMux, pcMux: PcMux)

  function Decode(w: Word): Control {
    if Opcode(w) == OPCODE_OP then
      var op :=
        if Funct7(w) == 0 && Funct3(w) == 0 then AluAdd
        else if Funct7(w) == 0x20 && Funct3(w) == 0 then AluSub
        else if Funct7(w) == 0 && Funct3(w) == 2 then AluSlts
        else AluNop;
      Control(op, false, ReadAluResult, NextPc)
    else if Opcode(w) == OPCODE_OPIMM then
      Control(if Funct3(w) == 0 then AluAdd else AluNop, true, ReadAluResult, NextPc)
    else if Opcode(w) == OPCODE_JAL then
      Control(AluNop, false, ReadPc4, Offset)
    else
      Control(AluNop, false, NoWriteback, NextPc)
  }

  /** `j_imm`: twelve copies of bit 31 above the other fields of the jump offset. */
  function JumpOffset(w: Word): Word {
    Bit31(w) * 0xFFF0_0000 + Bits19To12(w) * 0x1000 + Bit20(w) * 0x800 + Bits30To21(w) * 2
  }

  /** PC, the address registered for the instruction memory, that address plus 4, whether the
      request is valid, and the register file. */
  datatype Core = Core(pc: Word, addr: Word, addr4: Word, request: bool, regs: RegFile)

  /** The value on the write-back bus and whether it is written. */
  function WriteBack(s: Core, w: Word): (bool, Word) {
    var c := Decode(w);
    match c.wb
    case ReadAluResult =>
      var b := if c.immediate then SignExtend12(ImmI(w)) else s.regs[Rs2(w)];
      (AluValid(c.alu), AluResult(c.alu, s.regs[Rs1(w)], b))
    case ReadPc4 => (true, s.addr4)
    case NoWriteback => (false, 0)
  }

  function NextPcOf(s: Core, w: Word): Word {
    match Decode(w).pcMux
    case NextPc => Wrap(s.pc + 4)
    case Offset => Wrap(s.pc + JumpOffset(w))
  }

  /** One clock edge; `program` is the instruction memory. Without a valid request the decoder
      sees no opcode, so nothing is written and the PC advances. */
  function Edge(program: Word -> Word, s: Core, reset: bool): Core {
    if reset then Core(0, 0, 0, false, ZeroRegs())
    else
      var next := if s.request then NextPcOf(s, program(s.addr)) else Wrap(s.pc + 4);
      var regs :=
        if s.request then
          var w := program(s.addr);
          WriteReg(s.regs, WriteBack(s, w).0, Rd(w), WriteBack(s, w).1)
        else s.regs;
      Core(next, next, Wrap(next + 4), true, regs)
  }

  /** The state `t` edges after reset was released. */
  function Run(program: Word -> Word, t: nat): Core {
    if t == 0 then Core(0, 0, 0, false, ZeroRegs()) else Edge(program, Run(program, t - 1), false)
  }

  /** Whatever the core held, one edge in reset leads to the state that Run starts from. */
  lemma ResetEdge(program: Word -> Word, s: Core)
    ensures Edge(program, s, true) == Run(program, 0)
  {
  }

  // ---------- The instruction stream ----------

  /** The core as it executes instruction `n` of the stream, which starts at address 4. */
  function At(program: Word -> Word, n: nat): Core {
    Run(program, n + 1)
  }

  lemma {:induction false} AtSteady(program: Word -> Word, n: nat)
    ensures var s := At(program, n);
      s.request && s.addr == s.pc && s.addr4 == Wrap(s.pc + 4)
    ensures n == 0 ==> At(program, n).pc == 4 && At(program, n).regs == ZeroRegs()
  {
  }

  lemma AtNext(program: Word -> Word, n: nat)
    ensures At(program, n + 1) == Edge(program, At(program, n), false)
  {
  }

  /** The n-th instruction executed. */
  function InstrAt(program: Word -> Word, n: nat): Word {
    program(At(program, n).pc)
  }

  /** The register write of the n-th instruction, if it writes a register other than x0. */
  datatype Write = Write(rd: Reg, data: Word)

  function WritesOf(program: Word -> Word, n: nat): seq<Write> {
    var w := InstrAt(program, n);
    var (enable, data) := WriteBack(At(program, n), w);
    if enable && Rd(w) != 0 then [Write(Rd(w), data)] else []
  }

  /** The writes of the first `n` instructions, given those of each. */
  function Concat(writes: nat -> seq<Write>, n: nat): seq<Write> {
    if n == 0 then [] else Concat(writes, n - 1) + writes(n - 1)
  }

  lemma {:induction false} ConcatSame(f: nat -> seq<Write>, g: nat -> seq<Write>, n: nat)
    requires forall m: nat | m < n :: f(m) == g(m)
    ensures Concat(f, n) == Concat(g, n)
  {
    if n > 0 {
      ConcatSame(f, g, n - 1);
    }
  }

  lemma {:induction false} ConcatGrows(f: nat -> seq<Write>, n: nat, m: nat)
    requires n <= m
    ensures Concat(f, n) <= Concat(f, m)
  {
    if n < m {
      ConcatGrows(f, n, m - 1);
    }
  }

  /** The register writes of the first `n` instructions, in order. */
  function Log(program: Word -> Word, n: nat): seq<Write> {
    Concat((m: nat) => WritesOf(program, m), n)
  }
}
