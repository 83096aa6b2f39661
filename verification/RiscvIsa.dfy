/** What the two RISC-V cores share: words, instruction fields, the ALU and the register file. */
module RiscvIsa {
  const WORD_LIMIT := 0x1_0000_0000

  type Word = x: int | 0 <= x < WORD_LIMIT

  type Reg = x: int | 0 <= x < 32

  function Wrap(x: int): Word {
    x % WORD_LIMIT
  }

  function Signed(x: Word): int {
    if x < 0x8000_0000 then x else x - 0x1_0000_0000
  }

  // ---------- Instruction fields ----------

  function Opcode(w: Word): nat { w % 0x80 }

  function Rd(w: Word): Reg { w / 0x80 % 32 }

  function Funct3(w: Word): nat { w / 0x1000 % 8 }

  function Rs1(w: Word): Reg { w / 0x8000 % 32 }

  function Rs2(w: Word): Reg { w / 0x10_0000 % 32 }

  function Funct7(w: Word): nat { w / 0x200_0000 }

  /** Bits 31 to 20. */
  function ImmI(w: Word): nat { w / 0x10_0000 }

  /** Bits 19 to 12. */
  function Bits19To12(w: Word): nat { w / 0x1000 % 0x100 }

  function Bit20(w: Word): nat { w / 0x10_0000 % 2 }

  /** Bits 30 to 21. */
  function Bits30To21(w: Word): nat { w / 0x20_0000 % 0x400 }

  function Bit31(w: Word): (r: nat)
    ensures r < 2
  {
    w / 0x8000_0000
  }

  /** `$signed` of a 12-bit field, assigned to 32 bits. */
  function SignExtend12(x: nat): Word
    requires x < 0x1000
  {
    if x < 0x800 then x else x + 0xFFFF_F000
  }

  const OPCODE_LOAD := 0x03
  const OPCODE_OPIMM := 0x13
  const OPCODE_OP := 0x33
  const OPCODE_JAL := 0x6f

  /** ADD, SUB, SLT, ADDI, JAL and the all-zero word. */
  predicate InSubset(w: Word) {
    || w == 0
    || (Opcode(w) == OPCODE_OP && (Funct7(w), Funct3(w)) in {(0, 0), (0x20, 0), (0, 2)})
    || (Opcode(w) == OPCODE_OPIMM && Funct3(w) == 0)
    || Opcode(w) == OPCODE_JAL
  }

  // ---------- ALU ----------

  datatype AluOp = AluNop | AluAdd | AluSub | AluSlts

  function AluResult(op: AluOp, a: Word, b: Word): Word {
    match op
    case AluAdd => Wrap(a + b)
    case AluSub => Wrap(a - b)
    case AluSlts => if Signed(a) < Signed(b) then 1 else 0
    case AluNop => 0
  }

  function AluValid(op: AluOp): bool {
    !op.AluNop?
  }

  // ---------- Register file ----------

  type RegFile = s: seq<Word> | |s| == 32 witness seq(32, _ => 0)

  /** The register file after reset. */
  function ZeroRegs(): (r: RegFile)
    ensures forall i :: 0 <= i < 32 ==> r[i] == 0
  {
    seq(32, _ => 0)
  }

  /** One clock edge of the register file outside reset; register 0 is never enabled. */
  function WriteReg(regs: RegFile, enable: bool, rd: Reg, data: Word): RegFile {
    if enable && rd != 0 then regs[rd := data] else regs
  }

  datatype WbMux = NoWriteback | ReadAluResult | ReadPc4
}
