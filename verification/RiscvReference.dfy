/** A reference for the instructions the two cores share, written out from the instruction-set
    manual with nothing of the cores in it: how each is encoded, and what it does. */
module RiscvReference {
  /** Registers by number, immediates as the signed numbers that they stand for. */
  datatype Instr =
    | Add(rd: nat, rs1: nat, rs2: nat)
    | Sub(rd: nat, rs1: nat, rs2: nat)
    | Slt(rd: nat, rs1: nat, rs2: nat)
    | Addi(rd: nat, rs1: nat, imm: int)
    | Jal(rd: nat, offset: int)
    | Nop

  predicate Encodable(i: Instr) {
    match i
    case Add(rd, rs1, rs2) => rd < 32 && rs1 < 32 && rs2 < 32
    case Sub(rd, rs1, rs2) => rd < 32 && rs1 < 32 && rs2 < 32
    case Slt(rd, rs1, rs2) => rd < 32 && rs1 < 32 && rs2 < 32
    case Addi(rd, rs1, imm) => rd < 32 && rs1 < 32 && -2048 <= imm < 2048
    case Jal(rd, offset) => rd < 32 && -0x10_0000 <= offset < 0x10_0000 && offset % 2 == 0
    case Nop => true
  }

  /** The fields of the R-type format, from bit 31 down. */
  function RType(funct7: nat, rs2: nat, rs1: nat, funct3: nat, rd: nat, opcode: nat): nat {
    funct7 * 0x200_0000 + rs2 * 0x10_0000 + rs1 * 0x8000 + funct3 * 0x1000 + rd * 0x80 + opcode
  }

  function Encode(i: Instr): nat {
    match i
    case Add(rd, rs1, rs2) => RType(0, rs2, rs1, 0, rd, 0x33)
    case Sub(rd, rs1, rs2) => RType(0x20, rs2, rs1, 0, rd, 0x33)
    case Slt(rd, rs1, rs2) => RType(0, rs2, rs1, 2, rd, 0x33)
    case Addi(rd, rs1, imm) => (imm % 4096) * 0x10_0000 + rs1 * 0x8000 + rd * 0x80 + 0x13
    case Jal(rd, offset) =>
      var u := offset % 0x20_0000;
      (u / 0x10_0000) * 0x8000_0000 + (u / 2 % 0x400) * 0x20_0000 + (u / 0x800 % 2) * 0x10_0000
      + (u / 0x1000 % 0x100) * 0x1000 + rd * 0x80 + 0x6f
    case Nop => 0
  }

  /** The number that a 32-bit register stands for in two's complement. */
  function Value(x: int): int {
    if x < 0x8000_0000 then x else x - 0x1_0000_0000
  }

  /** Register 0 cannot be written. */
  function Put(regs: seq<int>, rd: nat, value: int): seq<int>
    requires |regs| == 32 && rd < 32
  {
    if rd == 0 then regs else regs[rd := value]
  }

  /** PC and registers after the instruction. */
  function Perform(i: Instr, pc: int, regs: seq<int>): (int, seq<int>)
    requires Encodable(i) && |regs| == 32
  {
    var next := (pc + 4) % 0x1_0000_0000;
    match i
    case Add(rd, rs1, rs2) => (next, Put(regs, rd, (regs[rs1] + regs[rs2]) % 0x1_0000_0000))
    case Sub(rd, rs1, rs2) => (next, Put(regs, rd, (regs[rs1] - regs[rs2]) % 0x1_0000_0000))
    case Slt(rd, rs1, rs2) => (next, Put(regs, rd, if Value(regs[rs1]) < Value(regs[rs2]) then 1 else 0))
    case Addi(rd, rs1, imm) => (next, Put(regs, rd, (regs[rs1] + imm) % 0x1_0000_0000))
    case Jal(rd, offset) => ((pc + offset) % 0x1_0000_0000, Put(regs, rd, next))
    case Nop => (next, regs)
  }

  /** Word `w` is the encoding of an instruction, and the state after it is what it does. */
  ghost predicate Performs(w: int, before: (int, seq<int>), after: (int, seq<int>)) {
    |before.1| == 32 &&
    exists i: Instr :: Encodable(i) && w == Encode(i) && after == Perform(i, before.0, before.1)
  }
}
