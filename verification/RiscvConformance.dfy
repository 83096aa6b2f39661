/** Both cores do what the instruction-set reference says. */
module RiscvConformance {
  import opened Basics
  import opened RiscvIsa
  import opened RiscvReference
  import Seq = DecodeCore
  import P = Pipeline
  import T = PipelineTheorems

  // ---------- Fields ----------

  /** A word made of fields has these fields. */
  lemma FieldsOf(funct7: nat, rs2: nat, rs1: nat, funct3: nat, rd: nat, opcode: nat)
    requires funct7 < 0x80 && rs2 < 32 && rs1 < 32 && funct3 < 8 && rd < 32 && opcode < 0x80
    ensures var w := RType(funct7, rs2, rs1, funct3, rd, opcode);
      && w < 0x1_0000_0000
      && Opcode(w) == opcode && Rd(w) == rd && Funct3(w) == funct3
      && Rs1(w) == rs1 && Rs2(w) == rs2 && Funct7(w) == funct7
      && ImmI(w) == funct7 * 32 + rs2
  {
    var w := RType(funct7, rs2, rs1, funct3, rd, opcode);
    assert w / 0x80 == funct7 * 0x4_0000 + rs2 * 0x2000 + rs1 * 0x100 + funct3 * 0x20 + rd;
    assert w / 0x1000 == funct7 * 0x2000 + rs2 * 0x100 + rs1 * 8 + funct3;
    assert w / 0x8000 == funct7 * 0x400 + rs2 * 0x20 + rs1;
    assert w / 0x10_0000 == funct7 * 0x20 + rs2;
  }

  /** Every word is made of its fields. */
  lemma FieldsRecompose(w: Word)
    ensures w == RType(Funct7(w), Rs2(w), Rs1(w), Funct3(w), Rd(w), Opcode(w))
    ensures Funct7(w) < 0x80
  {
    assert w == 0x80 * (w / 0x80) + Opcode(w);
    assert w / 0x80 == 0x20 * (w / 0x1000) + Rd(w);
    assert w / 0x1000 == 8 * (w / 0x8000) + Funct3(w);
    assert w / 0x8000 == 0x20 * (w / 0x10_0000) + Rs1(w);
    assert w / 0x10_0000 == 0x20 * (w / 0x200_0000) + Rs2(w);
  }

  /** The word of a jump, from bit 31 down. */
  function JType(b31: nat, b30to21: nat, b20: nat, b19to12: nat, rd: nat): nat {
    b31 * 0x8000_0000 + b30to21 * 0x20_0000 + b20 * 0x10_0000 + b19to12 * 0x1000 + rd * 0x80 + 0x6f
  }

  /** The fields of a jump. */
  lemma JumpFields(b31: nat, b30to21: nat, b20: nat, b19to12: nat, rd: nat)
    requires b31 < 2 && b30to21 < 0x400 && b20 < 2 && b19to12 < 0x100 && rd < 32
    ensures var w := JType(b31, b30to21, b20, b19to12, rd);
      && w < 0x1_0000_0000
      && Opcode(w) == 0x6f && Rd(w) == rd
      && Bit31(w) == b31 && Bits30To21(w) == b30to21 && Bit20(w) == b20 && Bits19To12(w) == b19to12
  {
    var w := JType(b31, b30to21, b20, b19to12, rd);
    var a := b31 * 0x400 + b30to21;
    var b := a * 2 + b20;
    var c := b * 0x100 + b19to12;
    var d := c * 0x20 + rd;
    DivisionUnique(w, 0x80, d, 0x6f);
    DivisionUnique(d, 0x20, c, rd);
    DivisionUnique(w, 0x1000, c, rd * 0x80 + 0x6f);
    DivisionUnique(c, 0x100, b, b19to12);
    DivisionUnique(w, 0x10_0000, b, b19to12 * 0x1000 + rd * 0x80 + 0x6f);
    DivisionUnique(b, 2, a, b20);
    DivisionUnique(w, 0x20_0000, a, b20 * 0x10_0000 + b19to12 * 0x1000 + rd * 0x80 + 0x6f);
    DivisionUnique(a, 0x400, b31, b30to21);
    DivisionUnique(w, 0x8000_0000, b31, w - b31 * 0x8000_0000);
  }

  // ---------- One instruction of the single-cycle core ----------

  /** The core is about to execute the word at its PC. */
  predicate Ready(s: Seq.Core) {
    s.request && s.addr == s.pc && s.addr4 == Wrap(s.pc + 4)
  }

  /** What the core does with a register-register instruction, given its fields. */
  lemma OpEdge(program: Word -> Word, s: Seq.Core, w: Word, i: Instr)
    requires Ready(s) && Encodable(i) && (i.Add? || i.Sub? || i.Slt?) && program(s.pc) == w
    ensures (
      && Opcode(w) == 0x33 && Rd(w) == i.rd && Rs1(w) == i.rs1 && Rs2(w) == i.rs2
      && Funct7(w) == (if i.Sub? then 0x20 else 0) && Funct3(w) == (if i.Slt? then 2 else 0)) ==>
      var s' := Seq.Edge(program, s, false); (s'.pc, s'.regs) == Perform(i, s.pc, s.regs)
  {
  }

  lemma OpConforms(program: Word -> Word, s: Seq.Core, i: Instr)
    requires Ready(s) && Encodable(i) && (i.Add? || i.Sub? || i.Slt?) && program(s.pc) == Encode(i)
    ensures var s' := Seq.Edge(program, s, false); (s'.pc, s'.regs) == Perform(i, s.pc, s.regs)
  {
    FieldsOf(if i.Sub? then 0x20 else 0, i.rs2, i.rs1, if i.Slt? then 2 else 0, i.rd, 0x33);
    OpEdge(program, s, program(s.pc), i);
  }

  lemma ImmediateWord(i: Instr)
    requires Encodable(i) && i.Addi?
    ensures var w := Encode(i);
      && w < 0x1_0000_0000 && Opcode(w) == 0x13 && Rd(w) == i.rd && Rs1(w) == i.rs1 && Funct3(w) == 0
      && ImmI(w) == i.imm % 4096
  {
    var m := i.imm % 4096;
    DivisionUnique(m, 32, m / 32, m % 32);
    FieldsOf(m / 32, m % 32, i.rs1, 0, i.rd, 0x13);
    assert Encode(i) == RType(m / 32, m % 32, i.rs1, 0, i.rd, 0x13);
  }

  /** What the core does with an immediate instruction, given its fields. */
  lemma ImmediateEdge(program: Word -> Word, s: Seq.Core, w: Word, i: Instr)
    requires Ready(s) && Encodable(i) && i.Addi? && program(s.pc) == w
    requires Opcode(w) == 0x13 && Rd(w) == i.rd && Rs1(w) == i.rs1 && Funct3(w) == 0 && ImmI(w) == i.imm % 4096
    ensures var s' := Seq.Edge(program, s, false); (s'.pc, s'.regs) == Perform(i, s.pc, s.regs)
  {
    assert SignExtend12(ImmI(w)) == if i.imm >= 0 then i.imm else i.imm + 0x1_0000_0000;
    SumWraps(s.regs[i.rs1], i.imm, SignExtend12(ImmI(w)));
  }

  lemma ImmediateConforms(program: Word -> Word, s: Seq.Core, i: Instr)
    requires Ready(s) && Encodable(i) && i.Addi? && program(s.pc) == Encode(i)
    ensures var s' := Seq.Edge(program, s, false); (s'.pc, s'.regs) == Perform(i, s.pc, s.regs)
  {
    ImmediateWord(i);
    ImmediateEdge(program, s, program(s.pc), i);
  }

  /** Adding a two's-complement representation is adding the number. */
  lemma SumWraps(x: Word, y: int, z: Word)
    requires z == if y >= 0 then y else y + 0x1_0000_0000
    ensures Wrap(x + z) == (x + y) % 0x1_0000_0000
  {
  }

  lemma JumpEncoded(i: Instr)
    requires Encodable(i) && i.Jal?
    ensures var u, w := i.offset % 0x20_0000, Encode(i);
      && w < 0x1_0000_0000 && Opcode(w) == 0x6f && Rd(w) == i.rd
      && Bit31(w) == u / 0x10_0000 && Bits30To21(w) == u / 2 % 0x400
      && Bit20(w) == u / 0x800 % 2 && Bits19To12(w) == u / 0x1000 % 0x100
  {
    var u := i.offset % 0x20_0000;
    var b31, b30, b20, b19 := u / 0x10_0000, u / 2 % 0x400, u / 0x800 % 2, u / 0x1000 % 0x100;
    assert Encode(i) == JType(b31, b30, b20, b19, i.rd);
    JumpFields(b31, b30, b20, b19, i.rd);
  }

  /** What the core does with a jump, given its destination and offset. */
  lemma JumpEdge(program: Word -> Word, s: Seq.Core, w: Word, i: Instr)
    requires Ready(s) && Encodable(i) && i.Jal? && program(s.pc) == w
    requires Opcode(w) == 0x6f && Rd(w) == i.rd
    requires Seq.JumpOffset(w) == if i.offset >= 0 then i.offset else i.offset + 0x1_0000_0000
    ensures var s' := Seq.Edge(program, s, false); (s'.pc, s'.regs) == Perform(i, s.pc, s.regs)
  {
    SumWraps(s.pc, i.offset, Seq.JumpOffset(w));
  }

  lemma JumpConforms(program: Word -> Word, s: Seq.Core, i: Instr)
    requires Ready(s) && Encodable(i) && i.Jal? && program(s.pc) == Encode(i)
    ensures var s' := Seq.Edge(program, s, false); (s'.pc, s'.regs) == Perform(i, s.pc, s.regs)
  {
    JumpEncoded(i);
    OffsetDecodes(i.offset, program(s.pc));
    JumpEdge(program, s, program(s.pc), i);
  }

  lemma OffsetDecodes(offset: int, w: Word)
    requires -0x10_0000 <= offset < 0x10_0000 && offset % 2 == 0
    requires var u := offset % 0x20_0000;
      && Bit31(w) == u / 0x10_0000 && Bits30To21(w) == u / 2 % 0x400
      && Bit20(w) == u / 0x800 % 2 && Bits19To12(w) == u / 0x1000 % 0x100
    ensures Seq.JumpOffset(w) == if offset >= 0 then offset else offset + 0x1_0000_0000
  {
    var u := offset % 0x20_0000;
    assert u == if offset >= 0 then offset else offset + 0x20_0000;
    OffsetSplits(u);
  }

  /** An even offset is made of the four groups of bits that a jump encodes. */
  lemma OffsetSplits(u: nat)
    requires u % 2 == 0
    ensures u == (u / 0x10_0000) * 0x10_0000 + (u / 0x1000 % 0x100) * 0x1000 + (u / 0x800 % 2) * 0x800 + (u / 2 % 0x400) * 2
  {
    var x, y, z := u / 2, u / 0x800, u / 0x1000;
    assert u == 2 * x;
    assert x == 0x400 * (x / 0x400) + x % 0x400 && x / 0x400 == y;
    assert y == 2 * (y / 2) + y % 2 && y / 2 == z;
    assert z == 0x100 * (z / 0x100) + z % 0x100 && z / 0x100 == u / 0x10_0000;
  }

  lemma NopConforms(program: Word -> Word, s: Seq.Core)
    requires Ready(s) && program(s.pc) == 0
    ensures var s' := Seq.Edge(program, s, false); (s'.pc, s'.regs) == Perform(Nop, s.pc, s.regs)
  {
  }

  /** In the single-cycle core, arithmetic words with any other function code write nothing. */
  lemma OtherFunctionsAreNop(program: Word -> Word, n: nat)
    requires var w := Seq.InstrAt(program, n); w % 0x80 in {0x33, 0x13} && !InSubset(w)
    ensures var s, s' := Seq.At(program, n), Seq.At(program, n + 1);
      (s'.pc, s'.regs) == Perform(Nop, s.pc, s.regs)
  {
  }

  /** The single-cycle core executes every encoded instruction as the reference says. */
  lemma CoreConforms(program: Word -> Word, n: nat, i: Instr)
    requires Encodable(i) && program(Seq.At(program, n).pc) == Encode(i)
    ensures var s, s' := Seq.At(program, n), Seq.At(program, n + 1);
      (s'.pc, s'.regs) == Perform(i, s.pc, s.regs)
  {
    var s := Seq.At(program, n);
    Seq.AtSteady(program, n);
    Seq.AtNext(program, n);
    match i
    case Add(_, _, _) => OpConforms(program, s, i);
    case Sub(_, _, _) => OpConforms(program, s, i);
    case Slt(_, _, _) => OpConforms(program, s, i);
    case Addi(_, _, _) => ImmediateConforms(program, s, i);
    case Jal(_, _) => JumpConforms(program, s, i);
    case Nop => NopConforms(program, s);
  }

  // ---------- The instruction subset ----------

  /** The instructions of the subset are exactly the encoded ones. */
  lemma SubsetIsEncoded(w: Word)
    ensures InSubset(w) <==> exists i: Instr :: Encodable(i) && Encode(i) == w
  {
    if InSubset(w) {
      DecodedIsEncoded(w);
    }
    if i: Instr :| Encodable(i) && Encode(i) == w {
      EncodedIsInSubset(i, w);
    }
  }

  lemma EncodedIsInSubset(i: Instr, w: Word)
    requires Encodable(i) && Encode(i) == w
    ensures InSubset(w)
  {
    match i
    case Add(_, _, _) => FieldsOf(0, i.rs2, i.rs1, 0, i.rd, 0x33);
    case Sub(_, _, _) => FieldsOf(0x20, i.rs2, i.rs1, 0, i.rd, 0x33);
    case Slt(_, _, _) => FieldsOf(0, i.rs2, i.rs1, 2, i.rd, 0x33);
    case Addi(_, _, _) => ImmediateWord(i);
    case Jal(_, _) => JumpEncoded(i);
    case Nop =>
  }

  lemma DecodedIsEncoded(w: Word)
    requires InSubset(w)
    ensures exists i: Instr :: Encodable(i) && Encode(i) == w
  {
    if w == 0 {
      assert Encode(Nop) == w;
    } else if Opcode(w) == OPCODE_OP {
      OpDecoded(w);
    } else if Opcode(w) == OPCODE_OPIMM {
      ImmediateDecoded(w);
    } else {
      JumpDecoded(w);
    }
  }

  lemma OpDecoded(w: Word)
    requires Opcode(w) == 0x33 && (Funct7(w), Funct3(w)) in {(0, 0), (0x20, 0), (0, 2)}
    ensures exists i: Instr :: Encodable(i) && Encode(i) == w
  {
    var rd, rs1, rs2 := Rd(w), Rs1(w), Rs2(w);
    var i :=
      if Funct7(w) == 0x20 then Sub(rd, rs1, rs2) else if Funct3(w) == 2 then Slt(rd, rs1, rs2) else Add(rd, rs1, rs2);
    FieldsRecompose(w);
    assert Encodable(i) && Encode(i) == w;
  }

  lemma ImmediateDecoded(w: Word)
    requires Opcode(w) == 0x13 && Funct3(w) == 0
    ensures exists i: Instr :: Encodable(i) && Encode(i) == w
  {
    FieldsRecompose(w);
    ImmediateEncoding(Rd(w), Rs1(w), Funct7(w), Rs2(w));
  }

  lemma ImmediateEncoding(rd: nat, rs1: nat, high: nat, low: nat)
    requires rd < 32 && rs1 < 32 && high < 0x80 && low < 32
    ensures exists i: Instr :: Encodable(i) && Encode(i) == RType(high, low, rs1, 0, rd, 0x13)
  {
    var m: int := high * 32 + low;
    var i := Addi(rd, rs1, if m < 2048 then m else m - 4096);
    assert i.imm % 4096 == m;
    assert Encodable(i) && Encode(i) == RType(high, low, rs1, 0, rd, 0x13);
  }

  lemma JumpDecoded(w: Word)
    requires Opcode(w) == 0x6f
    ensures exists i: Instr :: Encodable(i) && Encode(i) == w
  {
    JumpWord(w);
    JumpFieldsEncoded(Bit31(w), Bits30To21(w), Bit20(w), Bits19To12(w), Rd(w));
  }

  lemma JumpFieldsEncoded(b31: nat, b30: nat, b20: nat, b19: nat, rd: nat)
    requires b31 < 2 && b30 < 0x400 && b20 < 2 && b19 < 0x100 && rd < 32
    ensures exists i: Instr :: Encodable(i) && Encode(i) == JType(b31, b30, b20, b19, rd)
  {
    var u: int := b31 * 0x10_0000 + b19 * 0x1000 + b20 * 0x800 + b30 * 2;
    OffsetFields(b31, b19, b20, b30);
    JumpEncoding(rd, if u < 0x10_0000 then u else u - 0x20_0000, u);
  }

  lemma JumpEncoding(rd: nat, offset: int, u: nat)
    requires rd < 32 && u < 0x20_0000 && u % 2 == 0
    requires offset == if u < 0x10_0000 then u else u - 0x20_0000
    ensures Encodable(Jal(rd, offset))
    ensures Encode(Jal(rd, offset)) == JType(u / 0x10_0000, u / 2 % 0x400, u / 0x800 % 2, u / 0x1000 % 0x100, rd)
  {
    assert offset % 0x20_0000 == u;
  }

  lemma JumpWord(w: Word)
    requires Opcode(w) == 0x6f
    ensures w == JType(Bit31(w), Bits30To21(w), Bit20(w), Bits19To12(w), Rd(w))
  {
    var a, b, c, d := w / 0x80, w / 0x1000, w / 0x10_0000, w / 0x20_0000;
    Chain(w, 0x80, 0x20);
    Chain(w, 0x1000, 0x100);
    Chain(w, 0x10_0000, 2);
    Chain(w, 0x20_0000, 0x400);
    assert w == 0x80 * a + 0x6f && a == 0x20 * b + Rd(w) && b == 0x100 * c + Bits19To12(w);
    assert c == 2 * d + Bit20(w) && d == 0x400 * Bit31(w) + Bits30To21(w);
  }

  /** Dividing twice is dividing by the product. */
  lemma Chain(w: nat, d: nat, e: nat)
    requires d > 0 && e > 0
    ensures d * e > 0 && w / d == e * (w / (d * e)) + w / d % e
  {
    var q := w / d;
    var p, r := q / e, q % e;
    Twice(w, d, e, p, r, w % d);
    TimesApart(r, e, d);
    DivisionUnique(w, d * e, p, r * d + w % d);
  }

  lemma Twice(w: nat, d: nat, e: nat, p: nat, r: nat, x: nat)
    requires w == (p * e + r) * d + x
    ensures w == p * (d * e) + (r * d + x)
  {
  }

  lemma OffsetFields(b31: nat, b19: nat, b20: nat, b30: nat)
    requires b31 < 2 && b30 < 0x400 && b20 < 2 && b19 < 0x100
    ensures var u := b31 * 0x10_0000 + b19 * 0x1000 + b20 * 0x800 + b30 * 2;
      && u < 0x20_0000 && u % 2 == 0 && u / 0x10_0000 == b31 && u / 0x1000 % 0x100 == b19 && u / 0x800 % 2 == b20 && u / 2 % 0x400 == b30
  {
    var u := b31 * 0x10_0000 + b19 * 0x1000 + b20 * 0x800 + b30 * 2;
    DivisionUnique(u, 2, b31 * 0x8_0000 + b19 * 0x800 + b20 * 0x400 + b30, 0);
    DivisionUnique(u, 0x800, b31 * 0x200 + b19 * 2 + b20, b30 * 2);
    DivisionUnique(u, 0x1000, b31 * 0x100 + b19, b20 * 0x800 + b30 * 2);
    DivisionUnique(u, 0x10_0000, b31, u - b31 * 0x10_0000);
  }

  // ---------- Whole executions ----------

  /** PC and registers before each instruction. */
  type Execution = nat -> (int, seq<int>)

  /** Execution from address 4 with all registers 0, one instruction of the reference at a time. */
  ghost predicate IsExecution(program: Word -> Word, run: Execution) {
    && run(0).0 == 4 && |run(0).1| == 32 && (forall r :: 0 <= r < 32 ==> run(0).1[r] == 0)
    && forall n: nat :: 0 <= run(n).0 < 0x1_0000_0000 && Performs(program(run(n).0), run(n), run(n + 1))
  }

  lemma {:induction false} ExecutionIsCore(program: Word -> Word, run: Execution, n: nat)
    requires IsExecution(program, run)
    ensures run(n) == (Seq.At(program, n).pc, Seq.At(program, n).regs)
  {
    if n == 0 {
      Seq.AtSteady(program, 0);
      assert run(0).1 == ZeroRegs();
    } else {
      ExecutionIsCore(program, run, n - 1);
      var before := run(n - 1);
      assert Performs(program(before.0), before, run(n - 1 + 1));
      var i: Instr :| Encodable(i) && program(before.0) == Encode(i) && run(n) == Perform(i, before.0, before.1);
      CoreConforms(program, n - 1, i);
    }
  }

  /** A program has an execution of the reference if and only if it is supported. */
  lemma SupportedIffExecutes(program: Word -> Word)
    ensures T.Supported(program) <==> exists run: Execution :: IsExecution(program, run)
  {
    if T.Supported(program) {
      CoreIsExecution(program);
    }
    if run: Execution :| IsExecution(program, run) {
      forall n: nat
        ensures InSubset(Seq.InstrAt(program, n))
      {
        ExecutionIsCore(program, run, n);
        assert Performs(program(run(n).0), run(n), run(n + 1));
        SubsetIsEncoded(Seq.InstrAt(program, n));
      }
    }
  }

  lemma CoreIsExecution(program: Word -> Word)
    requires T.Supported(program)
    ensures IsExecution(program, (n: nat) => (Seq.At(program, n).pc, Seq.At(program, n).regs))
  {
    Seq.AtSteady(program, 0);
    forall n: nat
      ensures var s, s' := Seq.At(program, n), Seq.At(program, n + 1);
        Performs(program(s.pc), (s.pc, s.regs), (s'.pc, s'.regs))
    {
      assert InSubset(Seq.InstrAt(program, n));
      CorePerforms(program, n);
    }
  }

  lemma CorePerforms(program: Word -> Word, n: nat)
    requires InSubset(Seq.InstrAt(program, n))
    ensures var s, s' := Seq.At(program, n), Seq.At(program, n + 1);
      Performs(program(s.pc), (s.pc, s.regs), (s'.pc, s'.regs))
  {
    var s, s' := Seq.At(program, n), Seq.At(program, n + 1);
    SubsetIsEncoded(program(s.pc));
    var i: Instr :| Encodable(i) && Encode(i) == program(s.pc);
    CoreConforms(program, n, i);
    var before, after: (int, seq<int>) := (s.pc, s.regs), (s'.pc, s'.regs);
    assert after == Perform(i, before.0, before.1);
  }

  /** The pipelined core executes the reference: at every cycle its register file is that of the
      reference after the instructions that have retired, and the n-th has by cycle 3n + 12. */
  lemma PipelineConforms(program: Word -> Word, run: Execution, t: nat)
    requires IsExecution(program, run)
    ensures P.Run(program, t).regs == run(T.Retired(program, t)).1
    ensures forall n: nat :: 3 * n + 12 <= t ==> n <= T.Retired(program, t) <= t
  {
    SupportedIffExecutes(program);
    T.PipelineRefinesCore(program, t);
    ExecutionIsCore(program, run, T.Retired(program, t));
    forall n: nat | 3 * n + 12 <= t
      ensures n <= T.Retired(program, t)
    {
      T.RetiresInTime(program, n, t);
    }
  }
}
