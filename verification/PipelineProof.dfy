/** The pipeline executes the instruction stream of the single-cycle core: the register writes
    it performs are, at every cycle, a prefix of that core's, in the same order and with the
    same values. */
module PipelineProof {
  import opened Basics
  import opened RiscvIsa
  import opened Pipeline

  // ---------- The instruction stream ----------

  /** The architectural history of a program: PC and registers before instruction `n`, and the
      value on the write-back bus while it executes. */
  datatype Stream = Stream(pc: nat -> Word, regs: nat -> RegFile, value: nat -> Word)

  ghost function InstrAt(program: Word -> Word, st: Stream, n: nat): Word { program(st.pc(n)) }

  /** The write-back control that instruction word `w` gets in both decoders. */
  function WbOf(w: Word): WbMux {
    if Opcode(w) == OPCODE_OP || Opcode(w) == OPCODE_OPIMM then ReadAluResult
    else if Opcode(w) == OPCODE_JAL then ReadPc4
    else NoWriteback
  }

  /** What an instruction of the subset computes from its sources. */
  function Computes(w: Word, pc: Word, regs: RegFile): Word {
    if Opcode(w) == OPCODE_OP then AluResult(DecodeOp(w), regs[Rs1(w)], regs[Rs2(w)])
    else if Opcode(w) == OPCODE_OPIMM then Wrap(regs[Rs1(w)] + SignExtend12(ImmI(w)))
    else if Opcode(w) == OPCODE_JAL then Wrap(pc + 4)
    else 0
  }

  ghost predicate StreamStep(program: Word -> Word, st: Stream, n: nat) {
    var w := InstrAt(program, st, n);
    && InSubset(w)
    && st.value(n) == Computes(w, st.pc(n), st.regs(n))
    && st.pc(n + 1) == Wrap(st.pc(n) + if Opcode(w) == OPCODE_JAL then JumpImmediate(w) else 4)
    && st.regs(n + 1) == WriteReg(st.regs(n), WbOf(w) != NoWriteback, Rd(w), st.value(n))
  }

  /** `st` is what executing the program one instruction at a time from address 4 gives, and
      every instruction that is executed is in the subset. Words that are only fetched, behind a
      jump, may be anything, and so may all others. */
  ghost predicate IsStream(program: Word -> Word, st: Stream) {
    && st.pc(0) == 4 && st.regs(0) == ZeroRegs()
    && forall n: nat :: StreamStep(program, st, n)
  }

  // ---------- The invariant ----------

  /** Which of the stages hold an instruction rather than a bubble, and how many instructions
      have left the pipeline. The hardware does not record this: the all-zero instruction looks
      like a bubble in the later buffers. */
  datatype Tag = Tag(retired: nat, wb: bool, mem: bool, ex: bool)

  function One(b: bool): nat { if b then 1 else 0 }

  function MemIndex(t: Tag): nat { t.retired + One(t.wb) }

  function ExIndex(t: Tag): nat { MemIndex(t) + One(t.mem) }

  function IdIndex(t: Tag): nat { ExIndex(t) + One(t.ex) }

  /** A buffer that neither writes nor names a register. */
  ghost predicate IsEmpty(b: ResultBuf) {
    b.wb == NoWriteback && (b.rd == None || b.rd == Some(0))
  }

  /** A buffer that carries instruction `n` with its result. */
  ghost predicate Carries(program: Word -> Word, st: Stream, b: ResultBuf, n: nat) {
    var w := InstrAt(program, st, n);
    && b.rd == Some(Rd(w)) && b.wb == WbOf(w) && b.pc == st.pc(n)
    && (b.wb == ReadAluResult ==> b.aluValid && b.alu == st.value(n))
  }

  ghost predicate IdleEx(e: IdEx) {
    && e.alu == AluNop && e.pcMux != AluTarget && e.wb == NoWriteback
    && (e.rd == None || e.rd == Some(0))
    && (e.opcode == None || e.opcode == Some(0))
  }

  /** ID/EX holds instruction `n`, decoded, and the operands that EX will use, after
      forwarding, are the architectural ones. */
  ghost predicate Executes(program: Word -> Word, st: Stream, p: Pipe, n: nat) {
    var w := InstrAt(program, st, n);
    var e := p.idEx;
    && e == Issue(w, st.pc(n), st.regs(n)).(a := e.a, b := e.b)
    && (Opcode(w) == OPCODE_OP || Opcode(w) == OPCODE_OPIMM ==> OperandA(p) == st.regs(n)[Rs1(w)])
    && (Opcode(w) == OPCODE_OP ==> OperandB(p) == st.regs(n)[Rs2(w)])
    && (Opcode(w) == OPCODE_OPIMM ==> OperandB(p) == SignExtend12(ImmI(w)))
    && (Opcode(w) == OPCODE_JAL ==> OperandA(p) == st.pc(n) && OperandB(p) == JumpImmediate(w))
  }

  /** The instruction in ID is the next of the stream. */
  ghost predicate Decodes(program: Word -> Word, st: Stream, p: Pipe, n: nat) {
    p.ifId.valid ==> p.ifId.pc == st.pc(n) && p.ifId.instr == InstrAt(program, st, n)
  }

  /** The instruction being fetched is number `n`; before the first fetch the PC is one behind. */
  ghost predicate Fetches(program: Word -> Word, st: Stream, p: Pipe, n: nat) {
    if p.fetchValid then p.pc == st.pc(n) && p.fetched == program(p.pc)
    else Wrap(p.pc + 4) == st.pc(n)
  }

  ghost predicate JumpInEx(p: Pipe) { p.idEx.pcMux == AluTarget }

  ghost predicate JumpInId(p: Pipe) { p.ifId.valid && Opcode(p.ifId.instr) == OPCODE_JAL }

  /** The back end: register file, MEM/WB, EX/MEM and ID/EX. */
  ghost predicate BackEnd(program: Word -> Word, st: Stream, p: Pipe, t: Tag) {
    && p.regs == st.regs(t.retired)
    && (if t.wb then Carries(program, st, p.memWb, t.retired) else IsEmpty(p.memWb))
    && (if t.mem then Carries(program, st, p.exMem, MemIndex(t)) else IsEmpty(p.exMem))
    && (if t.ex then Executes(program, st, p, ExIndex(t)) else IdleEx(p.idEx))
  }

  /** The front end is on the path of the stream unless a jump that is older has yet to
      redirect it; behind a jump in MEM both younger stages are bubbles. */
  ghost predicate FrontEnd(program: Word -> Word, st: Stream, p: Pipe, t: Tag) {
    && (t.mem && p.exMem.wb == ReadPc4 ==> !t.ex && !p.ifId.valid)
    && (p.ifId.valid ==> p.fetchValid)
    && (!JumpInEx(p) ==>
      && Decodes(program, st, p, IdIndex(t))
      && (!JumpInId(p) ==> Fetches(program, st, p, IdIndex(t) + One(p.ifId.valid))))
  }

  ghost predicate Inv(program: Word -> Word, st: Stream, p: Pipe, t: Tag) {
    BackEnd(program, st, p, t) && FrontEnd(program, st, p, t)
  }

  /** How the stages move on at a clock edge. */
  ghost function NextTag(p: Pipe, t: Tag): Tag {
    Tag(MemIndex(t), t.mem, t.ex, p.ifId.valid && !Flush(p, false) && !Stall(p, false))
  }

  // ---------- Preservation ----------

  /** The edge retires the instruction in MEM/WB and nothing else. */
  lemma RetireStep(program: Word -> Word, st: Stream, p: Pipe, t: Tag)
    requires IsStream(program, st) && BackEnd(program, st, p, t)
    ensures Edge(program, p, false).regs == st.regs(MemIndex(t))
  {
    var regs := Edge(program, p, false).regs;
    if t.wb {
      assert StreamStep(program, st, t.retired);
      forall r: Reg
        ensures regs[r] == st.regs(t.retired + 1)[r]
      {
      }
      assert regs == st.regs(t.retired + 1);
    }
  }

  /** The instruction in EX computes its architectural result. */
  lemma ExecuteStep(program: Word -> Word, st: Stream, p: Pipe, t: Tag)
    requires IsStream(program, st) && BackEnd(program, st, p, t)
    ensures var b := Edge(program, p, false).exMem;
      if t.ex then Carries(program, st, b, ExIndex(t)) else IsEmpty(b)
    ensures t.ex && JumpInEx(p) ==>
      Flush(p, false) && ExResult(p) == st.pc(ExIndex(t) + 1) && Opcode(InstrAt(program, st, ExIndex(t))) == OPCODE_JAL
    ensures !(t.ex && JumpInEx(p)) ==> !Flush(p, false) && !JumpInEx(p)
    ensures t.ex && !JumpInEx(p) ==> Opcode(InstrAt(program, st, ExIndex(t))) != OPCODE_JAL
  {
    if t.ex {
      OccupiedEx(program, st, p, ExIndex(t));
    } else {
      IdleStep(program, p);
    }
  }

  lemma OccupiedEx(program: Word -> Word, st: Stream, p: Pipe, n: nat)
    requires IsStream(program, st) && Executes(program, st, p, n)
    ensures Carries(program, st, Edge(program, p, false).exMem, n)
    ensures var jump := Opcode(InstrAt(program, st, n)) == OPCODE_JAL;
      && (JumpInEx(p) <==> jump) && (Flush(p, false) <==> jump)
      && (jump ==> ExResult(p) == st.pc(n + 1))
  {
    assert StreamStep(program, st, n);
  }

  /** An empty EX stage passes on nothing and redirects nothing. */
  lemma IdleStep(program: Word -> Word, p: Pipe)
    requires IdleEx(p.idEx)
    ensures IsEmpty(Edge(program, p, false).exMem) && !Flush(p, false) && !JumpInEx(p)
  {
  }

  /** The buffer will write register `r`. */
  predicate Names(b: ResultBuf, r: Reg) {
    b.wb != NoWriteback && b.rd != Some(0) && b.rd == Some(r)
  }

  /** A buffer accounts for exactly one step of the stream: what it will write to register `r`,
      if anything, is what the single-cycle core writes there. */
  lemma StageEffect(program: Word -> Word, st: Stream, b: ResultBuf, n: nat, occupied: bool, r: Reg)
    requires IsStream(program, st)
    requires if occupied then Carries(program, st, b, n) else IsEmpty(b)
    ensures WbValid(b) <==> b.wb != NoWriteback
    ensures st.regs(n + One(occupied))[r] == if Names(b, r) then WbData(b) else st.regs(n)[r]
  {
    if occupied {
      assert StreamStep(program, st, n);
    }
  }

  /** In the subset a stage that names a destination other than x0 writes it. */
  lemma DestinationIsWritten(program: Word -> Word, st: Stream, p: Pipe, t: Tag, r: Reg)
    requires IsStream(program, st) && BackEnd(program, st, p, t) && r != 0
    ensures p.idEx.rd == Some(r) ==> p.idEx.wb != NoWriteback
    ensures p.exMem.rd == Some(r) ==> p.exMem.wb != NoWriteback
  {
    assert StreamStep(program, st, MemIndex(t)) && StreamStep(program, st, ExIndex(t));
  }

  /** The forwarding muxes against the register values after each older instruction: the
      youngest match wins, and the write-back stall catches what neither mux covers. */
  lemma MuxesPick(p: Pipe, q: Pipe, r: Reg, v0: Word, v1: Word, v2: Word, v3: Word)
    requires q.memWb == p.exMem && q.exMem.rd == p.idEx.rd && q.exMem.wb == p.idEx.wb != ReadPc4
    requires !WriteBackClash(p, r) && (WbValid(p.memWb) <==> p.memWb.wb != NoWriteback)
    requires r != 0 && p.idEx.rd == Some(r) ==> p.idEx.wb != NoWriteback
    requires r != 0 && p.exMem.rd == Some(r) ==> p.exMem.wb != NoWriteback
    requires v1 == if Names(p.memWb, r) then WbData(p.memWb) else v0
    requires v2 == if Names(p.exMem, r) then WbData(p.exMem) else v1
    requires v3 == if Names(q.exMem, r) then WbData(q.exMem) else v2
    ensures Select(q, ForwardFrom(q.exMem, q.memWb, Some(r)), v0) == v3
  {
  }

  /** Forwarding: a register that ID reads at this edge reaches EX in the next cycle with its
      architectural value, although up to three older instructions are still on their way. */
  lemma OperandArrives(program: Word -> Word, st: Stream, p: Pipe, t: Tag, r: Reg)
    requires IsStream(program, st) && BackEnd(program, st, p, t)
    requires !JumpInEx(p) && !WriteBackClash(p, r)
    ensures var q := Edge(program, p, false);
      Select(q, ForwardFrom(q.exMem, q.memWb, Some(r)), p.regs[r]) == st.regs(IdIndex(t))[r]
  {
    var q := Edge(program, p, false);
    ExecuteStep(program, st, p, t);
    StageEffect(program, st, p.memWb, t.retired, t.wb, r);
    StageEffect(program, st, p.exMem, MemIndex(t), t.mem, r);
    StageEffect(program, st, q.exMem, ExIndex(t), t.ex, r);
    if r != 0 {
      DestinationIsWritten(program, st, p, t, r);
    }
    NoJumpInEx(program, st, p, t);
    MuxesPick(p, q, r, p.regs[r], st.regs(MemIndex(t))[r], st.regs(ExIndex(t))[r], st.regs(IdIndex(t))[r]);
  }

  lemma NoJumpInEx(program: Word -> Word, st: Stream, p: Pipe, t: Tag)
    requires IsStream(program, st) && BackEnd(program, st, p, t) && !JumpInEx(p)
    ensures p.idEx.wb != ReadPc4
  {
  }

  /** Issuing: the instruction in ID moves to EX with its operands in order. */
  lemma IssueStep(program: Word -> Word, st: Stream, p: Pipe, t: Tag)
    requires IsStream(program, st) && Inv(program, st, p, t)
    requires p.ifId.valid && !Flush(p, false) && !Stall(p, false)
    ensures Executes(program, st, Edge(program, p, false), IdIndex(t))
  {
    ExecuteStep(program, st, p, t);
    var w := p.ifId.instr;
    assert w == InstrAt(program, st, IdIndex(t));
    assert StreamStep(program, st, IdIndex(t));
    if UsesRs1(Opcode(w)) {
      OperandArrives(program, st, p, t, Rs1(w));
    }
    if UsesRs2(Opcode(w)) {
      OperandArrives(program, st, p, t, Rs2(w));
    }
  }

  lemma BackEndStep(program: Word -> Word, st: Stream, p: Pipe, t: Tag)
    requires IsStream(program, st) && Inv(program, st, p, t)
    ensures BackEnd(program, st, Edge(program, p, false), NextTag(p, t))
  {
    var q, u := Edge(program, p, false), NextTag(p, t);
    RetireStep(program, st, p, t);
    MemStep(program, st, p, t);
    IdExStep(program, st, p, t);
  }

  lemma MemStep(program: Word -> Word, st: Stream, p: Pipe, t: Tag)
    requires IsStream(program, st) && BackEnd(program, st, p, t)
    ensures var q, u := Edge(program, p, false), NextTag(p, t);
      && (if u.wb then Carries(program, st, q.memWb, u.retired) else IsEmpty(q.memWb))
      && (if u.mem then Carries(program, st, q.exMem, MemIndex(u)) else IsEmpty(q.exMem))
  {
    ExecuteStep(program, st, p, t);
  }

  lemma IdExStep(program: Word -> Word, st: Stream, p: Pipe, t: Tag)
    requires IsStream(program, st) && Inv(program, st, p, t)
    ensures var q := Edge(program, p, false);
      if NextTag(p, t).ex then Executes(program, st, q, IdIndex(t)) else IdleEx(q.idEx)
  {
    if NextTag(p, t).ex {
      IssueStep(program, st, p, t);
    }
  }

  /** A jump in EX: both younger stages are emptied and the target is fetched. */
  lemma FlushStep(program: Word -> Word, st: Stream, p: Pipe, t: Tag)
    requires IsStream(program, st) && Inv(program, st, p, t) && Flush(p, false)
    ensures FrontEnd(program, st, Edge(program, p, false), NextTag(p, t))
  {
    ExecuteStep(program, st, p, t);
  }

  lemma StallStep(program: Word -> Word, st: Stream, p: Pipe, t: Tag)
    requires IsStream(program, st) && Inv(program, st, p, t) && !Flush(p, false) && Stall(p, false)
    ensures FrontEnd(program, st, Edge(program, p, false), NextTag(p, t))
  {
  }

  lemma AdvanceStep(program: Word -> Word, st: Stream, p: Pipe, t: Tag)
    requires IsStream(program, st) && Inv(program, st, p, t) && !Flush(p, false) && !Stall(p, false)
    ensures FrontEnd(program, st, Edge(program, p, false), NextTag(p, t))
  {
    AdvanceFetch(program, st, p, IdIndex(t));
    AdvanceParts(program, st, p, t);
  }

  lemma AdvanceParts(program: Word -> Word, st: Stream, p: Pipe, t: Tag)
    requires !Flush(p, false) && !Stall(p, false) && p.idEx.wb != ReadPc4
    requires p.ifId.valid ==> p.fetchValid
    requires var q, m := Edge(program, p, false), IdIndex(t) + One(p.ifId.valid);
      !JumpInEx(q) ==> Decodes(program, st, q, m) && (!JumpInId(q) ==> Fetches(program, st, q, m + One(q.ifId.valid)))
    ensures FrontEnd(program, st, Edge(program, p, false), NextTag(p, t))
  {
  }

  /** The front end alone: the stages move up and the next word is fetched. */
  lemma AdvanceFetch(program: Word -> Word, st: Stream, p: Pipe, n: nat)
    requires IsStream(program, st) && !Flush(p, false) && !Stall(p, false) && !JumpInEx(p)
    requires Decodes(program, st, p, n)
    requires !JumpInId(p) ==> Fetches(program, st, p, n + One(p.ifId.valid))
    ensures var q, m := Edge(program, p, false), n + One(p.ifId.valid);
      !JumpInEx(q) ==> Decodes(program, st, q, m) && (!JumpInId(q) ==> Fetches(program, st, q, m + One(q.ifId.valid)))
  {
    assert StreamStep(program, st, n + One(p.ifId.valid));
  }

  lemma FrontEndStep(program: Word -> Word, st: Stream, p: Pipe, t: Tag)
    requires IsStream(program, st) && Inv(program, st, p, t)
    ensures FrontEnd(program, st, Edge(program, p, false), NextTag(p, t))
  {
    if Flush(p, false) {
      FlushStep(program, st, p, t);
    } else if Stall(p, false) {
      StallStep(program, st, p, t);
    } else {
      AdvanceStep(program, st, p, t);
    }
  }

  /** Every clock edge keeps the invariant. */
  lemma InvStep(program: Word -> Word, st: Stream, p: Pipe, t: Tag)
    requires IsStream(program, st) && Inv(program, st, p, t)
    ensures Inv(program, st, Edge(program, p, false), NextTag(p, t))
  {
    BackEndStep(program, st, p, t);
    FrontEndStep(program, st, p, t);
  }
}
