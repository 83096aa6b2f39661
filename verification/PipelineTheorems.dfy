/** What the invariant means for whole runs of the pipelined core. */
module PipelineTheorems {
  import opened Basics
  import opened RiscvIsa
  import opened Pipeline
  import opened PipelineProof
  import Seq = DecodeCore

  // ---------- The single-cycle core as the specification ----------

  /** Every instruction that the single-cycle core executes is in the subset. */
  ghost predicate Supported(program: Word -> Word) {
    forall n: nat :: InSubset(Seq.InstrAt(program, n))
  }

  /** The word at `address` is in the subset and, if it is a jump, keeps the PC aligned. */
  predicate StaysAligned(program: Word -> Word, address: Word) {
    && InSubset(program(address))
    && (Opcode(program(address)) == OPCODE_JAL ==> Seq.JumpOffset(program(address)) % 4 == 0)
  }

  lemma SumAligned(pc: Word, offset: Word)
    requires pc % 4 == 0 && offset % 4 == 0
    ensures Wrap(pc + offset) % 4 == 0
  {
  }

  lemma {:induction false} AlignedStaysAligned(program: Word -> Word, n: nat)
    requires forall address: Word | address % 4 == 0 :: StaysAligned(program, address)
    ensures Seq.At(program, n).pc % 4 == 0
  {
    if n == 0 {
      Seq.AtSteady(program, 0);
    } else {
      AlignedStaysAligned(program, n - 1);
      Seq.AtSteady(program, n - 1);
      Seq.AtNext(program, n - 1);
      var s := Seq.At(program, n - 1);
      assert StaysAligned(program, s.pc);
      SumAligned(s.pc, if Opcode(program(s.pc)) == OPCODE_JAL then Seq.JumpOffset(program(s.pc)) else 4);
    }
  }

  /** It is enough that the words at multiples of four are such: what the byte-addressed memory
      shows at other addresses plays no part. */
  lemma AlignedIsSupported(program: Word -> Word)
    requires forall address: Word | address % 4 == 0 :: StaysAligned(program, address)
    ensures Supported(program)
  {
    forall n: nat
      ensures InSubset(Seq.InstrAt(program, n))
    {
      AlignedStaysAligned(program, n);
      assert StaysAligned(program, Seq.At(program, n).pc);
    }
  }

  /** The history of the single-cycle core: `n` is the number of instructions executed. */
  ghost function CoreStream(program: Word -> Word): Stream {
    Stream(n => Seq.At(program, n).pc,
           n => Seq.At(program, n).regs,
           n => Seq.WriteBack(Seq.At(program, n), Seq.InstrAt(program, n)).1)
  }

  /** The two cores assemble the jump offset differently but agree on it. */
  lemma JumpOffsetsAgree(w: Word)
    ensures JumpImmediate(w) == Seq.JumpOffset(w)
  {
  }

  /** On the subset the two decoders agree on what is written and whether it is. */
  lemma DecodersAgree(s: Seq.Core, w: Word)
    requires InSubset(w) && s.addr == s.pc && s.addr4 == Wrap(s.pc + 4)
    ensures Seq.WriteBack(s, w).1 == Computes(w, s.pc, s.regs)
    ensures Seq.WriteBack(s, w).0 <==> WbOf(w) != NoWriteback
    ensures WbOf(w) == NoWriteback ==> Rd(w) == 0
  {
  }

  /** One edge of the single-cycle core, field by field. */
  lemma CoreEdge(program: Word -> Word, s: Seq.Core)
    requires s.request && s.addr == s.pc && s.addr4 == Wrap(s.pc + 4)
    ensures InSubset(program(s.pc)) ==>
      var w, s' := program(s.pc), Seq.Edge(program, s, false);
      && Seq.WriteBack(s, w).1 == Computes(w, s.pc, s.regs)
      && s'.pc == Wrap(s.pc + if Opcode(w) == OPCODE_JAL then JumpImmediate(w) else 4)
      && s'.regs == WriteReg(s.regs, WbOf(w) != NoWriteback, Rd(w), Computes(w, s.pc, s.regs))
  {
  }

  lemma CoreStep(program: Word -> Word, n: nat)
    requires Supported(program)
    ensures StreamStep(program, CoreStream(program), n)
  {
    var s := Seq.At(program, n);
    Seq.AtSteady(program, n);
    Seq.AtNext(program, n);
    assert InSubset(Seq.InstrAt(program, n));
    CoreEdge(program, s);
  }

  lemma CoreIsStream(program: Word -> Word)
    requires Supported(program)
    ensures IsStream(program, CoreStream(program))
  {
    Seq.AtSteady(program, 0);
    forall n: nat
      ensures StreamStep(program, CoreStream(program), n)
    {
      CoreStep(program, n);
    }
  }

  // ---------- Runs ----------

  /** A run of the pipeline from reset, with the occupancy of its stages. */
  type History = nat -> (Pipe, Tag)

  ghost predicate Advances(program: Word -> Word, run: History, t: nat) {
    run(t + 1) == (Edge(program, run(t).0, false), NextTag(run(t).0, run(t).1))
  }

  ghost predicate IsRun(program: Word -> Word, run: History) {
    run(0) == (RESET_STATE, Tag(0, false, false, false)) && forall t: nat :: Advances(program, run, t)
  }

  lemma InvNext(program: Word -> Word, st: Stream, x: (Pipe, Tag), y: (Pipe, Tag))
    requires IsStream(program, st) && Inv(program, st, x.0, x.1)
    requires y == (Edge(program, x.0, false), NextTag(x.0, x.1))
    ensures Inv(program, st, y.0, y.1)
  {
    InvStep(program, st, x.0, x.1);
  }

  lemma ResetFrontEnd(program: Word -> Word, st: Stream)
    requires st.pc(0) == 4
    ensures FrontEnd(program, st, RESET_STATE, Tag(0, false, false, false))
  {
    assert Wrap(RESET_STATE.pc + 4) == 4;
  }

  lemma ResetBackEnd(program: Word -> Word, st: Stream)
    requires st.regs(0) == ZeroRegs()
    ensures BackEnd(program, st, RESET_STATE, Tag(0, false, false, false))
  {
  }

  lemma {:induction false} RunInv(program: Word -> Word, st: Stream, run: History, t: nat)
    requires IsStream(program, st) && IsRun(program, run)
    ensures Inv(program, st, run(t).0, run(t).1)
  {
    if t == 0 {
      ResetFrontEnd(program, st);
      ResetBackEnd(program, st);
    } else {
      RunInv(program, st, run, t - 1);
      assert Advances(program, run, t - 1);
      InvNext(program, st, run(t - 1), run(t));
    }
  }

  /** The register write that one clock edge of the pipeline performs. */
  function EdgeWrite(p: Pipe): seq<Seq.Write> {
    if WbValid(p.memWb) && p.memWb.rd.Some? && p.memWb.rd.value != 0
    then [Seq.Write(p.memWb.rd.value, WbData(p.memWb))] else []
  }

  /** The register writes of the first `t` edges, in order. */
  ghost function RunLog(run: History, t: nat): seq<Seq.Write> {
    Seq.Concat((i: nat) => EdgeWrite(run(i).0), t)
  }

  ghost function StreamWrite(program: Word -> Word, st: Stream, n: nat): seq<Seq.Write> {
    var w := InstrAt(program, st, n);
    if WbOf(w) != NoWriteback && Rd(w) != 0 then [Seq.Write(Rd(w), st.value(n))] else []
  }

  /** The register writes of the first `n` instructions of the stream. */
  ghost function StreamLog(program: Word -> Word, st: Stream, n: nat): seq<Seq.Write> {
    Seq.Concat((i: nat) => StreamWrite(program, st, i), n)
  }

  lemma RetiredWrite(program: Word -> Word, st: Stream, p: Pipe, tag: Tag)
    requires IsStream(program, st) && Inv(program, st, p, tag)
    ensures EdgeWrite(p) == if tag.wb then StreamWrite(program, st, tag.retired) else []
  {
    if tag.wb {
      assert StreamStep(program, st, tag.retired);
    }
  }

  /** One edge lengthens the log by what the stream says, and the register file follows. */
  lemma RefinesStep(program: Word -> Word, st: Stream, p: Pipe, tag: Tag)
    requires IsStream(program, st) && Inv(program, st, p, tag)
    ensures p.regs == st.regs(tag.retired)
    ensures NextTag(p, tag).retired == tag.retired + One(tag.wb)
    ensures StreamLog(program, st, NextTag(p, tag).retired) == StreamLog(program, st, tag.retired) + EdgeWrite(p)
  {
    RetiredWrite(program, st, p, tag);
  }

  lemma {:induction false} RunRefinesStream(program: Word -> Word, st: Stream, run: History, t: nat)
    requires IsStream(program, st) && IsRun(program, run)
    ensures run(t).1.retired <= t && RunLog(run, t) == StreamLog(program, st, run(t).1.retired)
  {
    if t > 0 {
      RunRefinesStream(program, st, run, t - 1);
      RunInv(program, st, run, t - 1);
      assert Advances(program, run, t - 1);
      RefinesStep(program, st, run(t - 1).0, run(t - 1).1);
      assert RunLog(run, t) == RunLog(run, t - 1) + EdgeWrite(run(t - 1).0);
    }
  }

  /** The register file with the write of one buffer applied. */
  function Applied(regs: RegFile, b: ResultBuf): RegFile {
    if b.rd.Some? then WriteReg(regs, WbValid(b), b.rd.value, WbData(b)) else regs
  }

  lemma InFlight(program: Word -> Word, st: Stream, p: Pipe, tag: Tag)
    requires IsStream(program, st) && Inv(program, st, p, tag)
    ensures Applied(Applied(p.regs, p.memWb), p.exMem) == st.regs(ExIndex(tag))
  {
    var regs := Applied(Applied(p.regs, p.memWb), p.exMem);
    forall r: Reg
      ensures regs[r] == st.regs(ExIndex(tag))[r]
    {
      StageEffect(program, st, p.memWb, tag.retired, tag.wb, r);
      StageEffect(program, st, p.exMem, MemIndex(tag), tag.mem, r);
    }
  }

  // ---------- Progress, one edge at a time ----------

  /** No register is named by this buffer's or stage's write. */
  predicate Silent(wb: WbMux, rd: Option<Reg>) {
    wb == NoWriteback || rd == None || rd == Some(0)
  }

  predicate ExSilent(p: Pipe) { Silent(p.idEx.wb, p.idEx.rd) }

  predicate MemSilent(p: Pipe) { Silent(p.exMem.wb, p.exMem.rd) }

  predicate WbSilent(p: Pipe) { Silent(p.memWb.wb, p.memWb.rd) }

  /** An upper bound, up to one cycle of credit, on the cycles until ID issues. */
  ghost function Wait(program: Word -> Word, p: Pipe): nat {
    if JumpInEx(p) then 3
    else if !p.ifId.valid then (if p.fetchValid then 2 else 3)
    else if !Stall(p, false) then
      (if ExSilent(p) && MemSilent(p) && WbSilent(p) && !JumpInId(p) then 0 else 1)
    else if ExSilent(p) && MemSilent(p) then 1
    else if Stall(Edge(program, p, false), false) then 3
    else 2
  }

  /** What progress needs of a state: no load in EX, nothing in EX beside an empty ID, and a
      jump in EX always flushes. */
  ghost predicate Flows(p: Pipe) {
    && p.idEx.opcode != Some(OPCODE_LOAD)
    && (!p.ifId.valid && !JumpInEx(p) ==> ExSilent(p))
    && (JumpInEx(p) ==> Flush(p, false))
    && (p.ifId.valid ==> p.fetchValid)
  }

  lemma FlowsStep(program: Word -> Word, st: Stream, p: Pipe, tag: Tag)
    requires IsStream(program, st) && Inv(program, st, p, tag) && (p.ifId.valid ==> p.fetchValid)
    ensures Flows(Edge(program, p, false))
  {
    var q, u := Edge(program, p, false), NextTag(p, tag);
    InvStep(program, st, p, tag);
    ExecuteStep(program, st, q, u);
    if u.ex {
      assert StreamStep(program, st, ExIndex(u));
    }
  }

  /** A cycle that issues nothing shortens the wait, and one that issues an instruction leaves
      a wait at most two longer. */
  lemma WaitStep(program: Word -> Word, p: Pipe, q: Pipe)
    requires q == Edge(program, p, false) && Flows(p) && Flows(q)
    requires Flows(Edge(program, q, false))
    ensures p.ifId.valid && !Flush(p, false) && !Stall(p, false) ==> Wait(program, q) <= Wait(program, p) + 2
    ensures !(p.ifId.valid && !Flush(p, false) && !Stall(p, false)) ==> Wait(program, q) + 1 <= Wait(program, p)
  {
  }

  lemma {:induction false} RunFlows(program: Word -> Word, st: Stream, run: History, t: nat)
    requires IsStream(program, st) && IsRun(program, run)
    ensures Flows(run(t).0)
  {
    if t > 0 {
      RunFlows(program, st, run, t - 1);
      RunInv(program, st, run, t - 1);
      assert Advances(program, run, t - 1);
      FlowsStep(program, st, run(t - 1).0, run(t - 1).1);
    }
  }

  lemma {:induction false} IssueRate(program: Word -> Word, st: Stream, run: History, t: nat)
    requires IsStream(program, st) && IsRun(program, run)
    ensures t + Wait(program, run(t).0) <= 3 * IdIndex(run(t).1) + 3
  {
    if t > 0 {
      IssueRate(program, st, run, t - 1);
      RunFlows(program, st, run, t - 1);
      RunFlows(program, st, run, t);
      RunFlows(program, st, run, t + 1);
      assert Advances(program, run, t - 1) && Advances(program, run, t);
      WaitStep(program, run(t - 1).0, run(t).0);
    }
  }

  // ---------- The theorems, for the two cores ----------

  ghost function OccupancyAt(program: Word -> Word, t: nat): Tag {
    if t == 0 then Tag(0, false, false, false)
    else NextTag(Run(program, t - 1), OccupancyAt(program, t - 1))
  }

  ghost function TheRun(program: Word -> Word): History {
    (t: nat) => (Run(program, t), OccupancyAt(program, t))
  }

  lemma TheRunIsRun(program: Word -> Word)
    ensures IsRun(program, TheRun(program))
  {
  }

  /** The register writes of the pipeline's first `t` edges after reset, in order. */
  ghost function Log(program: Word -> Word, t: nat): seq<Seq.Write> {
    RunLog(TheRun(program), t)
  }

  lemma CoreWrite(program: Word -> Word, n: nat)
    requires Supported(program)
    ensures Seq.WritesOf(program, n) == StreamWrite(program, CoreStream(program), n)
  {
  }

  lemma CoreLogIsStreamLog(program: Word -> Word, n: nat)
    requires Supported(program)
    ensures Seq.Log(program, n) == StreamLog(program, CoreStream(program), n)
  {
    forall m: nat | m < n
      ensures Seq.WritesOf(program, m) == StreamWrite(program, CoreStream(program), m)
    {
      CoreWrite(program, m);
    }
    Seq.ConcatSame((m: nat) => Seq.WritesOf(program, m), (m: nat) => StreamWrite(program, CoreStream(program), m), n);
  }

  /** The number of instructions that have left the pipeline. */
  ghost function Retired(program: Word -> Word, t: nat): nat {
    TheRun(program)(t).1.retired
  }

  /** The pipeline refines the single-cycle core: at every cycle its register writes so far are
      exactly those of the first instructions of that core, in order, and its register file is
      that core's after them. */
  lemma PipelineRefinesCore(program: Word -> Word, t: nat)
    requires Supported(program)
    ensures Retired(program, t) <= t
    ensures Log(program, t) == Seq.Log(program, Retired(program, t))
    ensures Run(program, t).regs == Seq.At(program, Retired(program, t)).regs
  {
    CoreIsStream(program);
    TheRunIsRun(program);
    RunRefinesStream(program, CoreStream(program), TheRun(program), t);
    RunInv(program, CoreStream(program), TheRun(program), t);
    RefinesStep(program, CoreStream(program), TheRun(program)(t).0, TheRun(program)(t).1);
    CoreLogIsStreamLog(program, Retired(program, t));
  }

  /** So the two cores, run side by side, never disagree: one log is a prefix of the other. */
  lemma LogsArePrefixes(program: Word -> Word, t: nat)
    requires Supported(program)
    ensures Log(program, t) <= Seq.Log(program, t)
  {
    PipelineRefinesCore(program, t);
    Seq.ConcatGrows((m: nat) => Seq.WritesOf(program, m), Retired(program, t), t);
  }

  /** With the writes that are in flight applied, the register file is the one that the
      instruction in EX must see. */
  lemma InFlightWrites(program: Word -> Word, t: nat)
    requires Supported(program)
    ensures var (p, tag) := TheRun(program)(t);
      Applied(Applied(p.regs, p.memWb), p.exMem) == Seq.At(program, ExIndex(tag)).regs
  {
    CoreIsStream(program);
    TheRunIsRun(program);
    RunInv(program, CoreStream(program), TheRun(program), t);
    InFlight(program, CoreStream(program), TheRun(program)(t).0, TheRun(program)(t).1);
  }

  /** Whatever executes is the next instruction of the stream, and both operand muxes deliver
      the values that the single-cycle core reads for it; so nothing fetched behind a jump gets
      as far as EX. */
  ghost predicate ExecutesAs(program: Word -> Word, p: Pipe, pc: Word, regs: RegFile) {
    var w := program(pc);
    && p.idEx.pc == pc && p.idEx.opcode == Some(Opcode(w)) && p.idEx.rd == Some(Rd(w))
    && (UsesRs1(Opcode(w)) ==> OperandA(p) == regs[Rs1(w)])
    && (UsesRs2(Opcode(w)) ==> OperandB(p) == regs[Rs2(w)])
  }

  /** Nothing that EX holds will be written or redirects the PC. */
  ghost predicate ExPassive(p: Pipe) {
    !Flush(p, false) && !JumpInEx(p) && ExSilent(p) && p.idEx.wb == NoWriteback
  }

  lemma ExecutesInOrder(program: Word -> Word, st: Stream, p: Pipe, tag: Tag)
    requires IsStream(program, st) && Inv(program, st, p, tag)
    ensures if tag.ex then ExecutesAs(program, p, st.pc(ExIndex(tag)), st.regs(ExIndex(tag))) else ExPassive(p)
  {
    if tag.ex {
      assert StreamStep(program, st, ExIndex(tag));
    }
  }

  lemma OperandsAreArchitectural(program: Word -> Word, t: nat)
    requires Supported(program)
    ensures var (p, tag) := TheRun(program)(t);
      var s := Seq.At(program, ExIndex(tag));
      if tag.ex then ExecutesAs(program, p, s.pc, s.regs) else ExPassive(p)
  {
    CoreIsStream(program);
    TheRunIsRun(program);
    RunInv(program, CoreStream(program), TheRun(program), t);
    ExecutesInOrder(program, CoreStream(program), TheRun(program)(t).0, TheRun(program)(t).1);
  }

  // ---------- Stalls in any state ----------

  /** The instruction in ID/EX takes an operand from register `r`. */
  predicate TakesFrom(q: IdEx, r: Reg) {
    || (q.opcode in {Some(0x33), Some(0x13), Some(0x03)} && q.rs1 == Some(r))
    || (q.opcode == Some(0x33) && q.rs2 == Some(r))
  }

  /** The word takes an operand from register `r`, which is not x0. */
  predicate NeedsRegister(w: Word, r: Reg) {
    r != 0 && ((w % 0x80 in {0x33, 0x13, 0x03} && w / 0x8000 % 32 == r) || (w % 0x80 == 0x33 && w / 0x10_0000 % 32 == r))
  }

  /** Whatever the pipeline holds, no instruction enters EX right behind a load that it depends on. */
  lemma LoadUseWaits(program: Word -> Word, p: Pipe, r: Reg)
    requires p.idEx.opcode == Some(0x03) && p.idEx.rd == Some(r) && r != 0
    ensures !TakesFrom(Edge(program, p, false).idEx, r)
  {
  }

  /** ID waits for a reason only: it needs a register that the load in EX loads, or one that is
      written in this cycle. */
  lemma StallHasReason(p: Pipe)
    requires Stall(p, false)
    ensures p.ifId.valid && exists r: Reg :: WaitsFor(p, r)
  {
    var w := p.ifId.instr;
    assert WaitsFor(p, Rs1(w)) || WaitsFor(p, Rs2(w));
  }

  predicate WaitsFor(p: Pipe, r: Reg) {
    && NeedsRegister(p.ifId.instr, r)
    && ((p.idEx.opcode == Some(0x03) && p.idEx.rd == Some(r)) || (WbValid(p.memWb) && p.memWb.rd == Some(r)))
  }

  /** Progress: after 3n + 12 edges at least `n` instructions have retired, whatever stalls and
      jumps occur. */
  lemma RetiresInTime(program: Word -> Word, n: nat, t: nat)
    requires Supported(program) && 3 * n + 12 <= t
    ensures n <= Retired(program, t)
  {
    CoreIsStream(program);
    TheRunIsRun(program);
    IssueRate(program, CoreStream(program), TheRun(program), t);
  }

  /** Hence every write of the single-cycle core reaches the pipeline's register file: by edge
      3n + 12 the log of the first `n` instructions has been written. */
  lemma EveryWriteArrives(program: Word -> Word, n: nat)
    requires Supported(program)
    ensures Seq.Log(program, n) <= Log(program, 3 * n + 12)
  {
    var t := 3 * n + 12;
    RetiresInTime(program, n, t);
    PipelineRefinesCore(program, t);
    Seq.ConcatGrows((m: nat) => Seq.WritesOf(program, m), n, Retired(program, t));
  }

  ghost predicate StallsAt(run: History, t: nat) {
    Stall(run(t).0, false)
  }

  /** In a load-free program the pipeline never stalls three cycles in a row. */
  lemma AtMostTwoStalls(program: Word -> Word, t: nat)
    requires Supported(program)
    ensures var run := TheRun(program); !(StallsAt(run, t) && StallsAt(run, t + 1) && StallsAt(run, t + 2))
  {
  }

  /** The instruction reads register `r`. */
  predicate Reads(w: Word, r: Reg) {
    (UsesRs1(Opcode(w)) && Rs1(w) == r) || (UsesRs2(Opcode(w)) && Rs2(w) == r)
  }

  /** The two edges after a flush, and when a third slot is lost. */
  lemma AfterFlush(program: Word -> Word, p: Pipe, q: Pipe, r: Pipe)
    requires q == Edge(program, p, false) && r == Edge(program, q, false)
    requires Flush(p, false) && p.idEx.wb == ReadPc4 && p.idEx.rd.Some?
    ensures !q.ifId.valid && q.idEx == BUBBLE && r.idEx.wb == NoWriteback && r.idEx.pcMux != AluTarget
    ensures r.ifId == IfId(true, program(ExResult(p)), ExResult(p))
    ensures Stall(r, false) <==> p.idEx.rd != Some(0) && Reads(r.ifId.instr, p.idEx.rd.value)
  {
  }

  /** A jump loses two slots: two edges after it is in EX, the instruction at its target is in
      ID and nothing executes before it; it waits one cycle more if and only if it reads the
      jump's own link register. */
  lemma JumpLosesTwoSlots(program: Word -> Word, t: nat)
    requires Supported(program) && Flush(Run(program, t), false)
    ensures JumpCost(program, CoreStream(program), TheRun(program), t)
  {
    CoreIsStream(program);
    TheRunIsRun(program);
    CostOfJump(program, CoreStream(program), TheRun(program), t);
  }

  ghost predicate JumpCost(program: Word -> Word, st: Stream, run: History, t: nat) {
    var n := ExIndex(run(t).1);
    var jump, target := InstrAt(program, st, n), InstrAt(program, st, n + 1);
    && Opcode(jump) == OPCODE_JAL
    && !run(t + 1).1.ex && !run(t + 2).1.ex
    && run(t + 2).0.ifId == IfId(true, target, st.pc(n + 1))
    && (Stall(run(t + 2).0, false) <==> Rd(jump) != 0 && Reads(target, Rd(jump)))
  }

  lemma CostOfJump(program: Word -> Word, st: Stream, run: History, t: nat)
    requires IsStream(program, st) && IsRun(program, run) && Flush(run(t).0, false)
    ensures JumpCost(program, st, run, t)
  {
    var (p, tag) := run(t);
    RunInv(program, st, run, t);
    ExecuteStep(program, st, p, tag);
    JumpInPipe(program, st, p, tag);
    assert Advances(program, run, t) && Advances(program, run, t + 1);
    AfterFlush(program, p, run(t + 1).0, run(t + 2).0);
  }

  lemma JumpInPipe(program: Word -> Word, st: Stream, p: Pipe, tag: Tag)
    requires IsStream(program, st) && Inv(program, st, p, tag) && Flush(p, false)
    ensures tag.ex && p.idEx.wb == ReadPc4 && p.idEx.rd == Some(Rd(InstrAt(program, st, ExIndex(tag))))
  {
  }
}
