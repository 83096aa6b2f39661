/** A process that stops while it is current and is started again: one run in which it gets its
    old table's frame back and all is well, and one in which it does not, is served by another
    process's page table, and that process reads a byte it never wrote. */
module VmRestart {
  import opened Basics
  import opened VmModel
  import opened VmInvariant
  import opened VmLifecycle
  import opened VmRefinement

  /** Four frames, one one-byte page per process, two processes. */
  const SMALL := Geometry(4, 1, 1, 2)

  function NeverOdd(): nat -> bool { (_: nat) => false }

  function Do(op: Op): Event { Event(op, NeverOdd()) }

  const KEPT := Fte(true, false, false, None, 0)
  const FREE := Fte(false, false, false, None, 0)

  /** A state of the small machine whose frame 3 is never used. */
  function Small(one: Frame, two: Frame, fte1: Fte, fte2: Fte, pcb0: Pcb, pcb1: Pcb, ptbr: nat,
                 current: Option<nat>, stats: Stats): Vm {
    Vm(SMALL, [FrameTable, one, two, Page([0])], [KEPT, fte1, fte2, FREE], [pcb0, pcb1], ptbr, current, map[], 1, stats)
  }

  const STOPPED := Pcb(false, 0)
  const NOTHING := Stats(0, 0, 0, 0, 0)
  const ONE_WRITE := Stats(1, 0, 1, 1, 0)

  const BOOTED := Small(Page([0]), Page([0]), FREE, FREE, STOPPED, STOPPED, 0, None, NOTHING)
  const STARTED0 := Small(PageTable([ZERO_PTE]), Page([0]), KEPT, FREE, Pcb(true, 1), STOPPED, 0, None, NOTHING)
  const WRITTEN := Small(PageTable([Pte(true, true, 2, 0)]), Page([7]), KEPT, Fte(false, true, true, Some(0), 0),
                         Pcb(true, 1), STOPPED, 1, Some(0), ONE_WRITE)
  const STOPPED0 := Small(PageTable([Pte(false, true, 2, 0)]), Page([7]), FREE, FREE,
                          STOPPED, STOPPED, 1, Some(0), ONE_WRITE)
  const STARTED1 := Small(PageTable([ZERO_PTE]), Page([7]), KEPT, FREE,
                          STOPPED, Pcb(true, 1), 1, Some(0), ONE_WRITE)
  const RESTARTED0 := Small(PageTable([ZERO_PTE]), PageTable([ZERO_PTE]), KEPT, KEPT,
                            Pcb(true, 2), Pcb(true, 1), 1, Some(0), ONE_WRITE)

  lemma Boots()
    ensures Boot(SMALL) == BOOTED
  {
    assert Zeros(1) == [0];
    assert Boot(SMALL).mem == BOOTED.mem;
    assert Boot(SMALL).ft == BOOTED.ft;
    assert Boot(SMALL).procs == BOOTED.procs;
  }

  lemma FreshTable(s: Vm)
    requires s.g == SMALL
    ensures seq(s.g.pages, _ => ZERO_PTE) == [ZERO_PTE]
  {
  }

  lemma Starts0()
    ensures AllEvictable(BOOTED) && Start(BOOTED, 0, NeverOdd()) == Done(STARTED0)
  {
    var ft := BOOTED.ft;
    assert FirstFree(ft, 0) == FirstFree(ft, 1) == Some(1);
    FreshTable(BOOTED);
    assert InstallTable(BOOTED, 0, 1).mem == STARTED0.mem;
    assert InstallTable(BOOTED, 0, 1).procs == STARTED0.procs;
    assert InstallTable(BOOTED, 0, 1).ft == STARTED0.ft;
  }

  /** Process 0 writes 7 at address 0: a fault takes frame 2. */
  lemma Writes0()
    requires Inv(STARTED0)
    ensures Access(STARTED0, 0, 0, false, 7, NeverOdd()) == Done((WRITTEN, 7))
  {
    var s := Entered(STARTED0, 0);
    SwitchInv(STARTED0, 0, s.stats);
    assert FirstFree(s.ft, 0) == FirstFree(s.ft, 1) == FirstFree(s.ft, 2) == Some(2);
    var counted := s.(stats := s.stats.(pageFaults := 1));
    assert FreeFrame(counted, NeverOdd()) == Done((counted, 2));
    assert Zeros(1) == [0];
    var mapped := MapFrame(counted, 0, 0, 2).value;
    assert [ZERO_PTE][0 := Pte(true, false, 2, 0)] == [Pte(true, false, 2, 0)];
    assert mapped.mem == [FrameTable, PageTable([Pte(true, false, 2, 0)]), Page([0]), Page([0])];
    assert mapped.ft == [KEPT, KEPT, Fte(false, true, false, Some(0), 0), FREE];
    CanFaultHere(s, 0, 0);
    assert PageFault(s, 0, 0, NeverOdd()) == Done(mapped);
    var touched := Touch(mapped, 0, 0, false, 7).0;
    assert [Pte(true, false, 2, 0)][0 := Pte(true, true, 2, 0)] == [Pte(true, true, 2, 0)] && [0][0 := 7] == [7];
    assert touched.mem == WRITTEN.mem && touched.ft == WRITTEN.ft;
  }

  lemma Stops0()
    requires Inv(WRITTEN)
    ensures TableFits(WRITTEN, 1) && Stop(WRITTEN, 0) == Done(STOPPED0)
  {
    var cleaned := CleanupPage(WRITTEN, 1, 0).value;
    assert [Pte(true, true, 2, 0)][0 := Pte(false, true, 2, 0)] == [Pte(false, true, 2, 0)];
    assert cleaned.mem == STOPPED0.mem;
    assert cleaned.ft == [KEPT, KEPT, FREE, FREE];
    assert CleanupFrom(cleaned, 1, 1) == Done(cleaned);
    assert Stop(WRITTEN, 0).value.ft == STOPPED0.ft;
    assert Stop(WRITTEN, 0).value.procs == STOPPED0.procs;
  }

  lemma Starts1()
    ensures AllEvictable(STOPPED0) && Start(STOPPED0, 1, NeverOdd()) == Done(STARTED1)
  {
    assert FirstFree(STOPPED0.ft, 0) == FirstFree(STOPPED0.ft, 1) == Some(1);
    FreshTable(STOPPED0);
    assert InstallTable(STOPPED0, 1, 1).mem == STARTED1.mem;
    assert InstallTable(STOPPED0, 1, 1).procs == STARTED1.procs;
    assert InstallTable(STOPPED0, 1, 1).ft == STARTED1.ft;
  }

  lemma Restarts0()
    ensures AllEvictable(STARTED1) && Start(STARTED1, 0, NeverOdd()) == Done(RESTARTED0)
    ensures FirstFree(STARTED1.ft, 0) == Some(2)
  {
    assert FirstFree(STARTED1.ft, 0) == FirstFree(STARTED1.ft, 1) == FirstFree(STARTED1.ft, 2) == Some(2);
    FreshTable(STARTED1);
    assert InstallTable(STARTED1, 0, 2).mem == RESTARTED0.mem;
    assert InstallTable(STARTED1, 0, 2).procs == RESTARTED0.procs;
    assert InstallTable(STARTED1, 0, 2).ft == RESTARTED0.ft;
  }

  /** One more line that leads from `s` to `r`. */
  lemma Line(trace: seq<Event>, op: Op, s: Vm, r: Vm)
    requires WellFormed(SMALL, trace) && Exec(SMALL, trace) == Done(s) && Legal(SMALL, trace, op)
    requires op.StartOp? ==> KeepsItsTable(s, op.pid)
    requires CanStep(s, op) ==> Step(s, Do(op)).Done? && Step(s, Do(op)).value.0 == r
    ensures WellFormed(SMALL, trace + [Do(op)]) && Exec(SMALL, trace + [Do(op)]) == Done(r)
    ensures op.StartOp? ==> RunningAfter(trace + [Do(op)]) == RunningAfter(trace) + {op.pid}
    ensures op.StopOp? ==> RunningAfter(trace + [Do(op)]) == RunningAfter(trace) - {op.pid}
    ensures op.AccessOp? ==> RunningAfter(trace + [Do(op)]) == RunningAfter(trace)
    ensures CurrentAfter(trace + [Do(op)]) == if op.AccessOp? then Some(op.pid) else CurrentAfter(trace)
  {
    assert (trace + [Do(op)])[..|trace|] == trace;
    ExecOneMore(SMALL, trace, Do(op));
  }

  /** Process 0 starts, writes and stops, and process 1 starts. */
  function Lines(): seq<Event> {
    [Do(StartOp(0)), Do(AccessOp(0, 0, false, 7)), Do(StopOp(0)), Do(StartOp(1))]
  }

  /** The three lines that both runs begin with. */
  function FirstLines(): seq<Event> {
    [Do(StartOp(0)), Do(AccessOp(0, 0, false, 7)), Do(StopOp(0))]
  }

  lemma FirstLineLeads()
    ensures WellFormed(SMALL, FirstLines()[..1]) && Exec(SMALL, FirstLines()[..1]) == Done(STARTED0)
    ensures RunningAfter(FirstLines()[..1]) == {0}
  {
    Boots();
    Starts0();
    Line([], StartOp(0), BOOTED, STARTED0);
    assert FirstLines()[..1] == [] + [Do(StartOp(0))];
  }

  lemma SecondLineLeads()
    ensures WellFormed(SMALL, FirstLines()[..2]) && Exec(SMALL, FirstLines()[..2]) == Done(WRITTEN)
    ensures RunningAfter(FirstLines()[..2]) == {0}
  {
    FirstLineLeads();
    Writes0();
    Line(FirstLines()[..1], AccessOp(0, 0, false, 7), STARTED0, WRITTEN);
    assert FirstLines()[..2] == FirstLines()[..1] + [Do(AccessOp(0, 0, false, 7))];
  }

  lemma FirstLinesLead()
    ensures WellFormed(SMALL, FirstLines()) && Exec(SMALL, FirstLines()) == Done(STOPPED0)
    ensures RunningAfter(FirstLines()) == {}
  {
    SecondLineLeads();
    Stops0();
    Line(FirstLines()[..2], StopOp(0), WRITTEN, STOPPED0);
    assert FirstLines() == FirstLines()[..2] + [Do(StopOp(0))];
  }

  lemma LinesLead()
    ensures WellFormed(SMALL, Lines()) && Exec(SMALL, Lines()) == Done(STARTED1)
  {
    FirstLinesLead();
    Starts1();
    Line(FirstLines(), StartOp(1), STOPPED0, STARTED1);
    assert Lines() == FirstLines() + [Do(StartOp(1))];
  }

  const AGAIN0 := Small(PageTable([ZERO_PTE]), Page([7]), KEPT, FREE,
                        Pcb(true, 1), STOPPED, 1, Some(0), ONE_WRITE)

  lemma StartsAgain0()
    ensures AllEvictable(STOPPED0) && Start(STOPPED0, 0, NeverOdd()) == Done(AGAIN0)
    ensures FirstFree(STOPPED0.ft, 0) == Some(STOPPED0.ptbr)
  {
    assert FirstFree(STOPPED0.ft, 0) == FirstFree(STOPPED0.ft, 1) == Some(1);
    FreshTable(STOPPED0);
    assert InstallTable(STOPPED0, 0, 1).mem == AGAIN0.mem;
    assert InstallTable(STOPPED0, 0, 1).procs == AGAIN0.procs;
    assert InstallTable(STOPPED0, 0, 1).ft == AGAIN0.ft;
  }

  /** Process 0 starts, writes, stops and starts again at once: it gets frame 1 back, and the
      trace is among those that the main theorems speak of. */
  function GoodLines(): seq<Event> {
    [Do(StartOp(0)), Do(AccessOp(0, 0, false, 7)), Do(StopOp(0)), Do(StartOp(0))]
  }

  lemma RestartKeepsItsTable()
    ensures WellFormed(SMALL, GoodLines()) && EnoughFrames(SMALL, GoodLines())
    ensures After(SMALL, GoodLines()) == AGAIN0
  {
    FirstLinesLead();
    StartsAgain0();
    Line(FirstLines(), StartOp(0), STOPPED0, AGAIN0);
    assert GoodLines() == FirstLines() + [Do(StartOp(0))];
    CompletesIff(SMALL, GoodLines());
  }

  // ---------- Without its own table ----------

  /** An access line in any state whatsoever, as the program carries it out: nothing checks that
      PTBR names the table of process `p`. None where it would read or write outside the frames
      that hold page tables and data. */
  function RawAccess(s: Vm, p: nat, address: nat, isRead: bool, data: Byte, coin: nat -> bool): Option<(Vm, Byte)>
    requires s.g.Valid() && p < |s.procs|
  {
    var t, v, o := Entered(s, p), Vpn(s.g, address), Offset(s.g, address);
    if !HasPte(t, t.ptbr, v) then None
    else if PteAt(t, t.ptbr, v).valid then RawTouch(t, v, o, isRead, data)
    else if !CanFault(t, v) then None
    else
      var r := PageFault(t, p, v, coin);
      if r.Panic? then None else RawTouch(r.value, v, o, isRead, data)
  }

  function RawTouch(s: Vm, v: nat, o: nat, isRead: bool, data: Byte): Option<(Vm, Byte)> {
    if HasPte(s, s.ptbr, v) && Touchable(s, PteAt(s, s.ptbr, v).pfn, o) then Some(Touch(s, v, o, isRead, data))
    else None
  }

  predicate Touchable(s: Vm, f: nat, o: nat) {
    f < |s.mem| == |s.ft| && f != s.ptbr && s.mem[f].Page? && o < |s.mem[f].bytes|
  }

  /** In a consistent state this is the access that the theorems are about. */
  lemma RawAccessAgrees(s: Vm, p: nat, address: nat, isRead: bool, data: Byte, coin: nat -> bool)
    requires Inv(s) && Running(s, p) && address < s.g.pages * s.g.pageSize
    ensures var r := Access(s, p, address, isRead, data, coin);
      RawAccess(s, p, address, isRead, data, coin) == if r.Panic? then None else Some(r.value)
  {
    var t, v, o := Entered(s, p), Vpn(s.g, address), Offset(s.g, address);
    PageInRange(s.g, address);
    SwitchInv(s, p, t.stats);
    PresentInv(t, p, v, coin);
    CanFaultHere(t, p, v);
    var r := Present(t, p, v, coin);
    if r.Done? {
      assert CurrentOk(r.value);
      TouchInv(r.value, p, v, o, isRead, data);
    }
  }

  lemma PageFaultKeeps(s: Vm, p: nat, v: nat, coin: nat -> bool)
    requires CanFault(s, v) && PageFault(s, p, v, coin).Done?
    ensures var r := PageFault(s, p, v, coin).value;
      && r.g == s.g && r.procs == s.procs && r.ptbr == s.ptbr && r.current == s.current
      && HasPte(r, r.ptbr, v) && PteAt(r, r.ptbr, v).valid
  {
    var s1 := s.(stats := s.stats.(pageFaults := s.stats.pageFaults + 1));
    PageFaultIsRefill(s, s1, p, v, coin);
    EvictKeepsShape(s1, FreeFrame(s1, coin).value.1);
  }

  /** Whatever state it is: if the current process `p` is served by the table of process `q`, each
      byte that `p` writes is what `q` reads next at that address. */
  lemma SharedTableLeaks(s: Vm, p: nat, q: nat, address: nat, data: Byte, coin: nat -> bool)
    requires s.g.Valid() && p < |s.procs| && q < |s.procs| && p != q
    requires s.current == Some(p) && s.ptbr == s.procs[q].savedPtbr
    requires RawAccess(s, p, address, false, data, coin).Some?
    ensures var w := RawAccess(s, p, address, false, data, coin).value.0;
      && w.g == s.g && q < |w.procs|
      && var read := RawAccess(w, q, address, true, data, coin);
      && read.Some? && read.value.1 == data
  {
    var t, v := Entered(s, p), Vpn(s.g, address);
    if !PteAt(t, t.ptbr, v).valid {
      PageFaultKeeps(t, p, v, coin);
    }
  }

  /** A restart that does not get its table's frame back because another process has it by now is
      served by that process's table. */
  lemma RestartIsServedByOwner(s: Vm, p: nat, coin: nat -> bool)
    requires Inv(s) && p < s.g.maxPid && !Running(s, p) && s.current == Some(p)
    requires s.ft[s.ptbr].protected
    ensures AllEvictable(s)
    ensures Start(s, p, coin).Done? ==>
      var r := Start(s, p, coin).value;
      && r.current == Some(p)
      && exists q: nat :: q != p && Running(r, q) && r.ptbr == r.procs[q].savedPtbr
  {
    FreeFrameInv(s, coin);
    var q: nat :| Running(s, q) && s.procs[q].savedPtbr == s.ptbr;
    if FreeFrame(s, coin).Done? {
      var r := Start(s, p, coin).value;
      assert Running(r, q) && r.ptbr == r.procs[q].savedPtbr;
    }
  }

  /** Process 0 has written 9 through the page table of process 1. */
  const STOLEN := Vm(SMALL,
    [FrameTable, PageTable([Pte(true, true, 3, 0)]), PageTable([ZERO_PTE]), Page([9])],
    [KEPT, KEPT, KEPT, Fte(false, true, true, Some(0), 0)],
    [Pcb(true, 2), Pcb(true, 1)], 1, Some(0), map[], 1, Stats(2, 0, 2, 2, 0))

  lemma Steals()
    ensures RawAccess(RESTARTED0, 0, 0, false, 9, NeverOdd()) == Some((STOLEN, 9))
  {
    var s := Entered(RESTARTED0, 0);
    assert FirstFree(s.ft, 0) == FirstFree(s.ft, 1) == FirstFree(s.ft, 2) == FirstFree(s.ft, 3) == Some(3);
    var counted := s.(stats := s.stats.(pageFaults := 2));
    assert AllEvictable(s) && CanFault(s, 0);
    assert FreeFrame(counted, NeverOdd()) == Done((counted, 3));
    assert Zeros(1) == [0];
    var mapped := MapFrame(counted, 0, 0, 3).value;
    assert [ZERO_PTE][0 := Pte(true, false, 3, 0)] == [Pte(true, false, 3, 0)];
    assert mapped.mem == [FrameTable, PageTable([Pte(true, false, 3, 0)]), PageTable([ZERO_PTE]), Page([0])];
    assert mapped.ft == [KEPT, KEPT, KEPT, Fte(false, true, false, Some(0), 0)];
    assert PageFault(s, 0, 0, NeverOdd()) == Done(mapped);
    assert [Pte(true, false, 3, 0)][0 := Pte(true, true, 3, 0)] == [Pte(true, true, 3, 0)] && [0][0 := 9] == [9];
    var touched := Touch(mapped, 0, 0, false, 9).0;
    assert touched.mem == STOLEN.mem && touched.ft == STOLEN.ft;
  }

  /** If process 0, still the current one, starts in state `s`, it is served by the page table of
      process 1, and a byte that it then writes is what process 1 reads at that address. */
  predicate LeaksByte(s: Vm, data: Byte)
    requires s.g.Valid()
  {
    && s.current == Some(0) && FirstFree(s.ft, 0) != Some(s.ptbr)
    && AllEvictable(s) && |s.procs| == 2 && |s.mem| == |s.ft| && Start(s, 0, NeverOdd()).Done?
    && var r := Start(s, 0, NeverOdd()).value;
    && r.g == s.g && |r.procs| == 2 && r.procs[0].running && r.procs[1].running
    && r.ptbr == r.procs[1].savedPtbr != r.procs[0].savedPtbr
    && var written := RawAccess(r, 0, 0, false, data, NeverOdd());
    && written.Some? && written.value.0.g == s.g && |written.value.0.procs| == 2
    && var read := RawAccess(written.value.0, 1, 0, true, data, NeverOdd());
    && read.Some? && read.value.1 == data
  }

  lemma Leaks()
    ensures LeaksByte(STARTED1, 9)
  {
    Restarts0();
    Steals();
    SharedTableLeaks(RESTARTED0, 0, 1, 0, 9, NeverOdd());
  }

  /** So after Lines a restart of process 0 breaks flat memory: process 1 reads a byte that it
      never wrote. */
  lemma RestartBreaksFlatMemory()
    ensures WellFormed(SMALL, Lines()) && EnoughFrames(SMALL, Lines())
    ensures LeaksByte(After(SMALL, Lines()), 9)
    ensures LastByte(Lines() + [Do(StartOp(0)), Do(AccessOp(0, 0, false, 9))], 1, 0) == 0
  {
    LinesLead();
    CompletesIff(SMALL, Lines());
    Leaks();
    NeverWritten();
  }

  lemma NeverWritten()
    ensures LastByte(Lines() + [Do(StartOp(0)), Do(AccessOp(0, 0, false, 9))], 1, 0) == 0
  {
    var all := Lines() + [Do(StartOp(0)), Do(AccessOp(0, 0, false, 9))];
    assert all[..5][..4] == Lines() && all[..5] == Lines() + [Do(StartOp(0))];
    assert Lines()[3] == Do(StartOp(1));
    assert LastByte(Lines(), 1, 0) == 0;
    assert LastByte(all[..5], 1, 0) == LastByte(all[..5][..4], 1, 0);
  }
}
