/** The simulator itself: the frame table, the page tables, the process table and the swap
    list are updated in place, and every procedure is proved to compute what the function of
    the same name in VmModel.dfy says. */
module VmMachine {
  import opened Basics
  import opened VmModel
  import opened VmInvariant
  import opened VmLifecycle
  import opened VmRefinement
  import SQ = SwapQueue

  class Machine {
    const g: Geometry
    const mem: array<Frame>
    const frameTable: array<Fte>
    const procs: array<Pcb>
    const swap: SQ.SwapQueue
    var ptbr: nat
    var current: Option<nat>
    var stats: Stats

    ghost predicate Valid()
      reads this, swap, swap.nodes
    {
      swap.Valid()
    }

    ghost function State(): Vm
      requires Valid()
      reads this, mem, frameTable, procs, swap, swap.nodes
    {
      Vm(g, mem[..], frameTable[..], procs[..], ptbr, current, swap.AsMap(), swap.nextToken, stats)
    }

    /** The allocations of `main`, then `system_init`. */
    constructor (g: Geometry)
      requires g.Valid()
      ensures Valid() && State() == Boot(g)
      ensures fresh(mem) && fresh(frameTable) && fresh(procs) && fresh(swap) && swap.nodes == []
    {
      this.g := g;
      mem := new Frame[g.frames](i => if i == 0 then FrameTable else Page(Zeros(g.pageSize)));
      frameTable := new Fte[g.frames](i => Fte(i == 0, false, false, None, 0));
      procs := new Pcb[g.maxPid](i => Pcb(false, 0));
      swap := new SQ.SwapQueue();
      ptbr, current, stats := 0, None, Stats(0, 0, 0, 0, 0);
    }

    // ---------- page tables ----------

    method StorePte(t: nat, v: nat, e: Pte)
      requires Valid() && HasPte(State(), t, v)
      modifies mem
      ensures Valid() && State() == SetPte(old(State()), t, v, e)
    {
      mem[t] := PageTable(mem[t].ptes[v := e]);
    }

    // ---------- page_replacement.c ----------

    method SelectVictimFrame(coin: nat -> bool) returns (r: Option<nat>)
      ensures r == SelectVictim(frameTable[..], coin)
    {
      ghost var ft := frameTable[..];
      for i := 0 to frameTable.Length
        invariant FirstFree(ft, 0) == FirstFree(ft, i)
      {
        if !frameTable[i].protected && !frameTable[i].mapped {
          return Some(i);
        }
      }
      r := None;
      for i := 0 to frameTable.Length
        invariant PickUnprotected(ft, coin, 0, None) == PickUnprotected(ft, coin, i, r)
      {
        if !frameTable[i].protected {
          r := Some(i);
          if coin(i) {
            return;
          }
        }
      }
    }

    /** `swap_write` */
    method WriteSwap(t: nat, v: nat, data: seq<Byte>)
      requires Valid() && HasPte(State(), t, v)
      modifies mem, swap, swap.NodeSet()
      ensures Valid() && State() == SwapWrite(old(State()), t, v, data)
      ensures fresh(swap.NodeSet() - old(swap.NodeSet()))
    {
      var info := swap.Find(mem[t].ptes[v].swap);
      if info == null {
        AddSwap(t, v, data);
      } else {
        swap.Overwrite(info, data);
      }
    }

    /** A new node on the swap list; the rest of the machine is untouched. */
    method NewSwapEntry(data: seq<Byte>) returns (token: nat)
      requires Valid()
      modifies swap, swap.NodeSet()
      ensures Valid() && token == old(swap.nextToken)
      ensures State() == old(State()).(swap := old(State()).swap[token := data], nextToken := token + 1)
      ensures fresh(swap.NodeSet() - old(swap.NodeSet()))
    {
      assert (mem as object) !in swap.NodeSet();
      assert (frameTable as object) !in swap.NodeSet() && (procs as object) !in swap.NodeSet();
      token := swap.Enqueue(data);
      assert mem[..] == old(mem[..]) && frameTable[..] == old(frameTable[..]) && procs[..] == old(procs[..]);
    }

    /** The branch of `swap_write` for a page without a swap entry. */
    method AddSwap(t: nat, v: nat, data: seq<Byte>)
      requires Valid() && HasPte(State(), t, v)
      modifies mem, swap, swap.NodeSet()
      ensures Valid()
      ensures State() == SetPte(old(State()), t, v, PteAt(old(State()), t, v).(swap := old(swap.nextToken)))
        .(swap := old(swap.AsMap())[old(swap.nextToken) := data], nextToken := old(swap.nextToken) + 1)
      ensures fresh(swap.NodeSet() - old(swap.NodeSet()))
    {
      var token := NewSwapEntry(data);
      StorePte(t, v, mem[t].ptes[v].(swap := token));
    }

    method WriteBackFrame(t: nat, v: nat, f: nat)
      requires Valid() && HasPte(State(), t, v) && f < mem.Length && mem[f].Page?
      modifies this`stats, mem, swap, swap.NodeSet()
      ensures Valid() && State() == WriteBack(old(State()), t, v, f)
      ensures fresh(swap.NodeSet() - old(swap.NodeSet()))
    {
      WriteSwap(t, v, mem[f].bytes);
      stats := stats.(writebacks := stats.writebacks + 1);
      StorePte(t, v, mem[t].ptes[v].(dirty := false));
    }

    method UnmapFrame(t: nat, v: nat, f: nat)
      requires Valid() && HasPte(State(), t, v) && f < frameTable.Length
      modifies mem, frameTable
      ensures Valid() && State() == Unmap(old(State()), t, v, f)
    {
      StorePte(t, v, mem[t].ptes[v].(valid := false));
      frameTable[f] := Unmapped(frameTable[f]);
    }

    /** The write-back and unmapping part of `free_frame`. */
    method EvictFrame(f: nat)
      requires Valid() && Evictable(State(), f)
      modifies this`stats, mem, frameTable, swap, swap.NodeSet()
      ensures Valid() && State() == Evict(old(State()), f)
      ensures fresh(swap.NodeSet() - old(swap.NodeSet()))
    {
      var victim := frameTable[f];
      if victim.mapped {
        var t := procs[victim.process.value].savedPtbr;
        if mem[t].ptes[victim.vpn].dirty {
          WriteBackFrame(t, victim.vpn, f);
        }
        UnmapFrame(t, victim.vpn, f);
      }
    }

    method TakeFrame(coin: nat -> bool) returns (r: Outcome<nat>)
      requires Valid() && AllEvictable(State())
      modifies this`stats, mem, frameTable, swap, swap.NodeSet()
      ensures Valid()
      ensures match FreeFrame(old(State()), coin)
              case Panic(reason) => r == Panic(reason)
              case Done(p) => State() == p.0 && r == Done(p.1)
      ensures fresh(swap.NodeSet() - old(swap.NodeSet()))
    {
      var victim := SelectVictimFrame(coin);
      if victim.None? {
        return Panic(OutOfMemory);
      }
      VictimIsUnprotected(frameTable[..], coin);
      EvictFrame(victim.value);
      r := Done(victim.value);
    }

    // ---------- page_fault.c ----------

    method FaultIn(p: nat, v: nat, coin: nat -> bool) returns (r: Outcome<()>)
      requires Valid() && CanFault(State(), v)
      modifies this`stats, mem, frameTable, swap, swap.NodeSet()
      ensures Valid()
      ensures match PageFault(old(State()), p, v, coin)
              case Panic(reason) => r == Panic(reason)
              case Done(s) => State() == s && r == Done(())
      ensures fresh(swap.NodeSet() - old(swap.NodeSet()))
    {
      stats := stats.(pageFaults := stats.pageFaults + 1);
      PageFaultIsRefill(old(State()), State(), p, v, coin);
      var taken := TakeFrame(coin);
      if taken.Panic? {
        return Panic(taken.reason);
      }
      r := FillFrame(p, v, taken.value);
    }

    method RecordFrame(p: nat, v: nat, f: nat)
      requires Valid() && HasPte(State(), ptbr, v) && f < frameTable.Length
      modifies mem, frameTable
      ensures Valid() && State() == Record(old(State()), p, v, f)
    {
      StorePte(ptbr, v, mem[ptbr].ptes[v].(valid := true, dirty := false, pfn := f));
      frameTable[f] := Fte(false, true, false, Some(p), v);
    }

    /** The part of `page_fault` after the call of `free_frame`. */
    method FillFrame(p: nat, v: nat, f: nat) returns (r: Outcome<()>)
      requires Valid() && HasPte(State(), ptbr, v) && f < mem.Length == frameTable.Length && f != ptbr
      modifies mem, frameTable
      ensures Valid()
      ensures match MapFrame(old(State()), p, v, f)
              case Panic(reason) => r == Panic(reason)
              case Done(s) => State() == s && r == Done(())
    {
      var token := mem[ptbr].ptes[v].swap;
      RecordFrame(p, v, f);
      if token != 0 {
        var info := swap.Find(token);
        if info == null {
          return Panic(BadSwapRead);
        }
        mem[f] := Page(info.data);
      } else {
        mem[f] := Page(Zeros(g.pageSize));
      }
      r := Done(());
    }

    // ---------- paging.c ----------

    method InitProcess(p: nat, coin: nat -> bool) returns (r: Outcome<()>)
      requires Valid() && AllEvictable(State()) && p < procs.Length && mem.Length == frameTable.Length
      modifies this`stats, mem, frameTable, procs, swap, swap.NodeSet()
      ensures Valid()
      ensures match Start(old(State()), p, coin)
              case Panic(reason) => r == Panic(reason)
              case Done(s) => State() == s && r == Done(())
      ensures fresh(swap.NodeSet() - old(swap.NodeSet()))
    {
      var taken := TakeFrame(coin);
      if taken.Panic? {
        return Panic(taken.reason);
      }
      VictimIsUnprotected(old(frameTable[..]), coin);
      EvictKeepsShape(old(State()), taken.value);
      Install(p, taken.value);
      r := Done(());
    }

    /** The part of `proc_init` after the call of `free_frame`. */
    method Install(p: nat, f: nat)
      requires Valid() && p < procs.Length && f < mem.Length == frameTable.Length
      modifies mem, frameTable, procs
      ensures Valid() && State() == InstallTable(old(State()), p, f)
    {
      mem[f] := PageTable(seq(g.pages, _ => ZERO_PTE));
      procs[p] := Pcb(true, f);
      frameTable[f] := Fte(true, false, false, None, 0);
    }

    /** The write of `mem_access` to a page that is present. */
    method WriteByte(v: nat, offset: nat, data: Byte)
      requires Valid() && HasPte(State(), ptbr, v)
      requires var f := PteAt(State(), ptbr, v).pfn;
        f < mem.Length && f != ptbr && mem[f].Page? && offset < |mem[f].bytes|
      modifies mem
      ensures Valid()
      ensures var s, e := old(State()), PteAt(old(State()), ptbr, v);
        State() == s.(mem := SetPte(s, ptbr, v, e.(dirty := true)).mem[e.pfn := Page(s.mem[e.pfn].bytes[offset := data])])
    {
      var e := mem[ptbr].ptes[v];
      StorePte(ptbr, v, e.(dirty := true));
      mem[e.pfn] := Page(mem[e.pfn].bytes[offset := data]);
    }

    /** `mem_access` from the marking of the frame on. */
    method TouchByte(v: nat, offset: nat, isRead: bool, data: Byte) returns (b: Byte)
      requires Valid() && HasPte(State(), ptbr, v)
      requires var f := PteAt(State(), ptbr, v).pfn;
        f < mem.Length == frameTable.Length && f != ptbr && mem[f].Page? && offset < |mem[f].bytes|
      modifies this`stats, mem, frameTable
      ensures Valid() && (State(), b) == Touch(old(State()), v, offset, isRead, data)
    {
      var e := mem[ptbr].ptes[v];
      frameTable[e.pfn] := frameTable[e.pfn].(referenced := true);
      if isRead {
        stats := stats.(readCount := stats.readCount + 1);
        return mem[e.pfn].bytes[offset];
      }
      stats := stats.(writeCount := stats.writeCount + 1);
      WriteByte(v, offset, data);
      b := data;
    }

    /** An access line: the context switch of `main`, then `mem_access`. */
    method MemAccess(p: nat, address: nat, isRead: bool, data: Byte, coin: nat -> bool) returns (r: Outcome<Byte>)
      requires Valid() && Inv(State()) && Running(State(), p) && address < g.pages * g.pageSize
      modifies this, mem, frameTable, swap, swap.NodeSet()
      ensures Valid()
      ensures match Access(old(State()), p, address, isRead, data, coin)
              case Panic(reason) => r == Panic(reason)
              case Done(q) => State() == q.0 && r == Done(q.1)
      ensures fresh(swap.NodeSet() - old(swap.NodeSet()))
    {
      PageInRange(g, address);
      var v, offset := Vpn(g, address), Offset(g, address);
      EnterProcess(p);
      SwitchInv(old(State()), p, stats);
      r := AccessPage(p, v, offset, isRead, data, coin);
    }

    method AccessPage(p: nat, v: nat, offset: nat, isRead: bool, data: Byte, coin: nat -> bool)
      returns (r: Outcome<Byte>)
      requires Valid() && Inv(State()) && HasEntry(State(), p, v) && current == Some(p) && offset < g.pageSize
      modifies this`stats, mem, frameTable, swap, swap.NodeSet()
      ensures Valid()
      ensures AccessPresent(old(State()), p, v, offset, isRead, data, coin) ==
        if r.Panic? then Panic(r.reason) else Done((State(), r.value))
      ensures fresh(swap.NodeSet() - old(swap.NodeSet()))
    {
      PresentInv(State(), p, v, coin);
      var ok := MakePresent(p, v, coin);
      if ok.Panic? {
        return Panic(ok.reason);
      }
      TouchInv(State(), p, v, offset, isRead, data);
      var b := TouchByte(v, offset, isRead, data);
      r := Done(b);
    }

    /** `context_switch` if need be, and the count of the access. */
    method EnterProcess(p: nat)
      requires Valid() && p < procs.Length
      modifies this
      ensures Valid() && State() == Entered(old(State()), p)
    {
      if current != Some(p) {
        ptbr, current := procs[p].savedPtbr, Some(p);
      }
      stats := stats.(accesses := stats.accesses + 1);
    }

    method MakePresent(p: nat, v: nat, coin: nat -> bool) returns (r: Outcome<()>)
      requires Valid() && Inv(State()) && HasEntry(State(), p, v) && current == Some(p)
      modifies this`stats, mem, frameTable, swap, swap.NodeSet()
      ensures Valid()
      ensures match Present(old(State()), p, v, coin)
              case Panic(reason) => r == Panic(reason)
              case Done(s) => State() == s && r == Done(())
      ensures fresh(swap.NodeSet() - old(swap.NodeSet()))
    {
      assert TableOk(State(), p);
      CanFaultHere(State(), p, v);
      r := Done(());
      if !mem[ptbr].ptes[v].valid {
        r := FaultIn(p, v, coin);
      }
    }

    /** One iteration of the loop of `proc_cleanup`. */
    method ReleasePage(t: nat, v: nat) returns (r: Outcome<()>)
      requires Valid() && TableFits(State(), t) && v < g.pages
      modifies mem, frameTable, swap, swap.NodeSet()
      ensures Valid()
      ensures match CleanupPage(old(State()), t, v)
              case Panic(reason) => r == Panic(reason)
              case Done(s) => State() == s && r == Done(())
      ensures swap.NodeSet() <= old(swap.NodeSet())
    {
      if mem[t].ptes[v].valid {
        UnmapFrame(t, v, mem[t].ptes[v].pfn);
      }
      r := Done(());
      if mem[t].ptes[v].swap != 0 {
        r := ReleaseSwap(t, v);
      }
    }

    /** `swap_free` */
    method ReleaseSwap(t: nat, v: nat) returns (r: Outcome<()>)
      requires Valid() && HasPte(State(), t, v)
      modifies mem, swap, swap.NodeSet()
      ensures Valid()
      ensures match FreeSwap(old(State()), t, v)
              case Panic(reason) => r == Panic(reason)
              case Done(s) => State() == s && r == Done(())
      ensures swap.NodeSet() <= old(swap.NodeSet())
    {
      var e := mem[t].ptes[v];
      var info := swap.Find(e.swap);
      if info == null {
        return Panic(BadSwapFree);
      }
      swap.Dequeue(e.swap);
      StorePte(t, v, e.(swap := 0));
      r := Done(());
    }

    /** A STOP line: `proc_cleanup`, then the process is marked as stopped. */
    method StopProcess(p: nat) returns (r: Outcome<()>)
      requires Valid() && p < procs.Length && TableFits(State(), procs[p].savedPtbr)
      modifies mem, frameTable, procs, swap, swap.NodeSet()
      ensures Valid()
      ensures match Stop(old(State()), p)
              case Panic(reason) => r == Panic(reason)
              case Done(s) => State() == s && r == Done(())
      ensures fresh(swap.NodeSet() - old(swap.NodeSet()))
    {
      var t := procs[p].savedPtbr;
      ghost var s := State();
      for v := 0 to g.pages
        invariant Valid() && TableFits(State(), t)
        invariant procs[..] == s.procs && procs[p].savedPtbr == t
        invariant CleanupFrom(s, t, 0) == CleanupFrom(State(), t, v)
        invariant swap.NodeSet() <= old(swap.NodeSet())
      {
        ghost var before := State();
        var ok := ReleasePage(t, v);
        assert CleanupFrom(before, t, v) ==
          var c := CleanupPage(before, t, v); if c.Panic? then c else CleanupFrom(c.value, t, v + 1);
        if ok.Panic? {
          return Panic(ok.reason);
        }
      }
      frameTable[t] := Fte(false, false, false, None, 0);
      procs[p] := Pcb(false, 0);
      r := Done(());
    }

    // ---------- pagesim.c ----------

    /** One line of the trace. */
    method Line(e: Event) returns (r: Outcome<Option<Byte>>)
      requires Valid() && CanStep(State(), e.op)
      modifies this, mem, frameTable, procs, swap, swap.NodeSet()
      ensures Valid()
      ensures match Step(old(State()), e)
              case Panic(reason) => r == Panic(reason)
              case Done(q) => State() == q.0 && r == Done(q.1)
      ensures fresh(swap.NodeSet() - old(swap.NodeSet()))
    {
      match e.op
      case StartOp(p) =>
        InvEvictable(State());
        var ok := InitProcess(p, e.coin);
        r := if ok.Panic? then Panic(ok.reason) else Done(None);
      case StopOp(p) =>
        InvTableFits(State(), p);
        var ok := StopProcess(p);
        r := if ok.Panic? then Panic(ok.reason) else Done(None);
      case AccessOp(p, address, isRead, data) =>
        var b := MemAccess(p, address, isRead, data, e.coin);
        r := if b.Panic? then Panic(b.reason) else Done(Some(b.value));
    }
  }

  /** What the line `e` after `before` must answer: a read the last byte written there, a write
      its own byte. */
  ghost predicate AnswerOk(before: seq<Event>, e: Event, output: Option<Byte>) {
    match e.op
    case AccessOp(p, address, isRead, data) =>
      output == Some(if isRead then LastByte(before, p, address) else data)
    case StartOp(_) => output == None
    case StopOp(_) => output == None
  }

  ghost predicate OutputOk(trace: seq<Event>, i: nat, output: Option<Byte>)
    requires i < |trace|
  {
    AnswerOk(trace[..i], trace[i], output)
  }

  ghost predicate OutputsOk(trace: seq<Event>, outputs: seq<Option<Byte>>) {
    |outputs| <= |trace| && forall i | 0 <= i < |outputs| :: OutputOk(trace, i, outputs[i])
  }

  lemma OneMoreOutput(trace: seq<Event>, outputs: seq<Option<Byte>>, output: Option<Byte>)
    requires OutputsOk(trace, outputs) && |outputs| < |trace| && OutputOk(trace, |outputs|, output)
    ensures OutputsOk(trace, outputs + [output])
  {
  }

  /** What the next line of a trace does to the state that the lines before it led to. */
  lemma OneLine(g: Geometry, before: seq<Event>, e: Event, s: Vm)
    requires g.Valid() && WellFormed(g, before) && WellFormed(g, before + [e]) && Exec(g, before) == Done(s)
    ensures CanStep(s, e.op)
    ensures Exec(g, before + [e]) == var r := Step(s, e); if r.Panic? then Panic(r.reason) else Done(r.value.0)
    ensures Step(s, e).Panic? <==> !e.op.StopOp? && g.frames <= |RunningAfter(before)| + 1
    ensures Step(s, e).Panic? ==> Step(s, e).reason == OutOfMemory
    ensures Step(s, e).Done? ==> AnswerOk(before, e, Step(s, e).value.1)
  {
    ExecOneMore(g, before, e);
    PanicsIff(s, e);
    RunningSetAfter(g, before, s);
    if e.op.AccessOp? && Step(s, e).Done? {
      CompletesIff(g, before);
      AnswersFlat(g, before, e);
    }
  }

  lemma NextLine(g: Geometry, trace: seq<Event>, i: nat, s: Vm)
    requires g.Valid() && i < |trace| && WellFormed(g, trace[..i]) && WellFormed(g, trace[..i + 1])
    requires Exec(g, trace[..i]) == Done(s)
    ensures CanStep(s, trace[i].op)
    ensures Exec(g, trace[..i + 1]) ==
      var r := Step(s, trace[i]); if r.Panic? then Panic(r.reason) else Done(r.value.0)
    ensures Step(s, trace[i]).Panic? <==> !HasRoom(g, trace, i)
    ensures Step(s, trace[i]).Panic? ==> Step(s, trace[i]).reason == OutOfMemory
    ensures Step(s, trace[i]).Done? ==> OutputOk(trace, i, Step(s, trace[i]).value.1)
  {
    assert trace[..i + 1] == trace[..i] + [trace[i]];
    OneLine(g, trace[..i], trace[i], s);
  }

  /** The first `i` lines of the trace lead to state `s`. */
  ghost predicate Reached(g: Geometry, trace: seq<Event>, i: nat, s: Vm)
    requires g.Valid() && i <= |trace|
  {
    WellFormed(g, trace[..i]) && Exec(g, trace[..i]) == Done(s)
  }

  /** The machine has carried out the first `i` lines of the trace. */
  ghost predicate HasRun(m: Machine, trace: seq<Event>, i: nat)
    requires m.g.Valid() && i <= |trace|
    reads m, m.mem, m.frameTable, m.procs, m.swap, m.swap.nodes
  {
    m.Valid() && Reached(m.g, trace, i, m.State())
  }

  /** The first `n` lines of the trace found a frame, and line `n`, if there is one, did not. */
  ghost predicate RoomUpTo(g: Geometry, trace: seq<Event>, n: nat)
    requires n <= |trace|
  {
    && (forall i: nat | i < n :: HasRoom(g, trace, i))
    && (n < |trace| ==> !HasRoom(g, trace, n))
  }

  lemma RoomSoFar(g: Geometry, trace: seq<Event>, n: nat)
    requires g.Valid() && n <= |trace| && WellFormed(g, trace[..n])
    ensures Exec(g, trace[..n]).Done? && (n < |trace| ==> !HasRoom(g, trace, n)) ==> RoomUpTo(g, trace, n)
  {
    CompletesIff(g, trace[..n]);
    if EnoughFrames(g, trace[..n]) {
      forall i: nat | i < n
        ensures HasRoom(g, trace, i)
      {
        assert HasRoom(g, trace[..n], i) && trace[..n][..i] == trace[..i];
      }
    }
  }

  lemma RoomAfterLine(g: Geometry, trace: seq<Event>, n: nat, s: Vm)
    requires g.Valid() && n < |trace| && WellFormed(g, trace[..n]) && WellFormed(g, trace[..n + 1])
    requires Exec(g, trace[..n]) == Done(s)
    ensures CanStep(s, trace[n].op)
    ensures Step(s, trace[n]).Panic? ==> RoomUpTo(g, trace, n)
    ensures Step(s, trace[n]).Done? && n + 1 == |trace| ==> RoomUpTo(g, trace, n + 1)
  {
    NextLine(g, trace, n, s);
    if Step(s, trace[n]).Panic? {
      RoomSoFar(g, trace, n);
    } else if n + 1 == |trace| {
      RoomSoFar(g, trace, n + 1);
    }
  }

  /** One pass through the loop of `main`: one more answer, or a panic. */
  method NextOutput(m: Machine, trace: seq<Event>, outputs: seq<Option<Byte>>)
    returns (more: seq<Option<Byte>>, panic: Option<PanicReason>)
    requires m.g.Valid() && |outputs| < |trace| && WellFormed(m.g, trace)
    requires HasRun(m, trace, |outputs|) && OutputsOk(trace, outputs)
    modifies m, m.mem, m.frameTable, m.procs, m.swap, m.swap.NodeSet()
    ensures fresh(m.swap.NodeSet() - old(m.swap.NodeSet()))
    ensures OutputsOk(trace, more)
    ensures panic.None? ==> |more| == |outputs| + 1 && HasRun(m, trace, |more|)
    ensures panic.Some? ==> more == outputs && panic == Some(OutOfMemory)
    ensures panic.Some? || |more| == |trace| ==> RoomUpTo(m.g, trace, |more|)
  {
    WellFormedPrefix(m.g, trace, |outputs| + 1);
    NextLine(m.g, trace, |outputs|, m.State());
    RoomAfterLine(m.g, trace, |outputs|, m.State());
    var r := m.Line(trace[|outputs|]);
    if r.Panic? {
      return outputs, Some(r.reason);
    }
    OneMoreOutput(trace, outputs, r.value);
    return outputs + [r.value], None;
  }

  /** The set-up of `main`. */
  method BootMachine(g: Geometry, trace: seq<Event>) returns (m: Machine)
    requires g.Valid()
    ensures m.g == g && HasRun(m, trace, 0)
    ensures fresh(m) && fresh(m.mem) && fresh(m.frameTable) && fresh(m.procs) && fresh(m.swap)
    ensures fresh(m.swap.NodeSet())
  {
    m := new Machine(g);
    assert trace[..0] == [];
  }

  /** The loop of `main` over a whole trace: every line answers as flat memory would, until
      the trace ends or a line finds every frame taken. */
  method RunTrace(m: Machine, trace: seq<Event>) returns (outputs: seq<Option<Byte>>, panic: Option<PanicReason>)
    requires m.g.Valid() && WellFormed(m.g, trace)
    requires HasRun(m, trace, 0)
    modifies m, m.mem, m.frameTable, m.procs, m.swap, m.swap.NodeSet()
    ensures OutputsOk(trace, outputs) && RoomUpTo(m.g, trace, |outputs|)
    ensures panic == if |outputs| == |trace| then None else Some(OutOfMemory)
    ensures panic.None? ==> HasRun(m, trace, |trace|)
  {
    outputs, panic := [], None;
    while |outputs| < |trace|
      invariant panic.None? && OutputsOk(trace, outputs) && HasRun(m, trace, |outputs|)
      invariant |outputs| == |trace| ==> RoomUpTo(m.g, trace, |outputs|)
      invariant fresh(m.swap.NodeSet() - old(m.swap.NodeSet()))
    {
      outputs, panic := NextOutput(m, trace, outputs);
      if panic.Some? {
        break;
      }
    }
  }

  /** A whole run of the simulator: the trace completes if and only if there are enough frames
      for it, and every line up to the first that finds none answers as flat memory would. */
  method Simulate(g: Geometry, trace: seq<Event>) returns (outputs: seq<Option<Byte>>, panic: Option<PanicReason>)
    requires g.Valid() && WellFormed(g, trace)
    ensures OutputsOk(trace, outputs) && RoomUpTo(g, trace, |outputs|)
    ensures panic == if |outputs| == |trace| then None else Some(OutOfMemory)
    ensures panic.None? <==> EnoughFrames(g, trace)
  {
    var m := BootMachine(g, trace);
    outputs, panic := RunTrace(m, trace);
  }
}
