/** Whole runs of the simulator: on every well-formed trace, whatever victims the random
    policy picks, paging behaves like one flat zero-filled byte array per process. */
module VmRefinement {
  import opened Basics
  import opened VmModel
  import opened VmInvariant
  import opened VmLifecycle

  // ---------- Traces ----------

  /** One line of a trace file. */
  datatype Op =
    | StartOp(pid: nat)
    | StopOp(pid: nat)
    | AccessOp(pid: nat, address: nat, isRead: bool, data: Byte)

  /** A line together with the parities that `prng_rand` yields while it is carried out. */
  datatype Event = Event(op: Op, coin: nat -> bool)

  ghost function RunningAfter(trace: seq<Event>): set<nat> {
    if trace == [] then {}
    else
      var before := RunningAfter(trace[..|trace| - 1]);
      match trace[|trace| - 1].op
      case StartOp(p) => before + {p}
      case StopOp(p) => before - {p}
      case AccessOp(_, _, _, _) => before
  }

  ghost function CurrentAfter(trace: seq<Event>): Option<nat> {
    if trace == [] then None
    else
      match trace[|trace| - 1].op
      case AccessOp(p, _, _, _) => Some(p)
      case StartOp(_) => CurrentAfter(trace[..|trace| - 1])
      case StopOp(_) => CurrentAfter(trace[..|trace| - 1])
  }

  /** What the simulator asks of the line that follows `trace`: only processes that are not
      running start, only running ones stop or access memory, and addresses are virtual ones. */
  ghost predicate Legal(g: Geometry, trace: seq<Event>, op: Op) {
    match op
    case StartOp(p) => p < g.maxPid && p !in RunningAfter(trace)
    case StopOp(p) => p in RunningAfter(trace)
    case AccessOp(p, address, _, _) => p in RunningAfter(trace) && address < g.pages * g.pageSize
  }

  /** The reference: the last byte that process `p` wrote at `address` since it was started,
      or 0. No paging is involved. */
  ghost function LastByte(trace: seq<Event>, p: nat, address: nat): Byte {
    if trace == [] then 0
    else
      var before := LastByte(trace[..|trace| - 1], p, address);
      match trace[|trace| - 1].op
      case StartOp(q) => if q == p then 0 else before
      case StopOp(_) => before
      case AccessOp(q, a, isRead, data) => if q == p && a == address && !isRead then data else before
  }

  // ---------- Running the simulator ----------

  ghost predicate CanStep(s: Vm, op: Op) {
    Inv(s) &&
    match op
    case StartOp(p) => p < s.g.maxPid && !Running(s, p) && KeepsItsTable(s, p)
    case StopOp(p) => Running(s, p)
    case AccessOp(p, address, _, _) => Running(s, p) && address < s.g.pages * s.g.pageSize
  }

  /** One pass through the loop of `main`: the new state and, for an access, its byte. */
  function Step(s: Vm, e: Event): (r: Outcome<(Vm, Option<Byte>)>)
    requires CanStep(s, e.op)
  {
    match e.op
    case StartOp(p) =>
      StartInv(s, p, e.coin);
      var r := Start(s, p, e.coin);
      if r.Panic? then Panic(r.reason) else Done((r.value, None))
    case StopOp(p) =>
      StopInv(s, p);
      var r := Stop(s, p);
      if r.Panic? then Panic(r.reason) else Done((r.value, None))
    case AccessOp(p, address, isRead, data) =>
      var r := Access(s, p, address, isRead, data, e.coin);
      if r.Panic? then Panic(r.reason) else Done((r.value.0, Some(r.value.1)))
  }

  /** The machine's bookkeeping agrees with the trace. */
  ghost predicate Tracks(g: Geometry, trace: seq<Event>, s: Vm) {
    && s.g == g
    && (forall p: nat :: Running(s, p) <==> p in RunningAfter(trace))
    && s.current == CurrentAfter(trace)
  }

  /** Every line is legal, and a process that starts while it is still the current one finds
      its old table's frame to be the first free one (see RestartedCurrent). */
  ghost predicate WellFormed(g: Geometry, trace: seq<Event>)
    requires g.Valid()
    decreases |trace|, 0
  {
    trace == [] ||
    var before, op := trace[..|trace| - 1], trace[|trace| - 1].op;
    && WellFormed(g, before) && Legal(g, before, op)
    && (op.StartOp? && Exec(g, before).Done? ==> KeepsItsTable(Exec(g, before).value, op.pid))
  }

  /** The state that a whole trace leads to. */
  ghost function Exec(g: Geometry, trace: seq<Event>): (r: Outcome<Vm>)
    requires g.Valid() && WellFormed(g, trace)
    ensures r.Done? ==> Inv(r.value) && Tracks(g, trace, r.value)
    decreases |trace|, 1
  {
    if trace == [] then
      BootInv(g);
      Done(Boot(g))
    else
      var before := Exec(g, trace[..|trace| - 1]);
      if before.Panic? then before
      else
        var e := trace[|trace| - 1];
        StepTracks(g, trace[..|trace| - 1], e, before.value);
        assert trace == trace[..|trace| - 1] + [e];
        var r := Step(before.value, e);
        if r.Panic? then Panic(r.reason) else Done(r.value.0)
  }

  lemma ExecOneMore(g: Geometry, trace: seq<Event>, e: Event)
    requires g.Valid() && WellFormed(g, trace) && WellFormed(g, trace + [e]) && Exec(g, trace).Done?
    ensures CanStep(Exec(g, trace).value, e.op)
    ensures Exec(g, trace + [e]) ==
      var r := Step(Exec(g, trace).value, e); if r.Panic? then Panic(r.reason) else Done(r.value.0)
  {
  }

  /** A completed trace ends with a step that completes. */
  lemma ExecLast(g: Geometry, trace: seq<Event>) returns (before: seq<Event>, e: Event, s: Vm)
    requires g.Valid() && WellFormed(g, trace) && trace != [] && Exec(g, trace).Done?
    ensures trace == before + [e] && WellFormed(g, before) && Exec(g, before) == Done(s)
    ensures CanStep(s, e.op) && Step(s, e).Done? && Exec(g, trace).value == Step(s, e).value.0
  {
    before, e := trace[..|trace| - 1], trace[|trace| - 1];
    s := Exec(g, before).value;
    assert trace == before + [e];
    LastStep(g, before, e, s);
  }

  lemma LastStep(g: Geometry, before: seq<Event>, e: Event, s: Vm)
    requires g.Valid() && WellFormed(g, before) && WellFormed(g, before + [e]) && Exec(g, before) == Done(s)
    requires Exec(g, before + [e]).Done?
    ensures CanStep(s, e.op) && Step(s, e).Done? && Exec(g, before + [e]).value == Step(s, e).value.0
  {
  }

  lemma {:induction false} WellFormedPrefix(g: Geometry, trace: seq<Event>, i: nat)
    requires g.Valid() && WellFormed(g, trace) && i <= |trace|
    ensures WellFormed(g, trace[..i])
  {
    if i < |trace| {
      WellFormedPrefix(g, trace[..|trace| - 1], i);
      assert trace[..|trace| - 1][..i] == trace[..i];
    } else {
      assert trace[..i] == trace;
    }
  }

  /** `s'` and `b` are what reading or writing offset `o` of page `v` of process `p` gives. */
  ghost predicate OneByte(s: Vm, s': Vm, b: Byte, p: nat, v: nat, o: nat, isRead: bool, data: Byte)
    requires Inv(s) && HasEntry(s, p, v) && o < s.g.pageSize
  {
    && Inv(s') && s'.g == s.g && s'.procs == s.procs && s'.current == Some(p)
    && HasEntry(s', p, v)
    && b == (if isRead then Contents(s, p, v)[o] else data)
    && Contents(s', p, v) == (if isRead then Contents(s, p, v) else Contents(s, p, v)[o := data])
    && forall q: nat, w: nat | HasEntry(s, q, w) && (q != p || w != v) ::
      HasEntry(s', q, w) && Contents(s', q, w) == Contents(s, q, w)
  }

  /** Touching a mapped page of a state that looks like `s` from outside. */
  lemma TouchEffect(s: Vm, t: Vm, p: nat, v: nat, o: nat, isRead: bool, data: Byte)
    requires Inv(s) && Inv(t) && SameContents(s, t) && t.g == s.g && t.procs == s.procs && t.current == Some(p)
    requires HasEntry(s, p, v) && HasEntry(t, p, v) && o < s.g.pageSize
    requires t.ptbr == t.procs[p].savedPtbr && Entry(t, p, v).valid
    ensures HasPte(t, t.ptbr, v)
    ensures var f := PteAt(t, t.ptbr, v).pfn;
      f < |t.mem| == |t.ft| && f != t.ptbr && t.mem[f].Page? && o < |t.mem[f].bytes|
    ensures var (r, b) := Touch(t, v, o, isRead, data); OneByte(s, r, b, p, v, o, isRead, data)
  {
    TouchInv(t, p, v, o, isRead, data);
    var r := Touch(t, v, o, isRead, data).0;
    forall q: nat, w: nat | HasEntry(s, q, w) && (q != p || w != v)
      ensures HasEntry(r, q, w) && Contents(r, q, w) == Contents(s, q, w)
    {
      assert HasEntry(t, q, w);
    }
  }

  /** What an access does, seen from outside: it fails only for want of frames, returns the
      addressed byte, and changes that byte or nothing. */
  lemma AccessEffect(s: Vm, p: nat, address: nat, isRead: bool, data: Byte, coin: nat -> bool)
    requires Inv(s) && Running(s, p) && address < s.g.pages * s.g.pageSize
    ensures var r := Access(s, p, address, isRead, data, coin);
      var v, o := Vpn(s.g, address), Offset(s.g, address);
      && HasEntry(s, p, v)
      && (r.Panic? <==> !Entry(s, p, v).valid && forall f :: 0 <= f < s.g.frames ==> s.ft[f].protected)
      && (r.Panic? ==> r.reason == OutOfMemory)
      && (r.Done? ==> OneByte(s, r.value.0, r.value.1, p, v, o, isRead, data))
  {
    PageInRange(s.g, address);
    var v, o := Vpn(s.g, address), Offset(s.g, address);
    var s1 := Entered(s, p);
    SwitchInv(s, p, s1.stats);
    SameMachineEntries(s, s1);
    assert HasEntry(s1, p, v) && HasEntry(s, p, v);
    PresentInv(s1, p, v, coin);
    var r := Present(s1, p, v, coin);
    if r.Done? {
      SameThrough(s, s1, r.value);
      TouchEffect(s, r.value, p, v, o, isRead, data);
    }
  }

  lemma StepTracks(g: Geometry, trace: seq<Event>, e: Event, s: Vm)
    requires Inv(s) && Tracks(g, trace, s) && Legal(g, trace, e.op)
    requires e.op.StartOp? ==> KeepsItsTable(s, e.op.pid)
    ensures CanStep(s, e.op)
    ensures var r := Step(s, e);
      r.Done? ==> Inv(r.value.0) && Tracks(g, trace + [e], r.value.0)
  {
    assert (trace + [e])[..|trace + [e]| - 1] == trace;
    match e.op
    case StartOp(p) => StartInv(s, p, e.coin);
    case StopOp(p) => StopInv(s, p);
    case AccessOp(p, address, isRead, data) => AccessEffect(s, p, address, isRead, data, e.coin);
  }

  // ---------- Refinement ----------

  /** Every page of every running process holds what the reference says. */
  ghost predicate Flat(trace: seq<Event>, s: Vm)
    requires Inv(s)
  {
    forall p: nat, a: nat | Running(s, p) && a < s.g.pages * s.g.pageSize ::
      HasEntry(s, p, Vpn(s.g, a)) && Contents(s, p, Vpn(s.g, a))[Offset(s.g, a)] == LastByte(trace, p, a)
  }

  /** A virtual address is determined by its page and its offset. */
  lemma SplitIsInjective(g: Geometry, a: nat, b: nat)
    requires g.Valid() && Vpn(g, a) == Vpn(g, b) && Offset(g, a) == Offset(g, b)
    ensures a == b
  {
  }

  lemma FlatByte(trace: seq<Event>, e: Event, s: Vm, r: Vm, b: Byte, q: nat, a: nat)
    requires Inv(s) && Flat(trace, s) && e.op.AccessOp? && CanStep(s, e.op)
    requires HasEntry(s, e.op.pid, Vpn(s.g, e.op.address))
    requires Running(s, q) && a < s.g.pages * s.g.pageSize
    ensures OneByte(s, r, b, e.op.pid, Vpn(s.g, e.op.address), Offset(s.g, e.op.address), e.op.isRead, e.op.data) ==>
      HasEntry(r, q, Vpn(r.g, a)) && Contents(r, q, Vpn(r.g, a))[Offset(r.g, a)] == LastByte(trace + [e], q, a)
  {
    assert (trace + [e])[..|trace + [e]| - 1] == trace;
    var w := Vpn(s.g, a);
    assert HasEntry(s, q, w);
    if q == e.op.pid && w == Vpn(s.g, e.op.address) && Offset(s.g, a) == Offset(s.g, e.op.address) {
      SplitIsInjective(s.g, a, e.op.address);
    }
  }

  /** Changing the addressed byte, or nothing, is what the reference does. */
  lemma FlatOneByte(trace: seq<Event>, s: Vm, e: Event, r: Vm, b: Byte)
    requires Inv(s) && Flat(trace, s) && e.op.AccessOp? && CanStep(s, e.op)
    requires HasEntry(s, e.op.pid, Vpn(s.g, e.op.address))
    requires OneByte(s, r, b, e.op.pid, Vpn(s.g, e.op.address), Offset(s.g, e.op.address), e.op.isRead, e.op.data)
    ensures Inv(r) && Flat(trace + [e], r)
    ensures b == if e.op.isRead then LastByte(trace, e.op.pid, e.op.address) else e.op.data
  {
    forall q: nat, a: nat | Running(r, q) && a < r.g.pages * r.g.pageSize
      ensures HasEntry(r, q, Vpn(r.g, a)) && Contents(r, q, Vpn(r.g, a))[Offset(r.g, a)] == LastByte(trace + [e], q, a)
    {
      FlatByte(trace, e, s, r, b, q, a);
    }
  }

  lemma FlatAccess(trace: seq<Event>, s: Vm, e: Event)
    requires Inv(s) && Flat(trace, s) && e.op.AccessOp? && CanStep(s, e.op)
    requires Step(s, e).Done?
    ensures Inv(Step(s, e).value.0) && Flat(trace + [e], Step(s, e).value.0)
    ensures Step(s, e).value.1 == Some(if e.op.isRead then LastByte(trace, e.op.pid, e.op.address) else e.op.data)
  {
    AccessEffect(s, e.op.pid, e.op.address, e.op.isRead, e.op.data, e.coin);
    FlatOneByte(trace, s, e, Step(s, e).value.0, Step(s, e).value.1.value);
  }

  lemma FlatStartByte(trace: seq<Event>, e: Event, s: Vm, r: Vm, q: nat, a: nat)
    requires Inv(s) && Flat(trace, s) && e.op.StartOp?
    requires Inv(r) && SameContents(s, r) && r.g == s.g
    requires forall w: nat | w < s.g.pages :: HasEntry(r, e.op.pid, w) && Contents(r, e.op.pid, w) == Zeros(s.g.pageSize)
    requires Running(r, q) && (q == e.op.pid || Running(s, q)) && a < s.g.pages * s.g.pageSize
    ensures HasEntry(r, q, Vpn(r.g, a)) && Contents(r, q, Vpn(r.g, a))[Offset(r.g, a)] == LastByte(trace + [e], q, a)
  {
  }

  lemma FlatStart(trace: seq<Event>, s: Vm, e: Event)
    requires Inv(s) && Flat(trace, s) && e.op.StartOp? && CanStep(s, e.op)
    requires Step(s, e).Done?
    ensures Inv(Step(s, e).value.0) && Flat(trace + [e], Step(s, e).value.0)
  {
    StartInv(s, e.op.pid, e.coin);
    var r := Step(s, e).value.0;
    forall q: nat, a: nat | Running(r, q) && a < r.g.pages * r.g.pageSize
      ensures HasEntry(r, q, Vpn(r.g, a)) && Contents(r, q, Vpn(r.g, a))[Offset(r.g, a)] == LastByte(trace + [e], q, a)
    {
      FlatStartByte(trace, e, s, r, q, a);
    }
  }

  lemma FlatStop(trace: seq<Event>, s: Vm, e: Event)
    requires Inv(s) && Flat(trace, s) && e.op.StopOp? && CanStep(s, e.op)
    requires Step(s, e).Done?
    ensures Inv(Step(s, e).value.0) && Flat(trace + [e], Step(s, e).value.0)
  {
    StopInv(s, e.op.pid);
    var r := Step(s, e).value.0;
    assert (trace + [e])[..|trace + [e]| - 1] == trace;
    forall q: nat, a: nat | Running(r, q) && a < r.g.pages * r.g.pageSize
      ensures HasEntry(r, q, Vpn(r.g, a)) && Contents(r, q, Vpn(r.g, a))[Offset(r.g, a)] == LastByte(trace + [e], q, a)
    {
      PageInRange(r.g, a);
      assert Running(s, q) && HasEntry(s, q, Vpn(s.g, a)) && HasEntry(r, q, Vpn(r.g, a));
    }
  }

  lemma FlatStep(trace: seq<Event>, s: Vm, e: Event)
    requires CanStep(s, e.op) && Flat(trace, s) && Step(s, e).Done?
    ensures Inv(Step(s, e).value.0) && Flat(trace + [e], Step(s, e).value.0)
  {
    match e.op
    case StartOp(_) => FlatStart(trace, s, e);
    case StopOp(_) => FlatStop(trace, s, e);
    case AccessOp(_, _, _, _) => FlatAccess(trace, s, e);
  }

  lemma {:induction false} ExecIsFlat(g: Geometry, trace: seq<Event>)
    requires g.Valid() && WellFormed(g, trace) && Exec(g, trace).Done?
    ensures Flat(trace, Exec(g, trace).value)
  {
    if trace == [] {
      BootInv(g);
    } else {
      var before, e, s := ExecLast(g, trace);
      ExecIsFlat(g, before);
      FlatStep(before, s, e);
    }
  }

  // ---------- Availability ----------

  /** The processes running in `s`. */
  ghost function RunningSet(s: Vm): (r: set<nat>)
    ensures forall p: nat :: p in r <==> Running(s, p)
  {
    set p: nat | p < |s.procs| && s.procs[p].running
  }

  ghost function TableFrames(s: Vm, ps: set<nat>): set<nat>
    requires forall p | p in ps :: Running(s, p)
  {
    set p | p in ps && Running(s, p) :: s.procs[p].savedPtbr
  }

  /** Every running process has a page table of its own. */
  lemma {:induction false} TableFramesCount(s: Vm, ps: set<nat>)
    requires Inv(s) && forall p | p in ps :: Running(s, p)
    ensures |TableFrames(s, ps)| == |ps|
    decreases ps
  {
    if ps != {} {
      var p :| p in ps;
      var rest := ps - {p};
      TableFramesCount(s, rest);
      assert TablesOk(s) && s.procs[p].savedPtbr !in TableFrames(s, rest);
      assert TableFrames(s, ps) == TableFrames(s, rest) + {s.procs[p].savedPtbr};
    }
  }

  /** The protected frames are frame 0 and one frame for each running process. */
  lemma ProtectedFrames(s: Vm)
    requires Inv(s)
    ensures var taken := TableFrames(s, RunningSet(s)) + {0};
      && |taken| == |RunningSet(s)| + 1
      && taken <= Below(s.g.frames)
      && forall f: nat | f < s.g.frames :: s.ft[f].protected <==> f in taken
  {
    var tables := TableFrames(s, RunningSet(s));
    TableFramesCount(s, RunningSet(s));
    forall p | p in RunningSet(s)
      ensures 0 < s.procs[p].savedPtbr < s.g.frames && s.ft[s.procs[p].savedPtbr].protected
    {
      assert TableOk(s, p);
    }
    assert 0 !in tables;
    assert |tables + {0}| == |tables| + 1;
    forall f: nat | f < s.g.frames && s.ft[f].protected && f != 0
      ensures f in tables
    {
      var p: nat :| Running(s, p) && s.procs[p].savedPtbr == f;
      assert p in RunningSet(s);
    }
  }

  /** Every frame is protected if and only if the running processes' page tables fill the memory
      but for frame 0. */
  lemma AllProtectedIff(s: Vm)
    requires Inv(s)
    ensures (forall f :: 0 <= f < s.g.frames ==> s.ft[f].protected) <==> s.g.frames <= |RunningSet(s)| + 1
    ensures |RunningSet(s)| + 1 <= s.g.frames
  {
    ProtectedFrames(s);
    var taken := TableFrames(s, RunningSet(s)) + {0};
    SubsetSize(taken, Below(s.g.frames));
    if forall f :: 0 <= f < s.g.frames ==> s.ft[f].protected {
      SubsetSize(Below(s.g.frames), taken);
    }
    if f :| 0 <= f < s.g.frames && !s.ft[f].protected {
      SubsetSize(taken, Below(s.g.frames) - {f});
    }
  }

  /** The simulator panics if and only if a line other than STOP finds a running process for
      every frame but frame 0, and then for want of memory. */
  lemma PanicsIff(s: Vm, e: Event)
    requires CanStep(s, e.op)
    ensures Step(s, e).Panic? <==> !e.op.StopOp? && s.g.frames <= |RunningSet(s)| + 1
    ensures Step(s, e).Panic? ==> Step(s, e).reason == OutOfMemory
  {
    AllProtectedIff(s);
    match e.op
    case StartOp(p) => StartInv(s, p, e.coin);
    case StopOp(p) => StopInv(s, p);
    case AccessOp(p, address, isRead, data) =>
      AccessEffect(s, p, address, isRead, data, e.coin);
      assert EntryOk(s, p, Vpn(s.g, address));
  }

  /** Line `i` is a STOP, or there is a frame for it: fewer processes run than there are frames
      beside frame 0. */
  ghost predicate HasRoom(g: Geometry, trace: seq<Event>, i: nat)
    requires i < |trace|
  {
    trace[i].op.StopOp? || |RunningAfter(trace[..i])| + 1 < g.frames
  }

  ghost predicate EnoughFrames(g: Geometry, trace: seq<Event>) {
    forall i: nat | i < |trace| :: HasRoom(g, trace, i)
  }

  lemma EnoughBefore(g: Geometry, before: seq<Event>, e: Event)
    ensures EnoughFrames(g, before + [e]) <==>
      EnoughFrames(g, before) && (e.op.StopOp? || |RunningAfter(before)| + 1 < g.frames)
  {
    var trace := before + [e];
    assert trace[..|before|] == before;
    assert HasRoom(g, trace, |before|) <==> e.op.StopOp? || |RunningAfter(before)| + 1 < g.frames;
    forall i: nat | i < |before|
      ensures HasRoom(g, before, i) <==> HasRoom(g, trace, i)
    {
      assert trace[..i] == before[..i];
    }
  }

  lemma RunningSetAfter(g: Geometry, trace: seq<Event>, s: Vm)
    requires Tracks(g, trace, s)
    ensures RunningSet(s) == RunningAfter(trace)
  {
  }

  /** A trace completes if and only if there are enough frames at every line. */
  lemma {:induction false} CompletesIff(g: Geometry, trace: seq<Event>)
    requires g.Valid() && WellFormed(g, trace)
    ensures Exec(g, trace).Done? <==> EnoughFrames(g, trace)
  {
    if trace != [] {
      var before, e := trace[..|trace| - 1], trace[|trace| - 1];
      assert trace == before + [e];
      CompletesIff(g, before);
      EnoughBefore(g, before, e);
      if Exec(g, before).Done? {
        ExecOneMore(g, before, e);
        PanicsIff(Exec(g, before).value, e);
        RunningSetAfter(g, before, Exec(g, before).value);
      }
    }
  }

  /** The state after a trace for which there are enough frames. */
  ghost function After(g: Geometry, trace: seq<Event>): (s: Vm)
    requires g.Valid() && WellFormed(g, trace) && EnoughFrames(g, trace)
    ensures Inv(s) && Tracks(g, trace, s) && Exec(g, trace) == Done(s)
  {
    CompletesIff(g, trace);
    Exec(g, trace).value
  }

  /** After a complete trace in which every process was stopped, nothing is left in use. */
  lemma StoppedTraceLeavesNothing(g: Geometry, trace: seq<Event>)
    requires g.Valid() && WellFormed(g, trace) && EnoughFrames(g, trace)
    requires RunningAfter(trace) == {}
    ensures After(g, trace).swap == map[]
    ensures forall f :: 0 <= f < g.frames ==> var e := After(g, trace).ft[f]; !e.mapped && (e.protected <==> f == 0)
  {
    NothingLeaks(After(g, trace));
  }

  // ---------- The main theorems ----------

  /** Paging refines flat memory: after any well-formed trace that there are enough frames for,
      every byte of every running process is the last one it wrote there, or 0. */
  lemma PagingRefinesFlatMemory(g: Geometry, trace: seq<Event>)
    requires g.Valid() && WellFormed(g, trace) && EnoughFrames(g, trace)
    ensures Flat(trace, After(g, trace))
  {
    CompletesIff(g, trace);
    ExecIsFlat(g, trace);
  }

  /** Hence every read of a run returns the last byte written there since START, or 0, and
      every write returns its own byte. */
  lemma ReadsReturnLastWrite(g: Geometry, trace: seq<Event>, e: Event)
    requires g.Valid() && WellFormed(g, trace + [e]) && e.op.AccessOp? && EnoughFrames(g, trace + [e])
    ensures WellFormed(g, trace) && EnoughFrames(g, trace)
    ensures CanStep(After(g, trace), e.op) && Step(After(g, trace), e).Done?
    ensures Step(After(g, trace), e).value.1
         == Some(if e.op.isRead then LastByte(trace, e.op.pid, e.op.address) else e.op.data)
  {
    assert (trace + [e])[..|trace|] == trace;
    EnoughBefore(g, trace, e);
    AnswersFlat(g, trace, e);
  }

  lemma AnswersFlat(g: Geometry, trace: seq<Event>, e: Event)
    requires g.Valid() && WellFormed(g, trace) && WellFormed(g, trace + [e]) && e.op.AccessOp?
    requires EnoughFrames(g, trace) && |RunningAfter(trace)| + 1 < g.frames
    ensures CanStep(After(g, trace), e.op) && Step(After(g, trace), e).Done?
    ensures Step(After(g, trace), e).value.1
         == Some(if e.op.isRead then LastByte(trace, e.op.pid, e.op.address) else e.op.data)
  {
    var s := After(g, trace);
    ExecOneMore(g, trace, e);
    PanicsIff(s, e);
    RunningSetAfter(g, trace, s);
    PagingRefinesFlatMemory(g, trace);
    FlatAccess(trace, s, e);
  }
}
