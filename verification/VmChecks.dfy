/** The simulator's self-check `check_validity`, and its statistics. */
module VmChecks {
  import opened Basics
  import opened VmModel
  import opened VmInvariant
  import opened VmLifecycle
  import opened VmRefinement

  // ---------- check_validity ----------

  /** The panics that `check_validity` raises about the page table entry `e` of page `v` of
      process `p`: a mapping that is out of range, protected or not returned by the frame
      table, or a swap entry that does not exist. Its test for two entries with one frame adds
      nothing, since both would have to be named by that frame. */
  ghost predicate EntryPasses(s: Vm, p: nat, v: nat, e: Pte) {
    && (e.valid ==>
      && 0 < e.pfn < |s.ft|
      && !AccountedProtected(s, e.pfn)
      && s.ft[e.pfn].mapped
      && s.ft[e.pfn].process == Some(p)
      && s.ft[e.pfn].vpn == v)
    && (e.swap != 0 ==> e.swap in s.swap)
  }

  /** `protected_frames_accounted_for` */
  ghost predicate AccountedProtected(s: Vm, f: nat) {
    f == 0 || exists p: nat :: p < |s.procs| && s.procs[p].running && s.procs[p].savedPtbr == f
  }

  /** `mapped_frames_accounted_for` */
  ghost predicate AccountedMapped(s: Vm, f: nat) {
    exists p: nat, v: nat ::
      p < |s.procs| && s.procs[p].running && HasPte(s, s.procs[p].savedPtbr, v) && v < s.g.pages
      && PteAt(s, s.procs[p].savedPtbr, v).valid && PteAt(s, s.procs[p].savedPtbr, v).pfn == f
  }

  /** `check_validity(1)` returns without a panic. */
  ghost predicate PassesCheck(s: Vm) {
    && 0 < |s.ft| && s.ft[0].protected
    && (forall p: nat | p < |s.procs| && s.procs[p].running ::
          0 < s.procs[p].savedPtbr < |s.ft| && s.ft[s.procs[p].savedPtbr].protected)
    && (forall f: nat | f < |s.ft| && s.ft[f].protected :: AccountedProtected(s, f))
    && (forall p: nat, v: nat | p < |s.procs| && s.procs[p].running && v < s.g.pages ::
          HasPte(s, s.procs[p].savedPtbr, v) && EntryPasses(s, p, v, PteAt(s, s.procs[p].savedPtbr, v)))
    && (forall f: nat | f < |s.ft| && !s.ft[f].protected && s.ft[f].mapped :: AccountedMapped(s, f))
  }

  lemma AccountedIsProtected(s: Vm, f: nat)
    requires Inv(s) && f < s.g.frames
    ensures AccountedProtected(s, f) ==> s.ft[f].protected
  {
    if AccountedProtected(s, f) && f != 0 {
      var p: nat :| p < |s.procs| && s.procs[p].running && s.procs[p].savedPtbr == f;
      assert Running(s, p) && TableOk(s, p);
    }
  }

  lemma InvPassesCheck(s: Vm)
    requires Inv(s)
    ensures PassesCheck(s)
  {
    forall p: nat | p < |s.procs| && s.procs[p].running
      ensures 0 < s.procs[p].savedPtbr < |s.ft| && s.ft[s.procs[p].savedPtbr].protected
    {
      assert Running(s, p) && TableOk(s, p);
    }
    forall f: nat | f < |s.ft| && s.ft[f].protected
      ensures AccountedProtected(s, f)
    {
      if f != 0 {
        var p: nat :| Running(s, p) && s.procs[p].savedPtbr == f;
      }
    }
    forall p: nat, v: nat | p < |s.procs| && s.procs[p].running && v < s.g.pages
      ensures HasPte(s, s.procs[p].savedPtbr, v) && EntryPasses(s, p, v, PteAt(s, s.procs[p].savedPtbr, v))
    {
      assert Running(s, p) && TableOk(s, p) && HasEntry(s, p, v) && EntryOk(s, p, v);
      var e := Entry(s, p, v);
      if e.valid {
        AccountedIsProtected(s, e.pfn);
      }
    }
    forall f: nat | f < |s.ft| && !s.ft[f].protected && s.ft[f].mapped
      ensures AccountedMapped(s, f)
    {
      assert FrameOk(s, f);
      var p, v := s.ft[f].process.value, s.ft[f].vpn;
      assert TableOk(s, p) && HasPte(s, s.procs[p].savedPtbr, v);
    }
  }

  /** The self-check never fires: after every line of every well-formed trace it passes. */
  lemma EveryRunPassesCheck(g: Geometry, trace: seq<Event>)
    requires g.Valid() && WellFormed(g, trace) && EnoughFrames(g, trace)
    ensures PassesCheck(After(g, trace))
  {
    InvPassesCheck(After(g, trace));
  }

  /** The swap list holds exactly the entries in use: on every run its tokens are those of the
      running processes' page table entries, and no token serves two of them. */
  lemma SwapIsExact(g: Geometry, trace: seq<Event>)
    requires g.Valid() && WellFormed(g, trace) && EnoughFrames(g, trace)
    ensures var s := After(g, trace);
      && Inv(s)
      && (forall token: nat :: token in s.swap <==> token != 0 && Owned(s, token))
      && (forall p: nat, v: nat, q: nat, w: nat
            | HasEntry(s, p, v) && HasEntry(s, q, w) && Entry(s, p, v).swap == Entry(s, q, w).swap != 0 :: p == q && v == w)
  {
  }

  // ---------- Statistics ----------

  /** Frame `f` holds a page that has been written since it was brought in. */
  ghost predicate DirtyFrame(s: Vm, f: nat) {
    && f < |s.ft| && s.ft[f].mapped && s.ft[f].process.Some?
    && s.ft[f].process.value < |s.procs|
    && HasPte(s, s.procs[s.ft[f].process.value].savedPtbr, s.ft[f].vpn)
    && PteAt(s, s.procs[s.ft[f].process.value].savedPtbr, s.ft[f].vpn).dirty
  }

  ghost function DirtyFrames(s: Vm): set<nat> {
    set f: nat | f < |s.ft| && DirtyFrame(s, f)
  }

  /** Eviction pays one write-back for a dirty page and nothing otherwise. */
  lemma EvictCounts(s: Vm, f: nat)
    requires Inv(s) && f < s.g.frames && !s.ft[f].protected
    ensures Evictable(s, f)
    ensures var r := Evict(s, f);
      && DirtyFrames(r) == DirtyFrames(s) - {f}
      && r.stats == s.stats.(writebacks := s.stats.writebacks + if f in DirtyFrames(s) then 1 else 0)
  {
    EvictInv(s, f);
    var r := Evict(s, f);
    EvictKeepsShape(s, f);
    assert f in DirtyFrames(s) <==> DirtyFrame(s, f);
    forall h: nat | h < |s.ft|
      ensures DirtyFrame(r, h) <==> h != f && DirtyFrame(s, h)
    {
      if h != f && s.ft[h].mapped {
        EvictKeepsDirty(s, f, h);
      }
    }
  }

  lemma EvictKeepsDirty(s: Vm, f: nat, h: nat)
    requires Inv(s) && f < s.g.frames && !s.ft[f].protected
    requires h < s.g.frames && h != f && s.ft[h].mapped
    ensures Evictable(s, f) && (DirtyFrame(Evict(s, f), h) <==> DirtyFrame(s, h))
  {
    EvictInv(s, f);
    EvictKeepsShape(s, f);
    assert FrameOk(s, h) && FrameOk(s, f);
    var p, v := s.ft[h].process.value, s.ft[h].vpn;
    assert TableOk(s, p) && HasPte(s, s.procs[p].savedPtbr, v);
    if s.ft[f].mapped {
      var q, w := s.ft[f].process.value, s.ft[f].vpn;
      assert TableOk(s, q);
      assert q != p || w != v;
      assert PteAt(Evict(s, f), s.procs[p].savedPtbr, v) == PteAt(s, s.procs[p].savedPtbr, v);
    }
  }

  lemma FreeFrameCounts(s: Vm, coin: nat -> bool)
    requires Inv(s)
    ensures AllEvictable(s)
    ensures FreeFrame(s, coin).Done? ==>
      var (r, f) := FreeFrame(s, coin).value;
      && f < s.g.frames && f !in DirtyFrames(r)
      && DirtyFrames(r) == DirtyFrames(s) - {f}
      && r.stats == s.stats.(writebacks := s.stats.writebacks + if f in DirtyFrames(s) then 1 else 0)
  {
    FreeFrameInv(s, coin);
    if FreeFrame(s, coin).Done? {
      VictimIsUnprotected(s.ft, coin);
      EvictCounts(s, FreeFrame(s, coin).value.1);
    }
  }

  /** The accounting identities of the final report. */
  ghost predicate Accounts(s: Vm) {
    && s.stats.accesses == s.stats.readCount + s.stats.writeCount
    && s.stats.pageFaults <= s.stats.accesses
    && s.stats.writebacks + |DirtyFrames(s)| <= s.stats.writeCount
  }

  /** Another page's dirtiness survives a change of entry `v` of `p` and of frame `f`. */
  lemma OtherFrameKeepsDirty(s: Vm, r: Vm, p: nat, v: nat, e: Pte, f: nat, h: nat)
    requires Inv(s) && Inv(r) && r.g == s.g && r.procs == s.procs
    requires HasEntry(s, p, v) && f < s.g.frames && h < s.g.frames && h != f
    requires r.ft[h] == s.ft[h]
    requires HasPte(s, s.procs[p].savedPtbr, v)
    requires forall t: nat | t < s.g.frames && t != f :: r.mem[t] == SetPte(s, s.procs[p].savedPtbr, v, e).mem[t]
    requires !s.ft[f].protected && (Entry(s, p, v).valid ==> Entry(s, p, v).pfn == f)
    ensures DirtyFrame(r, h) <==> DirtyFrame(s, h)
  {
    assert FrameOk(s, h) && FrameOk(r, h);
    if s.ft[h].mapped {
      var q, w := s.ft[h].process.value, s.ft[h].vpn;
      assert TableOk(s, q) && TableOk(s, p) && TableOk(r, q);
      assert q != p || w != v;
      assert PteAt(r, s.procs[q].savedPtbr, w) == PteAt(s, s.procs[q].savedPtbr, w);
    }
  }

  lemma MapFrameCounts(s: Vm, p: nat, v: nat, f: nat)
    requires Inv(s) && HasEntry(s, p, v) && s.ptbr == s.procs[p].savedPtbr && !Entry(s, p, v).valid
    requires f < s.g.frames && !s.ft[f].mapped && !s.ft[f].protected
    ensures HasPte(s, s.ptbr, v) && f != s.ptbr && MapFrame(s, p, v, f).Done?
    ensures var r := MapFrame(s, p, v, f).value; DirtyFrames(r) == DirtyFrames(s) && r.stats == s.stats
  {
    MapFrameInv(s, p, v, f);
    var r := MapFrame(s, p, v, f).value;
    assert TableOk(s, p);
    var e := Entry(s, p, v).(valid := true, dirty := false, pfn := f);
    forall h: nat | h < s.g.frames
      ensures DirtyFrame(r, h) <==> DirtyFrame(s, h)
    {
      if h != f {
        OtherFrameKeepsDirty(s, r, p, v, e, f, h);
      }
    }
  }

  lemma TouchCounts(s: Vm, p: nat, v: nat, offset: nat, isRead: bool, data: Byte)
    requires Inv(s) && HasEntry(s, p, v) && s.ptbr == s.procs[p].savedPtbr && Entry(s, p, v).valid
    requires offset < s.g.pageSize
    ensures HasPte(s, s.ptbr, v)
    ensures var f := PteAt(s, s.ptbr, v).pfn;
      f < |s.mem| == |s.ft| && f != s.ptbr && s.mem[f].Page? && offset < |s.mem[f].bytes|
    ensures var r := Touch(s, v, offset, isRead, data).0;
      && DirtyFrames(r) == DirtyFrames(s) + (if isRead then {} else {PteAt(s, s.ptbr, v).pfn})
      && r.stats == if isRead then s.stats.(readCount := s.stats.readCount + 1)
                    else s.stats.(writeCount := s.stats.writeCount + 1)
  {
    TouchInv(s, p, v, offset, isRead, data);
    var r := Touch(s, v, offset, isRead, data).0;
    forall h: nat | h < s.g.frames
      ensures DirtyFrame(r, h) <==> DirtyFrame(s, h) || (!isRead && h == PteAt(s, s.ptbr, v).pfn)
    {
      TouchKeepsDirty(s, r, p, v, offset, isRead, data, h);
    }
  }

  lemma TouchKeepsDirty(s: Vm, r: Vm, p: nat, v: nat, offset: nat, isRead: bool, data: Byte, h: nat)
    requires Inv(s) && Inv(r) && HasEntry(s, p, v) && s.ptbr == s.procs[p].savedPtbr && Entry(s, p, v).valid
    requires offset < s.g.pageSize && h < s.g.frames
    requires HasPte(s, s.ptbr, v)
    requires var f := PteAt(s, s.ptbr, v).pfn;
      f < |s.mem| == |s.ft| && f != s.ptbr && s.mem[f].Page? && offset < |s.mem[f].bytes|
    requires r == Touch(s, v, offset, isRead, data).0
    ensures DirtyFrame(r, h) <==> DirtyFrame(s, h) || (!isRead && h == PteAt(s, s.ptbr, v).pfn)
  {
    assert TableOk(s, p) && EntryOk(s, p, v);
    var e := if isRead then Entry(s, p, v) else Entry(s, p, v).(dirty := true);
    assert s.mem[s.ptbr].ptes == s.mem[s.ptbr].ptes[v := Entry(s, p, v)];
    if h != e.pfn {
      OtherFrameKeepsDirty(s, r, p, v, e, e.pfn, h);
    }
  }

  lemma PageFaultCounts(s: Vm, p: nat, v: nat, coin: nat -> bool)
    requires Inv(s) && HasEntry(s, p, v) && s.current == Some(p) && !Entry(s, p, v).valid
    ensures CanFault(s, v)
    ensures PageFault(s, p, v, coin).Done? ==>
      var r := PageFault(s, p, v, coin).value;
      && r.stats == s.stats.(pageFaults := s.stats.pageFaults + 1, writebacks := r.stats.writebacks)
      && r.stats.writebacks + |DirtyFrames(r)| == s.stats.writebacks + |DirtyFrames(s)|
  {
    CanFaultHere(s, p, v);
    var s1 := s.(stats := s.stats.(pageFaults := s.stats.pageFaults + 1));
    SameMachineInv(s, s1);
    SameMachineEntries(s, s1);
    assert DirtyFrames(s1) == DirtyFrames(s);
    FreeFrameInv(s1, coin);
    FreeFrameCounts(s1, coin);
    PageFaultIsRefill(s, s1, p, v, coin);
    if FreeFrame(s1, coin).Done? {
      RefillCounts(s1, p, v, FreeFrame(s1, coin).value.1);
    }
  }

  lemma RefillCounts(s: Vm, p: nat, v: nat, f: nat)
    requires Inv(s) && HasEntry(s, p, v) && s.current == Some(p) && !Entry(s, p, v).valid
    requires f < s.g.frames && !s.ft[f].protected
    ensures Evictable(s, f)
    ensures var t := Evict(s, f); HasPte(t, t.ptbr, v) && f < |t.mem| == |t.ft| && f != t.ptbr && MapFrame(t, p, v, f).Done?
    ensures var t, r := Evict(s, f), MapFrame(Evict(s, f), p, v, f).value;
      DirtyFrames(r) == DirtyFrames(t) && r.stats == t.stats
  {
    RefillInv(s, p, v, f);
    EvictInv(s, f);
    EvictKeepsInvalid(s, f, p, v);
    EvictKeepsShape(s, f);
    MapFrameCounts(Evict(s, f), p, v, f);
  }

  lemma InstallCounts(s: Vm, p: nat, f: nat)
    requires Inv(s) && p < s.g.maxPid && !Running(s, p)
    requires f < s.g.frames && !s.ft[f].mapped && !s.ft[f].protected
    ensures DirtyFrames(InstallTable(s, p, f)) == DirtyFrames(s) && InstallTable(s, p, f).stats == s.stats
  {
    var r := InstallTable(s, p, f);
    forall h: nat | h < s.g.frames
      ensures DirtyFrame(r, h) <==> DirtyFrame(s, h)
    {
      assert FrameOk(s, h);
      if s.ft[h].mapped {
        assert TableOk(s, s.ft[h].process.value);
      }
    }
  }

  lemma StopCounts(s: Vm, p: nat)
    requires Inv(s) && Running(s, p)
    ensures DirtyFrames(Stopped(s, p)) <= DirtyFrames(s) && Stopped(s, p).stats == s.stats
  {
    var r := Stopped(s, p);
    assert TableOk(s, p);
    forall h: nat | h < s.g.frames && DirtyFrame(r, h)
      ensures DirtyFrame(s, h)
    {
      assert FrameOk(s, h);
      var q, w := s.ft[h].process.value, s.ft[h].vpn;
      StoppedEntry(s, p, q, w);
      assert TableOk(s, q);
    }
  }

  lemma AccessCounts(s: Vm, p: nat, address: nat, isRead: bool, data: Byte, coin: nat -> bool)
    requires Inv(s) && Running(s, p) && address < s.g.pages * s.g.pageSize && Accounts(s)
    requires Access(s, p, address, isRead, data, coin).Done?
    ensures Accounts(Access(s, p, address, isRead, data, coin).value.0)
  {
    PageInRange(s.g, address);
    var v, o := Vpn(s.g, address), Offset(s.g, address);
    var s1 := Entered(s, p);
    SwitchInv(s, p, s1.stats);
    SameMachineEntries(s, s1);
    assert DirtyFrames(s1) == DirtyFrames(s);
    assert HasEntry(s1, p, v) && TableOk(s1, p);
    PresentInv(s1, p, v, coin);
    if !Entry(s1, p, v).valid {
      PageFaultCounts(s1, p, v, coin);
    }
    TouchCounts(Present(s1, p, v, coin).value, p, v, o, isRead, data);
  }

  lemma StartCounts(s: Vm, p: nat, coin: nat -> bool)
    requires Inv(s) && p < s.g.maxPid && !Running(s, p) && KeepsItsTable(s, p) && Accounts(s)
    ensures AllEvictable(s)
    ensures Start(s, p, coin).Done? ==> Accounts(Start(s, p, coin).value)
  {
    StartInv(s, p, coin);
    FreeFrameInv(s, coin);
    FreeFrameCounts(s, coin);
    if FreeFrame(s, coin).Done? {
      var (t, f) := FreeFrame(s, coin).value;
      InstallCounts(t, p, f);
    }
  }

  lemma AccountsStep(s: Vm, e: Event)
    requires CanStep(s, e.op) && Accounts(s)
    ensures Step(s, e).Done? ==> Accounts(Step(s, e).value.0)
  {
    if Step(s, e).Done? {
      match e.op
      case StartOp(p) => StartCounts(s, p, e.coin);
      case StopOp(p) =>
        StopComputes(s, p);
        StopCounts(s, p);
        SubsetSize(DirtyFrames(Stopped(s, p)), DirtyFrames(s));
      case AccessOp(p, address, isRead, data) => AccessCounts(s, p, address, isRead, data, e.coin);
    }
  }

  lemma {:induction false} ExecAccounts(g: Geometry, trace: seq<Event>)
    requires g.Valid() && WellFormed(g, trace) && Exec(g, trace).Done?
    ensures Accounts(Exec(g, trace).value)
  {
    if trace == [] {
      assert DirtyFrames(Boot(g)) == {};
    } else {
      var before, e, s := ExecLast(g, trace);
      ExecAccounts(g, before);
      AccountsStep(s, e);
    }
  }

  /** The final report adds up on every run: accesses are reads plus writes, faults are
      accesses, and every write-back and every dirty resident page is due to a write. */
  lemma EveryRunAccounts(g: Geometry, trace: seq<Event>)
    requires g.Valid() && WellFormed(g, trace) && EnoughFrames(g, trace)
    ensures Accounts(After(g, trace))
  {
    CompletesIff(g, trace);
    ExecAccounts(g, trace);
  }
}
