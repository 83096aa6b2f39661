/** Booting, starting and stopping processes: the invariant holds at first, START and STOP
    keep it, and nothing is left behind by a process that has stopped. */
module VmLifecycle {
  import opened Basics
  import opened VmModel
  import opened VmInvariant

  /** The state after `system_init` is consistent. */
  lemma BootInv(g: Geometry)
    requires g.Valid()
    ensures Inv(Boot(g)) && forall p: nat :: !Running(Boot(g), p)
  {
  }

  // ---------- START ----------

  lemma InstallEntries(s: Vm, p: nat, f: nat)
    requires Inv(s) && p < s.g.maxPid && !Running(s, p)
    requires f < s.g.frames && !s.ft[f].mapped && !s.ft[f].protected
    ensures var r := InstallTable(s, p, f);
      && Shape(r) && TablesOk(r) && EntriesOk(r)
      && (forall q: nat, w: nat | HasEntry(s, q, w) ::
            q != p && HasEntry(r, q, w) && Entry(r, q, w) == Entry(s, q, w)
            && (Entry(s, q, w).valid ==> Entry(s, q, w).pfn < s.g.frames && Entry(s, q, w).pfn != f))
      && (forall w: nat | HasEntry(r, p, w) :: Entry(r, p, w) == ZERO_PTE)
      && (forall q: nat, w: nat | HasEntry(r, q, w) && q != p :: HasEntry(s, q, w))
  {
    var r := InstallTable(s, p, f);
    forall q: nat | Running(r, q)
      ensures TableOk(r, q)
    {
      if q != p {
        assert TableOk(s, q);
      }
    }
    forall q: nat, q': nat | Running(r, q) && Running(r, q') && q != q'
      ensures r.procs[q].savedPtbr != r.procs[q'].savedPtbr
    {
      if q == p {
        assert TableOk(s, q');
      } else if q' == p {
        assert TableOk(s, q);
      }
    }
    forall q: nat, w: nat | HasEntry(r, q, w)
      ensures EntryOk(r, q, w)
      ensures q == p ==> Entry(r, q, w) == ZERO_PTE
      ensures q != p ==> HasEntry(s, q, w) && Entry(r, q, w) == Entry(s, q, w)
      ensures q != p && Entry(s, q, w).valid ==> Entry(s, q, w).pfn < s.g.frames && Entry(s, q, w).pfn != f
    {
      if q != p {
        assert HasEntry(s, q, w) && TableOk(s, q) && EntryOk(s, q, w);
      }
    }
  }

  /** A new process gets an empty page table; the other processes see no change. */
  lemma InstallInv(s: Vm, p: nat, f: nat)
    requires Inv(s) && p < s.g.maxPid && !Running(s, p)
    requires f < s.g.frames && !s.ft[f].mapped && !s.ft[f].protected
    requires s.current == Some(p) ==> s.ptbr == f
    ensures var r := InstallTable(s, p, f);
      && Inv(r) && SameContents(s, r)
      && (forall w: nat | w < s.g.pages :: HasEntry(r, p, w) && Contents(r, p, w) == Zeros(s.g.pageSize))
  {
    var r := InstallTable(s, p, f);
    InstallEntries(s, p, f);
    InstallRest(s, p, f);
    forall q: nat, w: nat | HasEntry(s, q, w) && HasEntry(r, q, w)
      ensures Contents(r, q, w) == Contents(s, q, w)
    {
      assert EntryOk(s, q, w);
    }
    forall w: nat | w < s.g.pages
      ensures HasEntry(r, p, w) && Contents(r, p, w) == Zeros(s.g.pageSize)
    {
      assert HasEntry(r, p, w) && Entry(r, p, w) == ZERO_PTE;
    }
  }

  lemma InstallRest(s: Vm, p: nat, f: nat)
    requires Inv(s) && p < s.g.maxPid && !Running(s, p)
    requires f < s.g.frames && !s.ft[f].mapped && !s.ft[f].protected
    ensures var r := InstallTable(s, p, f);
      Shape(r) && TablesOk(r) && ProtectedOk(r) && FramesOk(r) && SwapOk(r)
  {
    var r := InstallTable(s, p, f);
    InstallEntries(s, p, f);
    forall h: nat | h < r.g.frames
      ensures FrameOk(r, h)
    {
      assert FrameOk(s, h);
    }
    forall h: nat | h < r.g.frames && r.ft[h].protected && h != 0
      ensures exists q: nat :: Running(r, q) && r.procs[q].savedPtbr == h
    {
      if h == f {
        assert Running(r, p);
      } else {
        var q: nat :| Running(s, q) && s.procs[q].savedPtbr == h;
        assert Running(r, q) && r.procs[q].savedPtbr == h;
      }
    }
    forall token | token in r.swap
      ensures Owned(r, token)
    {
      var q: nat, w: nat :| HasEntry(s, q, w) && Entry(s, q, w).swap == token;
      assert HasEntry(r, q, w) && Entry(r, q, w).swap == token;
    }
    forall q: nat, w: nat, q': nat, w': nat
      | HasEntry(r, q, w) && HasEntry(r, q', w') && Entry(r, q, w).swap == Entry(r, q', w').swap != 0
      ensures q == q' && w == w'
    {
      assert q != p && q' != p;
      assert HasEntry(s, q, w) && HasEntry(s, q', w');
    }
  }

  /** START fails exactly when every frame is protected. Otherwise it keeps the invariant and
      every other process's pages, and the new process reads zeros everywhere. */
  lemma StartInv(s: Vm, p: nat, coin: nat -> bool)
    requires Inv(s) && p < s.g.maxPid && !Running(s, p) && KeepsItsTable(s, p)
    ensures AllEvictable(s)
    ensures Start(s, p, coin).Panic? <==> forall f :: 0 <= f < s.g.frames ==> s.ft[f].protected
    ensures Start(s, p, coin).Panic? ==> Start(s, p, coin).reason == OutOfMemory
    ensures Start(s, p, coin).Done? ==>
      var r := Start(s, p, coin).value;
      && Inv(r) && SameContents(s, r) && r.g == s.g && r.current == s.current
      && (forall q: nat :: Running(r, q) <==> q == p || Running(s, q))
      && (forall w: nat | w < s.g.pages :: HasEntry(r, p, w) && Contents(r, p, w) == Zeros(s.g.pageSize))
  {
    FreeFrameInv(s, coin);
    if FreeFrame(s, coin).Done? {
      var (t, f) := FreeFrame(s, coin).value;
      if s.current == Some(p) {
        FreeFrameOfCurrent(s, coin);
      }
      InstallInv(t, p, f);
      SameThrough(s, t, InstallTable(t, p, f));
    }
  }

  /** The frame that `free_frame` hands out is the one PTBR names if and only if that one is the
      first free frame, as long as it maps no page. */
  lemma FreeFrameOfCurrent(s: Vm, coin: nat -> bool)
    requires Inv(s) && s.current.Some? && !Running(s, s.current.value)
    ensures AllEvictable(s)
    ensures FreeFrame(s, coin).Done? ==>
      (FreeFrame(s, coin).value.1 == s.ptbr <==> FirstFree(s.ft, 0) == Some(s.ptbr))
  {
    InvEvictable(s);
    FirstFreeIsFree(s.ft, 0);
    PickedIsUnprotected(s.ft, coin, 0, None);
  }

  lemma SameThrough(s: Vm, t: Vm, r: Vm)
    requires Inv(s) && Inv(t) && Inv(r) && SameContents(s, t) && SameContents(t, r)
    requires s.g == t.g && s.procs == t.procs
    ensures SameContents(s, r)
  {
  }

  /** Starting a process that stopped while it was current: `main` sees the same pid and does
      not switch, so PTBR still names the old table. All is well if and only if that frame is
      the first free one when the line is reached. */
  lemma RestartedCurrent(s: Vm, p: nat, coin: nat -> bool)
    requires Inv(s) && p < s.g.maxPid && !Running(s, p) && s.current == Some(p)
    ensures AllEvictable(s)
    ensures Start(s, p, coin).Done? ==> (Inv(Start(s, p, coin).value) <==> FirstFree(s.ft, 0) == Some(s.ptbr))
  {
    FreeFrameInv(s, coin);
    FreeFrameOfCurrent(s, coin);
    if FreeFrame(s, coin).Done? {
      var (t, f) := FreeFrame(s, coin).value;
      if s.ptbr == f {
        InstallInv(t, p, f);
      } else {
        assert Running(InstallTable(t, p, f), p) && !CurrentOk(InstallTable(t, p, f));
      }
    }
  }

  // ---------- STOP ----------

  /** Frame `f` is one that the first `n` iterations of `proc_cleanup` release. */
  ghost predicate Released(s: Vm, p: nat, n: nat, f: nat)
    requires f < |s.ft|
  {
    s.ft[f].mapped && s.ft[f].process == Some(p) && s.ft[f].vpn < n
  }

  ghost function TokensOf(ptes: seq<Pte>, n: nat): (r: set<nat>)
    requires n <= |ptes|
    ensures forall w | 0 <= w < n :: ptes[w].swap in r
    ensures forall token | token in r :: exists w :: 0 <= w < n && ptes[w].swap == token
  {
    if n == 0 then {} else TokensOf(ptes, n - 1) + {ptes[n - 1].swap}
  }

  /** The state after the first `n` iterations of the loop of `proc_cleanup`. */
  ghost function CleanState(s: Vm, p: nat, n: nat): Vm
    requires Inv(s) && Running(s, p) && n <= s.g.pages
  {
    assert TableOk(s, p);
    var t := s.procs[p].savedPtbr;
    var ptes := s.mem[t].ptes;
    s.(mem := s.mem[t := PageTable(seq(s.g.pages, w requires 0 <= w < s.g.pages =>
                                     if w < n then ptes[w].(valid := false, swap := 0) else ptes[w]))],
       ft := seq(|s.ft|, f requires 0 <= f < |s.ft| =>
               if Released(s, p, n, f) then Unmapped(s.ft[f]) else s.ft[f]),
       swap := s.swap - TokensOf(ptes, n))
  }

  lemma CleanStart(s: Vm, p: nat)
    requires Inv(s) && Running(s, p)
    ensures CleanState(s, p, 0) == s
  {
    var t := s.procs[p].savedPtbr;
    assert TableOk(s, p);
    var r := CleanState(s, p, 0);
    assert r.mem[t].ptes == s.mem[t].ptes;
    assert r.mem == s.mem;
    assert r.ft == s.ft;
    assert r.swap == s.swap;
  }

  /** One iteration releases the page's frame and its swap entry, and never panics. */
  lemma CleanStep(s: Vm, p: nat, n: nat)
    requires Inv(s) && Running(s, p) && n < s.g.pages
    ensures TableFits(CleanState(s, p, n), s.procs[p].savedPtbr)
    ensures CleanupPage(CleanState(s, p, n), s.procs[p].savedPtbr, n) == Done(CleanState(s, p, n + 1))
  {
    InvTableFits(s, p);
    assert TableOk(s, p);
    CleanStepSwap(s, p, n);
    CleanStepFrames(s, p, n);
    var t, e := s.procs[p].savedPtbr, Entry(s, p, n);
    var c, c' := CleanState(s, p, n), CleanState(s, p, n + 1);
    assert c'.mem[t].ptes == c.mem[t].ptes[n := e.(valid := false, swap := 0)];
    assert c'.mem == c.mem[t := PageTable(c.mem[t].ptes[n := e.(valid := false, swap := 0)])];
    assert c'.ft == (if e.valid then c.ft[e.pfn := Unmapped(c.ft[e.pfn])] else c.ft);
    CleanStepComputes(s, c, c', p, n);
  }

  lemma CleanStepComputes(s: Vm, c: Vm, c': Vm, p: nat, n: nat)
    requires Shape(s) && TablesOk(s) && HasEntry(s, p, n)
    requires var t := s.procs[p].savedPtbr;
      var e := Entry(s, p, n);
      && TableFits(c, t) && n < c.g.pages && TableFits(c', t)
      && PteAt(c, t, n) == e
      && c'.mem == c.mem[t := PageTable(c.mem[t].ptes[n := e.(valid := false, swap := 0)])]
      && c'.ft == (if e.valid then c.ft[e.pfn := Unmapped(c.ft[e.pfn])] else c.ft)
      && (e.swap != 0 ==> e.swap in c.swap)
      && c'.swap == (if e.swap == 0 then c.swap else c.swap - {e.swap})
      && c' == c.(mem := c'.mem, ft := c'.ft, swap := c'.swap)
    ensures CleanupPage(c, s.procs[p].savedPtbr, n) == Done(c')
  {
    var t := s.procs[p].savedPtbr;
    var e := Entry(s, p, n);
    var r := CleanupPage(c, t, n);
    assert r.Done?;
    assert r.value.mem[t].ptes == c'.mem[t].ptes;
    assert r.value.mem == c'.mem;
  }

  lemma CleanStepSwap(s: Vm, p: nat, n: nat)
    requires Inv(s) && Running(s, p) && n < s.g.pages
    ensures var e := Entry(s, p, n);
      && CleanState(s, p, n + 1).swap == CleanState(s, p, n).swap - {e.swap}
      && (e.swap != 0 ==> e.swap in CleanState(s, p, n).swap)
      && (e.swap == 0 ==> CleanState(s, p, n + 1).swap == CleanState(s, p, n).swap)
  {
    var ptes := s.mem[s.procs[p].savedPtbr].ptes;
    var e := Entry(s, p, n);
    assert EntryOk(s, p, n);
    MinusTokens(s.swap, ptes, n);
    forall w: nat | w < n && e.swap != 0
      ensures ptes[w].swap != e.swap
    {
      TokensApart(s, p, n, p, w);
      assert ptes[w] == Entry(s, p, w);
    }
  }

  lemma MinusTokens(swap: map<nat, seq<Byte>>, ptes: seq<Pte>, n: nat)
    requires n < |ptes|
    ensures swap - TokensOf(ptes, n + 1) == (swap - TokensOf(ptes, n)) - {ptes[n].swap}
  {
  }

  lemma CleanStepFrames(s: Vm, p: nat, n: nat)
    requires Inv(s) && Running(s, p) && n < s.g.pages
    ensures var e := Entry(s, p, n);
      && (e.valid ==> e.pfn < |s.ft|)
      && forall f | 0 <= f < |s.ft| ::
        Released(s, p, n + 1, f) <==> Released(s, p, n, f) || (e.valid && f == e.pfn)
  {
    assert EntryOk(s, p, n);
    forall f | 0 <= f < |s.ft|
      ensures Released(s, p, n + 1, f) <==> Released(s, p, n, f) || (Entry(s, p, n).valid && f == Entry(s, p, n).pfn)
    {
      assert FrameOk(s, f);
    }
  }

  lemma {:induction false} CleanAll(s: Vm, p: nat, n: nat)
    requires Inv(s) && Running(s, p) && n <= s.g.pages
    ensures TableFits(CleanState(s, p, n), s.procs[p].savedPtbr)
    ensures CleanupFrom(CleanState(s, p, n), s.procs[p].savedPtbr, n) == Done(CleanState(s, p, s.g.pages))
    decreases s.g.pages - n
  {
    if n < s.g.pages {
      CleanStep(s, p, n);
      CleanAll(s, p, n + 1);
    } else {
      InvTableFits(s, p);
    }
  }

  /** The state that STOP leaves. */
  ghost function Stopped(s: Vm, p: nat): Vm
    requires Inv(s) && Running(s, p)
  {
    assert TableOk(s, p);
    var t := s.procs[p].savedPtbr;
    var c := CleanState(s, p, s.g.pages);
    c.(ft := c.ft[t := Fte(false, false, false, None, 0)], procs := c.procs[p := Pcb(false, 0)])
  }

  lemma StopComputes(s: Vm, p: nat)
    requires Inv(s) && Running(s, p)
    ensures TableFits(s, s.procs[p].savedPtbr)
    ensures Stop(s, p) == Done(Stopped(s, p))
  {
    InvTableFits(s, p);
    CleanStart(s, p);
    CleanAll(s, p, 0);
  }

  /** The entries of the processes that go on, and what they rely on, are untouched. */
  lemma StoppedEntry(s: Vm, p: nat, q: nat, w: nat)
    requires Inv(s) && Running(s, p) && HasEntry(s, q, w) && q != p
    ensures var r := Stopped(s, p);
      var e := Entry(s, q, w);
      && HasEntry(r, q, w) && Shape(r)
      && TableOk(r, q) && r.procs[q] == s.procs[q] && r.mem[s.procs[q].savedPtbr].ptes[w] == e
      && (e.swap != 0 ==> e.swap in r.swap && r.swap[e.swap] == s.swap[e.swap])
      && (e.valid ==> e.pfn < s.g.frames && r.ft[e.pfn] == s.ft[e.pfn] && r.mem[e.pfn] == s.mem[e.pfn])
  {
    var r := Stopped(s, p);
    var t := s.procs[p].savedPtbr;
    var e := Entry(s, q, w);
    assert TableOk(s, p) && TableOk(s, q) && EntryOk(s, q, w);
    var ptes := s.mem[t].ptes;
    forall v: nat | v < s.g.pages && e.swap != 0
      ensures ptes[v].swap != e.swap
    {
      TokensApart(s, q, w, p, v);
      assert ptes[v] == Entry(s, p, v);
    }
  }

  lemma StoppedEntries(s: Vm, p: nat)
    requires Inv(s) && Running(s, p)
    ensures var r := Stopped(s, p);
      && Shape(r) && TablesOk(r) && EntriesOk(r)
      && (forall q: nat, w: nat :: HasEntry(r, q, w) <==> HasEntry(s, q, w) && q != p)
      && (forall q: nat, w: nat | HasEntry(r, q, w) :: Entry(r, q, w) == Entry(s, q, w))
  {
    var r := Stopped(s, p);
    assert Shape(r);
    forall q: nat | Running(r, q)
      ensures TableOk(r, q)
    {
      StoppedEntry(s, p, q, 0);
    }
    forall q: nat, w: nat | HasEntry(r, q, w)
      ensures Entry(r, q, w) == Entry(s, q, w) && EntryOk(r, q, w)
    {
      StoppedEntry(s, p, q, w);
      assert EntryOk(s, q, w);
    }
  }

  lemma StoppedFrames(s: Vm, p: nat)
    requires Inv(s) && Running(s, p)
    ensures var r := Stopped(s, p);
      Shape(r) && TablesOk(r) && ProtectedOk(r) && FramesOk(r)
  {
    var r := Stopped(s, p);
    StoppedEntries(s, p);
    assert TableOk(s, p);
    forall h: nat | h < r.g.frames
      ensures FrameOk(r, h)
    {
      assert FrameOk(s, h);
    }
    forall h: nat | h < r.g.frames && r.ft[h].protected && h != 0
      ensures exists q: nat :: Running(r, q) && r.procs[q].savedPtbr == h
    {
      assert s.ft[h].protected;
      var q: nat :| Running(s, q) && s.procs[q].savedPtbr == h;
      assert Running(r, q) && r.procs[q].savedPtbr == h;
    }
  }

  lemma StoppedSwap(s: Vm, p: nat)
    requires Inv(s) && Running(s, p)
    ensures var r := Stopped(s, p);
      Shape(r) && TablesOk(r) && SwapOk(r)
  {
    var r := Stopped(s, p);
    StoppedEntries(s, p);
    var ptes := s.mem[s.procs[p].savedPtbr].ptes;
    forall token | token in r.swap
      ensures Owned(r, token)
    {
      var q: nat, w: nat :| HasEntry(s, q, w) && Entry(s, q, w).swap == token;
      assert forall u | 0 <= u < |ptes| :: ptes[u].swap in TokensOf(ptes, |ptes|);
      assert q != p;
      assert HasEntry(r, q, w) && Entry(r, q, w).swap == token;
    }
    forall q: nat, w: nat, q': nat, w': nat
      | HasEntry(r, q, w) && HasEntry(r, q', w') && Entry(r, q, w).swap == Entry(r, q', w').swap != 0
      ensures q == q' && w == w'
    {
      assert HasEntry(s, q, w) && HasEntry(s, q', w');
    }
  }

  /** STOP never panics, keeps the invariant and leaves every other process's pages alone. */
  lemma StopInv(s: Vm, p: nat)
    requires Inv(s) && Running(s, p)
    ensures TableFits(s, s.procs[p].savedPtbr)
    ensures Stop(s, p).Done?
    ensures var r := Stop(s, p).value;
      && Inv(r) && SameContents(s, r) && r.g == s.g && r.current == s.current
      && (forall q: nat :: Running(r, q) <==> q != p && Running(s, q))
  {
    StopComputes(s, p);
    var r := Stopped(s, p);
    StoppedEntries(s, p);
    StoppedFrames(s, p);
    StoppedSwap(s, p);
    forall q: nat, w: nat | HasEntry(s, q, w) && HasEntry(r, q, w)
      ensures Contents(r, q, w) == Contents(s, q, w)
    {
      StoppedEntry(s, p, q, w);
      assert EntryOk(s, q, w);
    }
  }

  // ---------- No leak ----------

  /** Once no process runs, swap is empty and no frame but frame 0 is in use. */
  lemma NothingLeaks(s: Vm)
    requires Inv(s) && forall p: nat :: !Running(s, p)
    ensures s.swap == map[]
    ensures forall f :: 0 <= f < s.g.frames ==> !s.ft[f].mapped && (s.ft[f].protected <==> f == 0)
  {
    forall f | 0 <= f < s.g.frames
      ensures !s.ft[f].mapped && (s.ft[f].protected <==> f == 0)
    {
      assert FrameOk(s, f);
    }
  }
}
