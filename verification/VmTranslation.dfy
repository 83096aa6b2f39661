/** Address translation: which entry, which frame and which byte an access of a run uses, and
    when it faults, in terms of the address divided by the page size. */
module VmTranslation {
  import opened Basics
  import opened VmModel
  import opened VmInvariant
  import opened VmLifecycle
  import opened VmRefinement
  import opened VmChecks

  /** The page table entry of process `p` for the address `a`. */
  predicate HasEntryFor(s: Vm, p: nat, a: nat) {
    && 0 < s.g.pageSize && p < |s.procs|
    && s.procs[p].savedPtbr < |s.mem| && s.mem[s.procs[p].savedPtbr].PageTable?
    && a / s.g.pageSize < |s.mem[s.procs[p].savedPtbr].ptes|
  }

  function EntryFor(s: Vm, p: nat, a: nat): Pte
    requires HasEntryFor(s, p, a)
  {
    s.mem[s.procs[p].savedPtbr].ptes[a / s.g.pageSize]
  }

  /** The entry for `a` is valid, and the physical address made of its frame and the offset of
      `a` lies in memory, in a frame of page bytes that is neither the frame table nor a page
      table; the byte there is `b`. */
  predicate Translated(s: Vm, p: nat, a: nat, b: Byte) {
    && HasEntryFor(s, p, a) && EntryFor(s, p, a).valid
    && |s.ft| == |s.mem|
    && var physical := EntryFor(s, p, a).pfn * s.g.pageSize + a % s.g.pageSize;
    && physical < |s.mem| * s.g.pageSize
    && var f := physical / s.g.pageSize;
    && f == EntryFor(s, p, a).pfn < |s.mem|
    && !s.ft[f].protected && s.ft[f].referenced && s.ft[f].mapped
    && s.ft[f].process == Some(p) && s.ft[f].vpn == a / s.g.pageSize
    && s.mem[f].Page? && physical % s.g.pageSize < |s.mem[f].bytes|
    && s.mem[f].bytes[physical % s.g.pageSize] == b
  }

  /** The counters of `mem_access`. */
  predicate Counted(s: Vm, r: Vm, isRead: bool, absent: bool) {
    && r.stats.accesses == s.stats.accesses + 1
    && r.stats.readCount == s.stats.readCount + (if isRead then 1 else 0)
    && r.stats.writeCount == s.stats.writeCount + (if isRead then 0 else 1)
    && r.stats.pageFaults == s.stats.pageFaults + (if absent then 1 else 0)
    && (!absent ==> r.stats.writebacks == s.stats.writebacks)
  }

  lemma EntryIsEntryFor(s: Vm, p: nat, a: nat)
    requires Inv(s) && Running(s, p) && a < s.g.pages * s.g.pageSize
    ensures HasEntry(s, p, Vpn(s.g, a))
    ensures HasEntryFor(s, p, a) && EntryFor(s, p, a) == Entry(s, p, Vpn(s.g, a))
  {
  }

  lemma PhysicalSplits(f: nat, n: nat, offset: nat, frames: nat)
    requires offset < n && f < frames
    ensures (f * n + offset) / n == f && (f * n + offset) % n == offset && f * n + offset < frames * n
  {
    DivisionUnique(f * n + offset, n, f, offset);
    TimesApart(f, frames, n);
  }

  /** In a consistent state a valid entry whose frame is marked referenced translates. */
  lemma ValidTranslates(s: Vm, p: nat, a: nat, b: Byte)
    requires Inv(s) && Running(s, p) && a < s.g.pages * s.g.pageSize
    requires HasEntry(s, p, Vpn(s.g, a)) && Entry(s, p, Vpn(s.g, a)).valid
    requires EntryOk(s, p, Vpn(s.g, a)) ==>
      var f := Entry(s, p, Vpn(s.g, a)).pfn; s.ft[f].referenced && s.mem[f].bytes[Offset(s.g, a)] == b
    ensures Translated(s, p, a, b)
  {
    EntryIsEntryFor(s, p, a);
    assert EntryOk(s, p, Vpn(s.g, a));
    PhysicalSplits(EntryFor(s, p, a).pfn, s.g.pageSize, Offset(s.g, a), s.g.frames);
  }

  /** Reading or writing a byte of a page that is present. */
  lemma TouchTranslates(s: Vm, p: nat, a: nat, isRead: bool, data: Byte)
    requires Inv(s) && Running(s, p) && s.current == Some(p) && a < s.g.pages * s.g.pageSize
    requires HasEntry(s, p, Vpn(s.g, a)) && Entry(s, p, Vpn(s.g, a)).valid
    ensures var v, o := Vpn(s.g, a), Offset(s.g, a);
      && HasPte(s, s.ptbr, v)
      && var f := PteAt(s, s.ptbr, v).pfn;
      && f < |s.mem| == |s.ft| && f != s.ptbr && s.mem[f].Page? && o < |s.mem[f].bytes|
      && var (r, b) := Touch(s, v, o, isRead, data);
      && Translated(r, p, a, b) && (!isRead ==> b == data && EntryFor(r, p, a).dirty)
      && HasEntryFor(s, p, a) && EntryFor(r, p, a).pfn == EntryFor(s, p, a).pfn
      && r.ft == s.ft[EntryFor(s, p, a).pfn := s.ft[EntryFor(s, p, a).pfn].(referenced := true)]
      && r.stats == if isRead then s.stats.(readCount := s.stats.readCount + 1)
                    else s.stats.(writeCount := s.stats.writeCount + 1)
  {
    var v, o := Vpn(s.g, a), Offset(s.g, a);
    assert CurrentOk(s);
    EntryIsEntryFor(s, p, a);
    TouchInv(s, p, v, o, isRead, data);
    assert TableOk(s, p) && EntryOk(s, p, v);
    var (r, b) := Touch(s, v, o, isRead, data);
    EntryIsEntryFor(r, p, a);
    ValidTranslates(r, p, a, b);
  }

  lemma PresentCounts(s: Vm, p: nat, v: nat, coin: nat -> bool)
    requires Inv(s) && HasEntry(s, p, v) && s.current == Some(p) && Present(s, p, v, coin).Done?
    ensures var r := Present(s, p, v, coin).value;
      && (Entry(s, p, v).valid ==> r == s)
      && (!Entry(s, p, v).valid ==>
            r.stats == s.stats.(pageFaults := s.stats.pageFaults + 1, writebacks := r.stats.writebacks))
  {
  }

  /** An access of `p` at `a` uses entry a / pageSize of the table of `p`: it faults exactly if
      that entry is invalid, and then reads or writes offset a % pageSize of the entry's frame. */
  lemma AccessTranslates(s: Vm, p: nat, a: nat, isRead: bool, data: Byte, coin: nat -> bool)
    requires Inv(s) && Running(s, p) && a < s.g.pages * s.g.pageSize
    requires Access(s, p, a, isRead, data, coin).Done?
    ensures var (r, b) := Access(s, p, a, isRead, data, coin).value;
      && HasEntryFor(s, p, a) && Translated(r, p, a, b)
      && (!isRead ==> b == data && EntryFor(r, p, a).dirty)
      && Counted(s, r, isRead, !EntryFor(s, p, a).valid)
      && (EntryFor(s, p, a).valid ==>
            && EntryFor(r, p, a).pfn == EntryFor(s, p, a).pfn < |s.ft|
            && r.ft == s.ft[EntryFor(s, p, a).pfn := s.ft[EntryFor(s, p, a).pfn].(referenced := true)])
  {
    var v, t := Vpn(s.g, a), Entered(s, p);
    EntryIsEntryFor(s, p, a);
    SwitchInv(s, p, t.stats);
    EntryIsEntryFor(t, p, a);
    PresentInv(t, p, v, coin);
    PresentCounts(t, p, v, coin);
    assert EntryOk(s, p, v);
    TouchTranslates(Present(t, p, v, coin).value, p, a, isRead, data);
  }

  /** An address whose page is present is accessed without a fault and without changing a mapping. */
  lemma PresentDoesNotFault(s: Vm, p: nat, a: nat, d: Byte, b: nat, isRead: bool, data: Byte, coin: nat -> bool)
    requires Inv(s) && Running(s, p) && Translated(s, p, a, d)
    requires b < s.g.pages * s.g.pageSize && a / s.g.pageSize == b / s.g.pageSize
    ensures Access(s, p, b, isRead, data, coin).Done?
    ensures var r := Access(s, p, b, isRead, data, coin).value.0;
      r.stats.pageFaults == s.stats.pageFaults && r.stats.writebacks == s.stats.writebacks && r.ft == s.ft
  {
  }

  /** A page is faulted in once: the next access of the same process to an address of the same
      page does not fault, and changes no mapping. */
  lemma SamePageFaultsOnce(s: Vm, p: nat, a: nat, b: nat, e: Event, f: Event)
    requires e.op.AccessOp? && f.op.AccessOp? && e.op.pid == f.op.pid == p && e.op.address == a && f.op.address == b
    requires CanStep(s, e.op)
    ensures Step(s, e).Done? && b < s.g.pages * s.g.pageSize && a / s.g.pageSize == b / s.g.pageSize ==>
      var r := Step(s, e).value.0;
      && CanStep(r, f.op) && Step(r, f).Done?
      && var q := Step(r, f).value.0;
      && q.stats.pageFaults == r.stats.pageFaults && q.stats.writebacks == r.stats.writebacks
      && q.ft == r.ft
  {
    if Step(s, e).Done? && b < s.g.pages * s.g.pageSize && a / s.g.pageSize == b / s.g.pageSize {
      AccessEffect(s, p, a, e.op.isRead, e.op.data, e.coin);
      AccessTranslates(s, p, a, e.op.isRead, e.op.data, e.coin);
      var r, d := Step(s, e).value.0, Step(s, e).value.1.value;
      PresentDoesNotFault(r, p, a, d, b, f.op.isRead, f.op.data, f.coin);
    }
  }

  // ---------- On a run ----------

  /** Every access of every run is translated so, and counted. */
  lemma RunTranslates(g: Geometry, trace: seq<Event>, e: Event)
    requires g.Valid() && WellFormed(g, trace + [e]) && e.op.AccessOp? && EnoughFrames(g, trace + [e])
    ensures WellFormed(g, trace) && EnoughFrames(g, trace)
    ensures var s, r := After(g, trace), After(g, trace + [e]);
      var AccessOp(p, a, isRead, data) := e.op;
      && Translated(r, p, a, if isRead then LastByte(trace, p, a) else data)
      && HasEntryFor(s, p, a) && Counted(s, r, isRead, !EntryFor(s, p, a).valid)
  {
    ReadsReturnLastWrite(g, trace, e);
    ExecOneMore(g, trace, e);
    AccessTranslates(After(g, trace), e.op.pid, e.op.address, e.op.isRead, e.op.data, e.coin);
  }

  /** On every run, two accesses in a row to one page fault at most once. */
  lemma RunFaultsOncePerPage(g: Geometry, trace: seq<Event>, e: Event, f: Event)
    requires g.Valid() && WellFormed(g, trace + [e] + [f]) && EnoughFrames(g, trace + [e] + [f])
    requires e.op.AccessOp? && f.op.AccessOp? && e.op.pid == f.op.pid
    requires e.op.address / g.pageSize == f.op.address / g.pageSize
    ensures WellFormed(g, trace + [e]) && EnoughFrames(g, trace + [e])
    ensures After(g, trace + [e] + [f]).stats.pageFaults == After(g, trace + [e]).stats.pageFaults
  {
    ReadsReturnLastWrite(g, trace + [e], f);
    ReadsReturnLastWrite(g, trace, e);
    ExecOneMore(g, trace, e);
    ExecOneMore(g, trace + [e], f);
    SamePageFaultsOnce(After(g, trace), e.op.pid, e.op.address, f.op.address, e, f);
  }
}
