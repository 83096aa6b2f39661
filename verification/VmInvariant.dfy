/** The consistency that the simulator's own `check_validity` looks for, strengthened to an
    inductive invariant, and the proof that START, STOP and every access keep it. */
module VmInvariant {
  import opened Basics
  import opened VmModel

  // ---------- The invariant ----------

  ghost predicate Running(s: Vm, p: nat) {
    p < |s.procs| && s.procs[p].running
  }

  ghost predicate Shape(s: Vm) {
    && s.g.Valid()
    && |s.mem| == |s.ft| == s.g.frames
    && |s.procs| == s.g.maxPid
    && 0 < s.nextToken
  }

  /** A running process has a complete page table in a protected frame other than frame 0. */
  ghost predicate TableOk(s: Vm, p: nat)
    requires Shape(s) && Running(s, p)
  {
    var t := s.procs[p].savedPtbr;
    && 0 < t < s.g.frames
    && s.mem[t].PageTable?
    && |s.mem[t].ptes| == s.g.pages
    && s.ft[t].protected
  }

  ghost predicate TablesOk(s: Vm)
    requires Shape(s)
  {
    && (forall p: nat | Running(s, p) :: TableOk(s, p))
    && (forall p: nat, q: nat | Running(s, p) && Running(s, q) && p != q ::
          s.procs[p].savedPtbr != s.procs[q].savedPtbr)
  }

  /** Page `v` of process `p` has a page table entry. */
  ghost predicate HasEntry(s: Vm, p: nat, v: nat) {
    Running(s, p) && v < s.g.pages
  }

  ghost function Entry(s: Vm, p: nat, v: nat): Pte
    requires Shape(s) && TablesOk(s) && HasEntry(s, p, v)
  {
    assert TableOk(s, p);
    s.mem[s.procs[p].savedPtbr].ptes[v]
  }

  /** The protected frames are frame 0 and the running processes' page tables. */
  ghost predicate ProtectedOk(s: Vm)
    requires Shape(s)
  {
    && s.ft[0].protected
    && forall f: nat | f < s.g.frames && s.ft[f].protected ::
      !s.ft[f].mapped && (f == 0 || exists p: nat :: Running(s, p) && s.procs[p].savedPtbr == f)
  }

  /** What page `e` has outside memory: its swap entry, or zeros. */
  ghost function Backing(s: Vm, e: Pte): seq<Byte>
    requires e.swap != 0 ==> e.swap in s.swap
  {
    if e.swap == 0 then Zeros(s.g.pageSize) else s.swap[e.swap]
  }

  /** A valid entry and its frame point at each other; a clean page equals its backing. */
  ghost predicate EntryOk(s: Vm, p: nat, v: nat)
    requires Shape(s) && TablesOk(s) && HasEntry(s, p, v)
  {
    var e := Entry(s, p, v);
    && (e.swap != 0 ==> e.swap in s.swap)
    && (e.valid ==>
      && 0 < e.pfn < s.g.frames
      && !s.ft[e.pfn].protected
      && s.ft[e.pfn].mapped
      && s.ft[e.pfn].process == Some(p)
      && s.ft[e.pfn].vpn == v
      && s.mem[e.pfn].Page?
      && |s.mem[e.pfn].bytes| == s.g.pageSize
      && (!e.dirty ==> s.mem[e.pfn].bytes == Backing(s, e)))
  }

  ghost predicate EntriesOk(s: Vm)
    requires Shape(s) && TablesOk(s)
  {
    forall p: nat, v: nat | HasEntry(s, p, v) :: EntryOk(s, p, v)
  }

  /** A mapped frame belongs to a running process whose entry points back at it. */
  ghost predicate FrameOk(s: Vm, f: nat)
    requires Shape(s) && TablesOk(s) && f < s.g.frames
  {
    s.ft[f].mapped ==>
      && s.ft[f].process.Some?
      && HasEntry(s, s.ft[f].process.value, s.ft[f].vpn)
      && Entry(s, s.ft[f].process.value, s.ft[f].vpn).valid
      && Entry(s, s.ft[f].process.value, s.ft[f].vpn).pfn == f
  }

  ghost predicate FramesOk(s: Vm)
    requires Shape(s) && TablesOk(s)
  {
    forall f: nat | f < s.g.frames :: FrameOk(s, f)
  }

  ghost predicate Owned(s: Vm, token: nat)
    requires Shape(s) && TablesOk(s)
  {
    exists p: nat, v: nat :: HasEntry(s, p, v) && Entry(s, p, v).swap == token
  }

  /** Every token in use was issued, holds one page and belongs to exactly one entry. */
  ghost predicate SwapOk(s: Vm)
    requires Shape(s) && TablesOk(s)
  {
    && (forall token | token in s.swap ::
          0 < token < s.nextToken && |s.swap[token]| == s.g.pageSize && Owned(s, token))
    && (forall p: nat, v: nat, q: nat, w: nat
          | HasEntry(s, p, v) && HasEntry(s, q, w) && Entry(s, p, v).swap == Entry(s, q, w).swap != 0 ::
          p == q && v == w)
  }

  /** The page table base register serves the current process while it runs; once that process
      has stopped it still names the old table's frame, which maps no page until another
      process runs. */
  ghost predicate CurrentOk(s: Vm) {
    s.current.Some? ==>
      if Running(s, s.current.value) then s.ptbr == s.procs[s.current.value].savedPtbr
      else 0 < s.ptbr < |s.ft| && !s.ft[s.ptbr].mapped
  }

  ghost predicate Inv(s: Vm) {
    && Shape(s)
    && TablesOk(s)
    && ProtectedOk(s)
    && EntriesOk(s)
    && FramesOk(s)
    && SwapOk(s)
    && CurrentOk(s)
  }

  /** The bytes of page `v` of process `p`, wherever they are kept. */
  ghost function Contents(s: Vm, p: nat, v: nat): (r: seq<Byte>)
    requires Inv(s) && HasEntry(s, p, v)
    ensures |r| == s.g.pageSize
  {
    assert EntryOk(s, p, v);
    var e := Entry(s, p, v);
    if e.valid then s.mem[e.pfn].bytes else Backing(s, e)
  }

  /** No page of any process that runs in both states differs between them. */
  ghost predicate SameContents(s: Vm, r: Vm)
    requires Inv(s) && Inv(r)
  {
    forall p: nat, v: nat | HasEntry(s, p, v) && HasEntry(r, p, v) :: Contents(r, p, v) == Contents(s, p, v)
  }

  // ---------- Small facts ----------

  lemma InvEvictable(s: Vm)
    requires Inv(s)
    ensures AllEvictable(s)
  {
    forall f: nat | f < |s.ft| && !s.ft[f].protected
      ensures Evictable(s, f)
    {
      assert FrameOk(s, f);
      if s.ft[f].mapped {
        assert EntryOk(s, s.ft[f].process.value, s.ft[f].vpn);
        assert TableOk(s, s.ft[f].process.value);
      }
    }
  }

  lemma InvTableFits(s: Vm, p: nat)
    requires Inv(s) && Running(s, p)
    ensures TableFits(s, s.procs[p].savedPtbr)
  {
    assert TableOk(s, p);
    var ptes := s.mem[s.procs[p].savedPtbr].ptes;
    forall v | 0 <= v < s.g.pages && ptes[v].valid
      ensures ptes[v].pfn < |s.ft|
    {
      assert ptes[v] == Entry(s, p, v) && EntryOk(s, p, v);
    }
  }

  /** Storing one page table entry changes that entry and no other. */
  lemma SetEntry(s: Vm, p: nat, v: nat, e: Pte)
    requires Shape(s) && TablesOk(s) && HasEntry(s, p, v)
    ensures HasPte(s, s.procs[p].savedPtbr, v)
    ensures var r := SetPte(s, s.procs[p].savedPtbr, v, e);
      && Shape(r) && TablesOk(r)
      && (forall q: nat, w: nat | HasEntry(s, q, w) ::
            HasEntry(r, q, w) && Entry(r, q, w) == if q == p && w == v then e else Entry(s, q, w))
      && (forall f: nat | f < s.g.frames && f != s.procs[p].savedPtbr :: r.mem[f] == s.mem[f])
  {
    assert TableOk(s, p);
    var r := SetPte(s, s.procs[p].savedPtbr, v, e);
    forall q: nat | Running(r, q)
      ensures TableOk(r, q)
    {
      assert TableOk(s, q);
    }
  }

  /** No two pages share a swap entry. */
  lemma TokensApart(s: Vm, p: nat, v: nat, q: nat, w: nat)
    requires Inv(s) && HasEntry(s, p, v) && HasEntry(s, q, w) && (p != q || v != w)
    ensures Entry(s, p, v).swap != 0 ==> Entry(s, q, w).swap != Entry(s, p, v).swap
  {
  }

  /** Two states with the same memory, processes and swap space. */
  ghost predicate SameMachine(s: Vm, r: Vm) {
    && r.g == s.g && r.mem == s.mem && r.ft == s.ft && r.procs == s.procs
    && r.swap == s.swap && r.nextToken == s.nextToken
  }

  lemma SameMachineEntries(s: Vm, r: Vm)
    requires Inv(s) && SameMachine(s, r)
    ensures Shape(r) && TablesOk(r) && EntriesOk(r)
    ensures forall p: nat, v: nat | HasEntry(r, p, v) :: HasEntry(s, p, v) && Entry(r, p, v) == Entry(s, p, v)
  {
    forall p: nat | Running(r, p)
      ensures TableOk(r, p)
    {
      assert TableOk(s, p);
    }
    forall p: nat, v: nat | HasEntry(r, p, v)
      ensures HasEntry(s, p, v) && Entry(r, p, v) == Entry(s, p, v) && EntryOk(r, p, v)
    {
      assert HasEntry(s, p, v) && EntryOk(s, p, v);
    }
  }

  lemma SameMachineSwap(s: Vm, r: Vm)
    requires Inv(s) && SameMachine(s, r)
    ensures Shape(r) && TablesOk(r) && SwapOk(r)
  {
    SameMachineEntries(s, r);
    forall token | token in r.swap
      ensures Owned(r, token)
    {
      var p: nat, v: nat :| HasEntry(s, p, v) && Entry(s, p, v).swap == token;
      assert HasEntry(r, p, v) && Entry(r, p, v).swap == token;
    }
  }

  /** The statistics, the running process and PTBR play no part in the rest of the invariant. */
  lemma SameMachineInv(s: Vm, r: Vm)
    requires Inv(s) && SameMachine(s, r) && CurrentOk(r)
    ensures Inv(r) && SameContents(s, r)
  {
    SameMachineEntries(s, r);
    SameMachineSwap(s, r);
    forall f: nat | f < r.g.frames
      ensures FrameOk(r, f)
    {
      assert FrameOk(s, f);
    }
    forall f: nat | f < r.g.frames && r.ft[f].protected && f != 0
      ensures exists p: nat :: Running(r, p) && r.procs[p].savedPtbr == f
    {
      var p: nat :| Running(s, p) && s.procs[p].savedPtbr == f;
      assert Running(r, p);
    }
  }

  // ---------- A change confined to one page and one frame ----------

  /** `r` differs from `s` only in entry `v` of process `p`, which becomes `e`, in frame `f`,
      and in the swap data under that entry's token. Frame `f` serves this page or nothing. */
  ghost predicate Local(s: Vm, r: Vm, p: nat, v: nat, e: Pte, f: nat) {
    && Inv(s)
    && Shape(r) && TablesOk(r)
    && r.g == s.g && r.procs == s.procs && r.ptbr == s.ptbr && r.current == s.current
    && HasEntry(s, p, v)
    && (forall q: nat, w: nat | HasEntry(s, q, w) ::
          Entry(r, q, w) == if q == p && w == v then e else Entry(s, q, w))
    && f < s.g.frames && !s.ft[f].protected && !r.ft[f].protected
    && (forall h: nat | h < s.g.frames && h != f ::
          r.ft[h] == s.ft[h] && (s.mem[h].Page? ==> r.mem[h] == s.mem[h]))
    && (s.ft[f].mapped ==> s.ft[f].process == Some(p) && s.ft[f].vpn == v)
    && (Entry(s, p, v).valid ==> Entry(s, p, v).pfn == f)
    && SwapLocal(s, r, Entry(s, p, v), e)
    && CurrentOk(r)
  }

  /** The entry keeps its token or, having none, is issued the next one. */
  ghost predicate SwapLocal(s: Vm, r: Vm, was: Pte, e: Pte) {
    && (|| (e.swap == was.swap && r.nextToken == s.nextToken)
        || (was.swap == 0 && e.swap == s.nextToken && r.nextToken == s.nextToken + 1))
    && r.swap.Keys == s.swap.Keys + (if e.swap == 0 then {} else {e.swap})
    && (forall token | token in s.swap && token != e.swap :: r.swap[token] == s.swap[token])
    && (e.swap != 0 ==> |r.swap[e.swap]| == s.g.pageSize)
  }

  lemma LocalEntry(s: Vm, r: Vm, p: nat, v: nat, e: Pte, f: nat, q: nat, w: nat)
    requires Local(s, r, p, v, e, f)
    requires HasEntry(s, q, w) && (q != p || w != v)
    ensures EntryOk(r, q, w)
    ensures Entry(r, q, w) == Entry(s, q, w)
    ensures Entry(s, q, w).valid ==>
      Entry(s, q, w).pfn < s.g.frames && Entry(s, q, w).pfn != f && r.mem[Entry(s, q, w).pfn] == s.mem[Entry(s, q, w).pfn]
    ensures Backing(r, Entry(s, q, w)) == Backing(s, Entry(s, q, w))
  {
  }

  lemma LocalFrames(s: Vm, r: Vm, p: nat, v: nat, e: Pte, f: nat)
    requires Local(s, r, p, v, e, f) && FrameOk(r, f)
    ensures FramesOk(r)
  {
    forall h: nat | h < r.g.frames
      ensures FrameOk(r, h)
    {
      assert FrameOk(s, h);
    }
  }

  lemma LocalSwap(s: Vm, r: Vm, p: nat, v: nat, e: Pte, f: nat)
    requires Local(s, r, p, v, e, f)
    ensures SwapOk(r)
  {
    assert Entry(r, p, v) == e;
    forall token | token in r.swap
      ensures 0 < token < r.nextToken && |r.swap[token]| == r.g.pageSize && Owned(r, token)
    {
      if token == e.swap {
        assert HasEntry(r, p, v) && Entry(r, p, v).swap == token;
        assert EntryOk(s, p, v);
      } else {
        var q: nat, w: nat :| HasEntry(s, q, w) && Entry(s, q, w).swap == token;
        assert EntryOk(s, p, v);
        assert HasEntry(r, q, w) && Entry(r, q, w).swap == token;
      }
    }
    forall q: nat, w: nat, q': nat, w': nat
      | HasEntry(r, q, w) && HasEntry(r, q', w') && Entry(r, q, w).swap == Entry(r, q', w').swap != 0
      ensures q == q' && w == w'
    {
      assert HasEntry(s, q, w) && HasEntry(s, q', w');
      assert EntryOk(s, q, w) && EntryOk(s, q', w');
    }
  }

  lemma LocalProtected(s: Vm, r: Vm, p: nat, v: nat, e: Pte, f: nat)
    requires Local(s, r, p, v, e, f)
    ensures ProtectedOk(r)
  {
  }

  /** A local change that leaves the page and the frame consistent keeps the invariant and
      every other page. */
  lemma LocalInv(s: Vm, r: Vm, p: nat, v: nat, e: Pte, f: nat)
    requires Local(s, r, p, v, e, f) && EntryOk(r, p, v) && FrameOk(r, f)
    ensures Inv(r)
    ensures forall q: nat, w: nat | HasEntry(s, q, w) && (q != p || w != v) :: Contents(r, q, w) == Contents(s, q, w)
  {
    forall q: nat, w: nat | HasEntry(r, q, w)
      ensures EntryOk(r, q, w)
    {
      if q != p || w != v {
        LocalEntry(s, r, p, v, e, f, q, w);
      }
    }
    LocalFrames(s, r, p, v, e, f);
    LocalSwap(s, r, p, v, e, f);
    LocalProtected(s, r, p, v, e, f);
    forall q: nat, w: nat | HasEntry(s, q, w) && (q != p || w != v)
      ensures Contents(r, q, w) == Contents(s, q, w)
    {
      LocalEntry(s, r, p, v, e, f, q, w);
    }
  }

  /** A local change that keeps the bytes of its page as well changes no page at all. */
  lemma LocalSame(s: Vm, r: Vm, p: nat, v: nat, e: Pte, f: nat)
    requires Local(s, r, p, v, e, f) && EntryOk(r, p, v) && FrameOk(r, f)
    requires (if e.valid then r.mem[e.pfn].bytes else Backing(r, e)) == Contents(s, p, v)
    ensures Inv(r) && SameContents(s, r)
  {
    LocalInv(s, r, p, v, e, f);
    assert Contents(r, p, v) == Contents(s, p, v);
  }

  /** Tables after one entry was stored and nothing else about them changed. */
  lemma EntryUpdate(s: Vm, r: Vm, p: nat, v: nat, e: Pte)
    requires Shape(s) && TablesOk(s) && HasEntry(s, p, v)
    requires HasPte(s, s.procs[p].savedPtbr, v)
    requires Shape(r) && r.g == s.g && r.procs == s.procs
    requires forall h: nat | h < s.g.frames && s.ft[h].protected ::
      r.ft[h].protected && r.mem[h] == SetPte(s, s.procs[p].savedPtbr, v, e).mem[h]
    ensures TablesOk(r)
    ensures forall q: nat, w: nat | HasEntry(s, q, w) ::
      Entry(r, q, w) == if q == p && w == v then e else Entry(s, q, w)
  {
    SetEntry(s, p, v, e);
    var u := SetPte(s, s.procs[p].savedPtbr, v, e);
    forall q: nat | Running(r, q)
      ensures TableOk(r, q)
    {
      assert TableOk(s, q) && TableOk(u, q);
    }
    forall q: nat, w: nat | HasEntry(s, q, w)
      ensures Entry(r, q, w) == if q == p && w == v then e else Entry(s, q, w)
    {
      assert TableOk(s, q) && HasEntry(u, q, w);
      assert Entry(r, q, w) == Entry(u, q, w);
    }
  }

  // ---------- free_frame ----------

  /** The entry and the swap space that a write-back leaves. */
  lemma WriteBackEffect(s: Vm, p: nat, v: nat, f: nat)
    requires Inv(s) && HasEntry(s, p, v) && Entry(s, p, v).valid && Entry(s, p, v).pfn == f
    ensures HasPte(s, s.procs[p].savedPtbr, v) && f < |s.mem| && s.mem[f].Page?
    ensures var r := WriteBack(s, s.procs[p].savedPtbr, v, f);
      var e := Entry(s, p, v);
      var token := if e.swap == 0 then s.nextToken else e.swap;
      && r == SetPte(s, s.procs[p].savedPtbr, v, e.(dirty := false, swap := token))
                .(swap := s.swap[token := s.mem[f].bytes],
                  nextToken := if e.swap == 0 then s.nextToken + 1 else s.nextToken,
                  stats := r.stats)
  {
    assert EntryOk(s, p, v);
    assert TableOk(s, p);
    var t := s.procs[p].savedPtbr;
    var e := Entry(s, p, v);
    var w := SwapWrite(s, t, v, s.mem[f].bytes);
    assert 0 !in s.swap;
    if e.swap == 0 {
      assert SetPte(w, t, v, PteAt(w, t, v).(dirty := false)).mem[t].ptes
          == s.mem[t].ptes[v := e.(dirty := false, swap := s.nextToken)];
    }
  }

  lemma WriteBackInv(s: Vm, p: nat, v: nat, f: nat)
    requires Inv(s) && HasEntry(s, p, v) && Entry(s, p, v).valid && Entry(s, p, v).pfn == f
    ensures HasPte(s, s.procs[p].savedPtbr, v) && f < |s.mem| && s.mem[f].Page?
    ensures var r := WriteBack(s, s.procs[p].savedPtbr, v, f);
      && Inv(r) && SameContents(s, r)
      && HasEntry(r, p, v) && Entry(r, p, v).valid && Entry(r, p, v).pfn == f && !Entry(r, p, v).dirty
  {
    WriteBackEffect(s, p, v, f);
    var e := Entry(s, p, v);
    WrittenBackInv(s, WriteBack(s, s.procs[p].savedPtbr, v, f), p, v, f,
                   e.(dirty := false, swap := if e.swap == 0 then s.nextToken else e.swap));
  }

  /** `r` is `s` after the write-back of page `v` of process `p` from frame `f`; its entry is `e`. */
  ghost predicate WrittenBack(s: Vm, r: Vm, p: nat, v: nat, f: nat, e: Pte) {
    && Inv(s) && HasEntry(s, p, v) && Entry(s, p, v).valid && Entry(s, p, v).pfn == f
    && HasPte(s, s.procs[p].savedPtbr, v) && f < |s.mem| && s.mem[f].Page?
    && var d := Entry(s, p, v);
    && e == d.(dirty := false, swap := if d.swap == 0 then s.nextToken else d.swap)
    && r == SetPte(s, s.procs[p].savedPtbr, v, e)
              .(swap := s.swap[e.swap := s.mem[f].bytes],
                nextToken := if d.swap == 0 then s.nextToken + 1 else s.nextToken,
                stats := r.stats)
  }

  lemma WrittenBackLocal(s: Vm, r: Vm, p: nat, v: nat, f: nat, e: Pte)
    requires WrittenBack(s, r, p, v, f, e)
    ensures Local(s, r, p, v, e, f)
  {
    assert EntryOk(s, p, v) && FrameOk(s, f) && TableOk(s, p);
    EntryUpdate(s, r, p, v, e);
    assert SwapLocal(s, r, Entry(s, p, v), e);
  }

  lemma WrittenBackInv(s: Vm, r: Vm, p: nat, v: nat, f: nat, e: Pte)
    requires WrittenBack(s, r, p, v, f, e)
    ensures Inv(r) && SameContents(s, r)
    ensures HasEntry(r, p, v) && Entry(r, p, v) == e
  {
    WrittenBackLocal(s, r, p, v, f, e);
    assert EntryOk(s, p, v) && FrameOk(s, f) && TableOk(s, p);
    assert EntryOk(r, p, v) && FrameOk(r, f);
    LocalSame(s, r, p, v, e, f);
  }

  lemma DroppedInv(s: Vm, r: Vm, p: nat, v: nat, f: nat)
    requires Inv(s) && HasEntry(s, p, v) && Entry(s, p, v).valid && Entry(s, p, v).pfn == f && !Entry(s, p, v).dirty
    requires HasPte(s, s.procs[p].savedPtbr, v) && f < |s.ft|
    requires r == SetPte(s, s.procs[p].savedPtbr, v, Entry(s, p, v).(valid := false)).(ft := s.ft[f := Unmapped(s.ft[f])])
    ensures Inv(r) && SameContents(s, r)
    ensures f < |r.ft| && !r.ft[f].mapped && !r.ft[f].protected
  {
    var e := Entry(s, p, v).(valid := false);
    assert EntryOk(s, p, v) && FrameOk(s, f) && TableOk(s, p);
    EntryUpdate(s, r, p, v, e);
    assert SwapLocal(s, r, Entry(s, p, v), e);
    assert Local(s, r, p, v, e, f);
    assert EntryOk(r, p, v) && FrameOk(r, f);
    LocalSame(s, r, p, v, e, f);
  }

  /** Freeing a frame moves its page to swap if need be and changes no page of any process. */
  lemma EvictInv(s: Vm, f: nat)
    requires Inv(s) && f < s.g.frames && !s.ft[f].protected
    ensures Evictable(s, f)
    ensures var r := Evict(s, f);
      Inv(r) && SameContents(s, r) && r.g == s.g && r.procs == s.procs && r.current == s.current
      && !r.ft[f].mapped && !r.ft[f].protected
  {
    InvEvictable(s);
    EvictKeepsShape(s, f);
    if s.ft[f].mapped {
      var p, v := s.ft[f].process.value, s.ft[f].vpn;
      assert FrameOk(s, f) && EntryOk(s, p, v) && TableOk(s, p);
      if Entry(s, p, v).dirty {
        WriteBackInv(s, p, v, f);
        DroppedInv(WriteBack(s, s.procs[p].savedPtbr, v, f), Evict(s, f), p, v, f);
      } else {
        DroppedInv(s, Evict(s, f), p, v, f);
      }
    }
  }

  lemma FreeFrameInv(s: Vm, coin: nat -> bool)
    requires Inv(s)
    ensures AllEvictable(s)
    ensures FreeFrame(s, coin).Panic? <==> forall f :: 0 <= f < s.g.frames ==> s.ft[f].protected
    ensures FreeFrame(s, coin).Panic? ==> FreeFrame(s, coin).reason == OutOfMemory
    ensures FreeFrame(s, coin).Done? ==>
      var (r, f) := FreeFrame(s, coin).value;
      Inv(r) && SameContents(s, r) && r.g == s.g && r.procs == s.procs && r.ptbr == s.ptbr && r.current == s.current
      && f < s.g.frames && !r.ft[f].mapped && !r.ft[f].protected && r == Evict(s, f)
  {
    InvEvictable(s);
    VictimIsUnprotected(s.ft, coin);
    var victim := SelectVictim(s.ft, coin);
    if victim.Some? {
      EvictInv(s, victim.value);
      EvictKeepsShape(s, victim.value);
    }
  }

  // ---------- page_fault ----------

  /** Mapping a free frame to the faulting page restores exactly the page's bytes. */
  lemma MapFrameInv(s: Vm, p: nat, v: nat, f: nat)
    requires Inv(s) && HasEntry(s, p, v) && s.ptbr == s.procs[p].savedPtbr && !Entry(s, p, v).valid
    requires f < s.g.frames && !s.ft[f].mapped && !s.ft[f].protected
    ensures HasPte(s, s.ptbr, v) && f != s.ptbr
    ensures MapFrame(s, p, v, f).Done?
    ensures var r := MapFrame(s, p, v, f).value;
      && Inv(r) && SameContents(s, r) && r.g == s.g && r.procs == s.procs && r.ptbr == s.ptbr && r.current == s.current
      && HasEntry(r, p, v) && Entry(r, p, v).valid
  {
    assert TableOk(s, p) && EntryOk(s, p, v);
    MappedInv(s, MapFrame(s, p, v, f).value, p, v, f);
  }

  lemma MappedInv(s: Vm, r: Vm, p: nat, v: nat, f: nat)
    requires Inv(s) && HasEntry(s, p, v) && s.ptbr == s.procs[p].savedPtbr && !Entry(s, p, v).valid
    requires f < s.g.frames && !s.ft[f].mapped && !s.ft[f].protected
    requires HasPte(s, s.ptbr, v) && f != s.ptbr
    requires MapFrame(s, p, v, f) == Done(r)
    ensures Inv(r) && SameContents(s, r)
    ensures HasEntry(r, p, v) && Entry(r, p, v).valid
  {
    assert TableOk(s, p) && EntryOk(s, p, v);
    var e := Entry(s, p, v).(valid := true, dirty := false, pfn := f);
    assert s.ft[0].protected;
    EntryUpdate(s, r, p, v, e);
    assert SwapLocal(s, r, Entry(s, p, v), e);
    assert Local(s, r, p, v, e, f);
    assert EntryOk(r, p, v) && FrameOk(r, f);
    LocalSame(s, r, p, v, e, f);
  }

  // ---------- mem_access ----------

  lemma SwitchInv(s: Vm, p: nat, stats: Stats)
    requires Inv(s) && Running(s, p)
    ensures var r := SwitchTo(s, p).(stats := stats);
      Inv(r) && SameContents(s, r) && r.ptbr == s.procs[p].savedPtbr && r.current == Some(p)
  {
    SameMachineInv(s, SwitchTo(s, p).(stats := stats));
  }

  lemma PageInRange(g: Geometry, address: nat)
    requires g.Valid() && address < g.pages * g.pageSize
    ensures Vpn(g, address) < g.pages
  {
  }

  /** Freeing frame `f` and mapping the faulting page there. */
  lemma RefillInv(s: Vm, p: nat, v: nat, f: nat)
    requires Inv(s) && HasEntry(s, p, v) && s.current == Some(p) && !Entry(s, p, v).valid
    requires f < s.g.frames && !s.ft[f].protected
    ensures Evictable(s, f)
    ensures var t := Evict(s, f); HasPte(t, t.ptbr, v) && f < |t.mem| == |t.ft| && f != t.ptbr && MapFrame(t, p, v, f).Done?
    ensures var r := MapFrame(Evict(s, f), p, v, f).value;
      && Inv(r) && SameContents(s, r) && r.g == s.g && r.procs == s.procs && r.ptbr == s.ptbr && r.current == s.current
      && HasEntry(r, p, v) && Entry(r, p, v).valid
  {
    EvictInv(s, f);
    EvictKeepsInvalid(s, f, p, v);
    EvictKeepsShape(s, f);
    MapFrameInv(Evict(s, f), p, v, f);
    SameContentsTrans(s, Evict(s, f), MapFrame(Evict(s, f), p, v, f).value);
  }

  /** A page fault succeeds unless every frame is protected, and changes no page. */
  lemma PageFaultInv(s: Vm, p: nat, v: nat, coin: nat -> bool)
    requires Inv(s) && HasEntry(s, p, v) && s.current == Some(p) && !Entry(s, p, v).valid
    ensures CanFault(s, v)
    ensures PageFault(s, p, v, coin).Panic? <==> forall f :: 0 <= f < s.g.frames ==> s.ft[f].protected
    ensures PageFault(s, p, v, coin).Panic? ==> PageFault(s, p, v, coin).reason == OutOfMemory
    ensures PageFault(s, p, v, coin).Done? ==>
      var r := PageFault(s, p, v, coin).value;
      && Inv(r) && SameContents(s, r) && r.g == s.g && r.procs == s.procs && r.ptbr == s.ptbr && r.current == s.current
      && HasEntry(r, p, v) && Entry(r, p, v).valid
  {
    CanFaultHere(s, p, v);
    var s1 := s.(stats := s.stats.(pageFaults := s.stats.pageFaults + 1));
    SameMachineInv(s, s1);
    assert HasEntry(s1, p, v) && Entry(s1, p, v) == Entry(s, p, v);
    PageFaultUnfolds(s, s1, p, v, coin);
    if PageFault(s, p, v, coin).Done? {
      SameContentsTrans(s, s1, PageFault(s, p, v, coin).value);
    }
  }

  lemma CanFaultHere(s: Vm, p: nat, v: nat)
    requires Inv(s) && HasEntry(s, p, v) && s.current == Some(p)
    ensures CanFault(s, v)
  {
    assert TableOk(s, p);
    InvEvictable(s);
  }

  lemma PageFaultUnfolds(s: Vm, s1: Vm, p: nat, v: nat, coin: nat -> bool)
    requires CanFault(s, v)
    requires s1 == s.(stats := s.stats.(pageFaults := s.stats.pageFaults + 1))
    requires Inv(s1) && HasEntry(s1, p, v) && s1.current == Some(p) && !Entry(s1, p, v).valid
    ensures PageFault(s, p, v, coin).Panic? <==> forall f :: 0 <= f < s.g.frames ==> s.ft[f].protected
    ensures PageFault(s, p, v, coin).Panic? ==> PageFault(s, p, v, coin).reason == OutOfMemory
    ensures PageFault(s, p, v, coin).Done? ==>
      var r := PageFault(s, p, v, coin).value;
      && Inv(r) && SameContents(s1, r) && r.g == s.g && r.procs == s.procs && r.ptbr == s.ptbr && r.current == s.current
      && HasEntry(r, p, v) && Entry(r, p, v).valid
  {
    FreeFrameInv(s1, coin);
    PageFaultIsRefill(s, s1, p, v, coin);
    if FreeFrame(s1, coin).Done? {
      RefillInv(s1, p, v, FreeFrame(s1, coin).value.1);
    }
  }

  lemma PageFaultIsRefill(s: Vm, s1: Vm, p: nat, v: nat, coin: nat -> bool)
    requires CanFault(s, v) && AllEvictable(s1)
    requires s1 == s.(stats := s.stats.(pageFaults := s.stats.pageFaults + 1))
    ensures FreeFrame(s1, coin).Panic? ==> PageFault(s, p, v, coin) == Panic(FreeFrame(s1, coin).reason)
    ensures FreeFrame(s1, coin).Done? ==>
      var f := FreeFrame(s1, coin).value.1;
      && Evictable(s1, f)
      && var t := Evict(s1, f);
      && HasPte(t, t.ptbr, v) && f < |t.mem| == |t.ft| && f != t.ptbr
      && PageFault(s, p, v, coin) == MapFrame(t, p, v, f)
  {
    VictimIsUnprotected(s.ft, coin);
    if FreeFrame(s1, coin).Done? {
      EvictKeepsShape(s1, FreeFrame(s1, coin).value.1);
    }
  }

  lemma SameContentsTrans(s: Vm, t: Vm, r: Vm)
    requires Inv(s) && Inv(t) && Inv(r) && SameContents(s, t) && SameContents(t, r)
    requires s.g == t.g && s.procs == t.procs
    ensures SameContents(s, r)
  {
  }

  /** Eviction validates no entry. */
  lemma EvictKeepsInvalid(s: Vm, f: nat, p: nat, v: nat)
    requires Inv(s) && f < s.g.frames && !s.ft[f].protected && HasEntry(s, p, v) && !Entry(s, p, v).valid
    ensures Evictable(s, f) && Inv(Evict(s, f)) && HasEntry(Evict(s, f), p, v) && !Entry(Evict(s, f), p, v).valid
  {
    EvictInv(s, f);
    EvictKeepsShape(s, f);
    InvalidIsKept(s, Evict(s, f), f, p, v);
  }

  lemma InvalidIsKept(s: Vm, r: Vm, f: nat, p: nat, v: nat)
    requires Inv(s) && Inv(r) && r.g == s.g && r.procs == s.procs && f < s.g.frames && !r.ft[f].mapped
    requires forall h :: 0 <= h < |s.ft| && h != f ==> r.ft[h] == s.ft[h]
    requires HasEntry(s, p, v) && !Entry(s, p, v).valid
    ensures HasEntry(r, p, v) && !Entry(r, p, v).valid
  {
    assert EntryOk(r, p, v);
    var h := Entry(r, p, v).pfn;
    if h < s.g.frames {
      assert FrameOk(s, h);
    }
  }

  /** What a read or a write of one byte does to a page that is mapped. */
  lemma TouchInv(s: Vm, p: nat, v: nat, offset: nat, isRead: bool, data: Byte)
    requires Inv(s) && HasEntry(s, p, v) && s.ptbr == s.procs[p].savedPtbr && Entry(s, p, v).valid
    requires offset < s.g.pageSize
    ensures HasPte(s, s.ptbr, v)
    ensures var f := PteAt(s, s.ptbr, v).pfn;
      f < |s.mem| == |s.ft| && f != s.ptbr && s.mem[f].Page? && offset < |s.mem[f].bytes|
    ensures var (r, b) := Touch(s, v, offset, isRead, data);
      && Inv(r) && r.g == s.g && r.procs == s.procs && r.ptbr == s.ptbr && r.current == s.current
      && HasEntry(r, p, v)
      && b == (if isRead then Contents(s, p, v)[offset] else data)
      && Contents(r, p, v) == (if isRead then Contents(s, p, v) else Contents(s, p, v)[offset := data])
      && forall q: nat, w: nat | HasEntry(s, q, w) && (q != p || w != v) :: Contents(r, q, w) == Contents(s, q, w)
  {
    assert TableOk(s, p) && EntryOk(s, p, v);
    TouchedInv(s, Touch(s, v, offset, isRead, data).0, p, v, offset, isRead, data);
  }

  lemma TouchedInv(s: Vm, r: Vm, p: nat, v: nat, offset: nat, isRead: bool, data: Byte)
    requires Inv(s) && HasEntry(s, p, v) && s.ptbr == s.procs[p].savedPtbr && Entry(s, p, v).valid
    requires offset < s.g.pageSize
    requires HasPte(s, s.ptbr, v)
    requires var f := PteAt(s, s.ptbr, v).pfn;
      f < |s.mem| == |s.ft| && f != s.ptbr && s.mem[f].Page? && offset < |s.mem[f].bytes|
    requires r == Touch(s, v, offset, isRead, data).0
    ensures Inv(r) && HasEntry(r, p, v)
    ensures Contents(r, p, v) == if isRead then Contents(s, p, v) else Contents(s, p, v)[offset := data]
    ensures forall q: nat, w: nat | HasEntry(s, q, w) && (q != p || w != v) :: Contents(r, q, w) == Contents(s, q, w)
  {
    assert TableOk(s, p) && EntryOk(s, p, v);
    var e := if isRead then Entry(s, p, v) else Entry(s, p, v).(dirty := true);
    assert FrameOk(s, e.pfn);
    var t := s.procs[p].savedPtbr;
    assert s.mem[t].ptes == s.mem[t].ptes[v := Entry(s, p, v)];
    EntryUpdate(s, r, p, v, e);
    assert SwapLocal(s, r, Entry(s, p, v), e);
    assert Local(s, r, p, v, e, e.pfn);
    assert EntryOk(r, p, v) && FrameOk(r, e.pfn);
    LocalInv(s, r, p, v, e, e.pfn);
  }

  /** The page table entry of a page that `mem_access` touches is valid at first or after
      the fault. */
  function Present(s: Vm, p: nat, v: nat, coin: nat -> bool): Outcome<Vm>
    requires Inv(s) && HasEntry(s, p, v) && s.current == Some(p)
  {
    assert TableOk(s, p);
    CanFaultHere(s, p, v);
    if PteAt(s, s.ptbr, v).valid then Done(s) else PageFault(s, p, v, coin)
  }

  lemma PresentInv(s: Vm, p: nat, v: nat, coin: nat -> bool)
    requires Inv(s) && HasEntry(s, p, v) && s.current == Some(p)
    ensures Present(s, p, v, coin).Panic? <==>
      !Entry(s, p, v).valid && forall f :: 0 <= f < s.g.frames ==> s.ft[f].protected
    ensures Present(s, p, v, coin).Panic? ==> Present(s, p, v, coin).reason == OutOfMemory
    ensures Present(s, p, v, coin).Done? ==>
      var r := Present(s, p, v, coin).value;
      && Inv(r) && SameContents(s, r) && r.g == s.g && r.procs == s.procs && r.ptbr == s.ptbr && r.current == s.current
      && HasEntry(r, p, v) && Entry(r, p, v).valid
  {
    assert TableOk(s, p);
    if !Entry(s, p, v).valid {
      PageFaultInv(s, p, v, coin);
    }
  }

  /** The state in which `mem_access` starts to translate. */
  function Entered(s: Vm, p: nat): Vm
    requires p < |s.procs|
  {
    SwitchTo(s, p).(stats := s.stats.(accesses := s.stats.accesses + 1))
  }

  /** `mem_access` once the access is counted. */
  function AccessPresent(s: Vm, p: nat, v: nat, offset: nat, isRead: bool, data: Byte, coin: nat -> bool)
    : Outcome<(Vm, Byte)>
    requires Inv(s) && HasEntry(s, p, v) && s.current == Some(p) && offset < s.g.pageSize
  {
    PresentInv(s, p, v, coin);
    var r := Present(s, p, v, coin);
    if r.Panic? then Panic(r.reason)
    else
      TouchInv(r.value, p, v, offset, isRead, data);
      Done(Touch(r.value, v, offset, isRead, data))
  }

  /** An access line of the trace: switch process if need be, fault the page in if need be,
      then read or write one byte. */
  function Access(s: Vm, p: nat, address: nat, isRead: bool, data: Byte, coin: nat -> bool): Outcome<(Vm, Byte)>
    requires Inv(s) && Running(s, p) && address < s.g.pages * s.g.pageSize
  {
    PageInRange(s.g, address);
    SwitchInv(s, p, Entered(s, p).stats);
    AccessPresent(Entered(s, p), p, Vpn(s.g, address), Offset(s.g, address), isRead, data, coin)
  }
}
