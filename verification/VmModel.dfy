/** The paging simulator as a value: one state record and, for every C function of the
    simulator, the function from states to states that it computes. The machine in
    VmMachine.dfy performs the same steps in place and is proved against these. */
module VmModel {
  import opened Basics

  type Byte = x: int | 0 <= x < 256

  /** MEM_SIZE / PAGE_SIZE, NUM_PAGES, PAGE_SIZE and MAX_PID, kept symbolic. */
  datatype Geometry = Geometry(frames: nat, pages: nat, pageSize: nat, maxPid: nat) {
    predicate Valid() {
      0 < frames && 0 < pages && 0 < pageSize && 0 < maxPid
    }
  }

  /** A page table entry; `swap == 0` means that the page has no swap entry. */
  datatype Pte = Pte(valid: bool, dirty: bool, pfn: nat, swap: nat)

  const ZERO_PTE := Pte(false, false, 0, 0)

  /** What a physical frame holds. In the C program every frame is raw bytes that a pointer
      cast views as the frame table, as a page table or as data; here the view is part of the
      content, so a data access that landed in a page table would change the frame's kind. */
  datatype Frame = FrameTable | PageTable(ptes: seq<Pte>) | Page(bytes: seq<Byte>)

  datatype Fte = Fte(protected: bool, mapped: bool, referenced: bool, process: Option<nat>, vpn: nat)

  datatype Pcb = Pcb(running: bool, savedPtbr: nat)

  datatype Stats = Stats(writeCount: nat, readCount: nat, accesses: nat, pageFaults: nat, writebacks: nat)

  /** The whole machine. `swap` maps each token on the swap queue to its page. */
  datatype Vm = Vm(
    g: Geometry,
    mem: seq<Frame>,
    ft: seq<Fte>,
    procs: seq<Pcb>,
    ptbr: nat,
    current: Option<nat>,
    swap: map<nat, seq<Byte>>,
    nextToken: nat,
    stats: Stats)

  datatype PanicReason = OutOfMemory | BadSwapRead | BadSwapFree

  datatype Outcome<+T> = Done(value: T) | Panic(reason: PanicReason)

  function Zeros(n: nat): (r: seq<Byte>)
    ensures |r| == n && forall i :: 0 <= i < n ==> r[i] == 0
  {
    seq(n, _ => 0)
  }

  // ---------- Page table entries ----------

  /** The entry `v` of the page table held in frame `t` can be addressed. */
  predicate HasPte(s: Vm, t: nat, v: nat) {
    t < |s.mem| && s.mem[t].PageTable? && v < |s.mem[t].ptes|
  }

  function PteAt(s: Vm, t: nat, v: nat): Pte
    requires HasPte(s, t, v)
  {
    s.mem[t].ptes[v]
  }

  function SetPte(s: Vm, t: nat, v: nat, e: Pte): Vm
    requires HasPte(s, t, v)
  {
    s.(mem := s.mem[t := PageTable(s.mem[t].ptes[v := e])])
  }

  // ---------- Frame table entries ----------

  /** The entry of a frame that maps nothing; `protected` is kept. */
  function Unmapped(e: Fte): Fte {
    Fte(e.protected, false, false, None, 0)
  }

  // ---------- page_replacement.c ----------

  function FirstFree(ft: seq<Fte>, i: nat): Option<nat>
    requires i <= |ft|
    decreases |ft| - i
  {
    if i == |ft| then None
    else if !ft[i].protected && !ft[i].mapped then Some(i)
    else FirstFree(ft, i + 1)
  }

  /** The second scan of `select_victim_frame`; `coin(i)` is the parity drawn at frame i. */
  function PickUnprotected(ft: seq<Fte>, coin: nat -> bool, i: nat, last: Option<nat>): Option<nat>
    requires i <= |ft|
    decreases |ft| - i
  {
    if i == |ft| then last
    else if ft[i].protected then PickUnprotected(ft, coin, i + 1, last)
    else if coin(i) then Some(i)
    else PickUnprotected(ft, coin, i + 1, Some(i))
  }

  function SelectVictim(ft: seq<Fte>, coin: nat -> bool): Option<nat> {
    var free := FirstFree(ft, 0);
    if free.Some? then free else PickUnprotected(ft, coin, 0, None)
  }

  /** `swap_write` for the page of entry `v` in the table at frame `t`. */
  function SwapWrite(s: Vm, t: nat, v: nat, data: seq<Byte>): Vm
    requires HasPte(s, t, v)
  {
    var e := PteAt(s, t, v);
    if e.swap in s.swap then s.(swap := s.swap[e.swap := data])
    else
      SetPte(s, t, v, e.(swap := s.nextToken))
        .(swap := s.swap[s.nextToken := data], nextToken := s.nextToken + 1)
  }

  /** Frame `f` names an owner whose page table entry exists. */
  predicate Evictable(s: Vm, f: nat) {
    && f < |s.mem| == |s.ft|
    && (s.ft[f].mapped ==>
      && s.ft[f].process.Some?
      && s.ft[f].process.value < |s.procs|
      && HasPte(s, s.procs[s.ft[f].process.value].savedPtbr, s.ft[f].vpn)
      && s.mem[f].Page?)
  }

  /** The write-back of a dirty page: the swap copy is brought up to date and the page is clean. */
  function WriteBack(s: Vm, t: nat, v: nat, f: nat): Vm
    requires HasPte(s, t, v) && f < |s.mem| && s.mem[f].Page?
  {
    var w := SwapWrite(s, t, v, s.mem[f].bytes);
    SetPte(w, t, v, PteAt(w, t, v).(dirty := false))
      .(stats := s.stats.(writebacks := s.stats.writebacks + 1))
  }

  /** Entry `v` of the table at `t` and frame `f` forget each other. */
  function Unmap(s: Vm, t: nat, v: nat, f: nat): Vm
    requires HasPte(s, t, v) && f < |s.ft|
  {
    SetPte(s, t, v, PteAt(s, t, v).(valid := false)).(ft := s.ft[f := Unmapped(s.ft[f])])
  }

  /** The second half of `free_frame`: write back a dirty page, then drop the mapping. */
  function Evict(s: Vm, f: nat): Vm
    requires Evictable(s, f)
  {
    if !s.ft[f].mapped then s
    else
      var t := s.procs[s.ft[f].process.value].savedPtbr;
      var v := s.ft[f].vpn;
      Unmap(if PteAt(s, t, v).dirty then WriteBack(s, t, v, f) else s, t, v, f)
  }

  predicate AllEvictable(s: Vm) {
    forall f: nat | f < |s.ft| && !s.ft[f].protected :: Evictable(s, f)
  }

  function FreeFrame(s: Vm, coin: nat -> bool): (r: Outcome<(Vm, nat)>)
    requires AllEvictable(s)
  {
    var victim := SelectVictim(s.ft, coin);
    if victim.None? then Panic(OutOfMemory)
    else
      VictimIsUnprotected(s.ft, coin);
      Done((Evict(s, victim.value), victim.value))
  }

  /** `free_frame` fails exactly when every frame is protected; otherwise it hands out an
      unprotected frame, and an unmapped one whenever there is one. */
  lemma {:induction false} VictimIsUnprotected(ft: seq<Fte>, coin: nat -> bool)
    ensures var r := SelectVictim(ft, coin);
      && (r.None? <==> forall f :: 0 <= f < |ft| ==> ft[f].protected)
      && (r.Some? ==> r.value < |ft| && !ft[r.value].protected)
      && (r.Some? && (exists f :: 0 <= f < |ft| && !ft[f].protected && !ft[f].mapped) ==> !ft[r.value].mapped)
  {
    FirstFreeIsFree(ft, 0);
    PickedIsUnprotected(ft, coin, 0, None);
  }

  lemma {:induction false} FirstFreeIsFree(ft: seq<Fte>, i: nat)
    requires i <= |ft|
    ensures var r := FirstFree(ft, i);
      && (r.None? <==> forall f :: i <= f < |ft| ==> ft[f].protected || ft[f].mapped)
      && (r.Some? ==> r.value < |ft| && !ft[r.value].protected && !ft[r.value].mapped)
    decreases |ft| - i
  {
    if i < |ft| {
      FirstFreeIsFree(ft, i + 1);
    }
  }

  lemma {:induction false} PickedIsUnprotected(ft: seq<Fte>, coin: nat -> bool, i: nat, last: Option<nat>)
    requires i <= |ft|
    requires last.Some? ==> last.value < |ft| && !ft[last.value].protected
    ensures var r := PickUnprotected(ft, coin, i, last);
      && (r.None? <==> last.None? && forall f :: i <= f < |ft| ==> ft[f].protected)
      && (r.Some? ==> r.value < |ft| && !ft[r.value].protected)
    decreases |ft| - i
  {
    if i < |ft| {
      PickedIsUnprotected(ft, coin, i + 1, if ft[i].protected then last else Some(i));
    }
  }

  /** Which frame it is: the first free one; failing that the first unprotected one whose draw is
      odd; failing that the last unprotected one. */
  lemma VictimIsChosen(ft: seq<Fte>, coin: nat -> bool)
    requires SelectVictim(ft, coin).Some?
    ensures var r := SelectVictim(ft, coin).value;
      && r < |ft| && !ft[r].protected
      && (!ft[r].mapped ==> forall f :: 0 <= f < r ==> ft[f].protected || ft[f].mapped)
      && (ft[r].mapped ==>
            && (forall f :: 0 <= f < |ft| ==> ft[f].protected || ft[f].mapped)
            && (forall f: nat :: f < r && !ft[f].protected ==> !coin(f))
            && (coin(r) || forall f :: r < f < |ft| ==> ft[f].protected))
  {
    FirstFreeIsFirst(ft, 0);
    FirstFreeIsFree(ft, 0);
    PickedIsChosen(ft, coin, 0, None);
    PickedIsUnprotected(ft, coin, 0, None);
  }

  lemma {:induction false} FirstFreeIsFirst(ft: seq<Fte>, i: nat)
    requires i <= |ft|
    ensures var r := FirstFree(ft, i);
      r.Some? ==> i <= r.value < |ft| && forall f :: i <= f < r.value ==> ft[f].protected || ft[f].mapped
    decreases |ft| - i
  {
    if i < |ft| {
      FirstFreeIsFirst(ft, i + 1);
    }
  }

  lemma {:induction false} PickedIsChosen(ft: seq<Fte>, coin: nat -> bool, i: nat, last: Option<nat>)
    requires i <= |ft|
    ensures var r := PickUnprotected(ft, coin, i, last);
      r.Some? ==>
        if r == last && (forall f :: i <= f < |ft| ==> ft[f].protected) then true
        else
          && i <= r.value < |ft|
          && (forall f: nat :: i <= f < r.value && !ft[f].protected ==> !coin(f))
          && (coin(r.value) || forall f :: r.value < f < |ft| ==> ft[f].protected)
    decreases |ft| - i
  {
    if i < |ft| {
      PickedIsChosen(ft, coin, i + 1, if ft[i].protected then last else Some(i));
    }
  }

  // ---------- page_fault.c ----------

  /** Both tables record that frame `f` holds page `v` of process `p`. */
  function Record(s: Vm, p: nat, v: nat, f: nat): Vm
    requires HasPte(s, s.ptbr, v) && f < |s.ft|
  {
    SetPte(s, s.ptbr, v, PteAt(s, s.ptbr, v).(valid := true, dirty := false, pfn := f))
      .(ft := s.ft[f := Fte(false, true, false, Some(p), v)])
  }

  /** Map frame `f` to page `v` of process `p`, then restore the page or zero it. */
  function MapFrame(s: Vm, p: nat, v: nat, f: nat): Outcome<Vm>
    requires HasPte(s, s.ptbr, v)
    requires f < |s.mem| == |s.ft| && f != s.ptbr
  {
    var token := PteAt(s, s.ptbr, v).swap;
    var r := Record(s, p, v, f);
    if token == 0 then Done(r.(mem := r.mem[f := Page(Zeros(s.g.pageSize))]))
    else if token in s.swap then Done(r.(mem := r.mem[f := Page(s.swap[token])]))
    else Panic(BadSwapRead)
  }

  /** Enough of the page tables is in place for `page_fault` to run. */
  predicate CanFault(s: Vm, v: nat) {
    && AllEvictable(s)
    && HasPte(s, s.ptbr, v)
    && |s.mem| == |s.ft|
    && s.ft[s.ptbr].protected
  }

  function PageFault(s: Vm, p: nat, v: nat, coin: nat -> bool): Outcome<Vm>
    requires CanFault(s, v)
  {
    var s1 := s.(stats := s.stats.(pageFaults := s.stats.pageFaults + 1));
    var r := FreeFrame(s1, coin);
    if r.Panic? then Panic(r.reason)
    else
      VictimIsUnprotected(s.ft, coin);
      EvictKeepsShape(s1, r.value.1);
      MapFrame(r.value.0, p, v, r.value.1)
  }

  /** Eviction neither moves nor resizes anything. */
  lemma EvictKeepsShape(s: Vm, f: nat)
    requires Evictable(s, f)
    ensures var r := Evict(s, f);
      && r.g == s.g && r.procs == s.procs && r.ptbr == s.ptbr && r.current == s.current
      && |r.mem| == |s.mem| && |r.ft| == |s.ft|
      && (forall t: nat, v: nat :: HasPte(r, t, v) <==> HasPte(s, t, v))
      && (forall h :: 0 <= h < |s.ft| && h != f ==> r.ft[h] == s.ft[h])
      && (r.ft[f] == if s.ft[f].mapped then Unmapped(s.ft[f]) else s.ft[f])
  {
  }

  // ---------- paging.c ----------

  /** `mem_access` once the page is known to be mapped. */
  function Touch(s: Vm, v: nat, offset: nat, isRead: bool, data: Byte): (Vm, Byte)
    requires HasPte(s, s.ptbr, v)
    requires var f := PteAt(s, s.ptbr, v).pfn;
      f < |s.mem| == |s.ft| && f != s.ptbr && s.mem[f].Page? && offset < |s.mem[f].bytes|
  {
    var e := PteAt(s, s.ptbr, v);
    var s1 := s.(ft := s.ft[e.pfn := s.ft[e.pfn].(referenced := true)]);
    if isRead then
      (s1.(stats := s1.stats.(readCount := s1.stats.readCount + 1)), s.mem[e.pfn].bytes[offset])
    else
      var s2 := SetPte(s1, s.ptbr, v, e.(dirty := true));
      (s2.(mem := s2.mem[e.pfn := Page(s.mem[e.pfn].bytes[offset := data])],
           stats := s2.stats.(writeCount := s2.stats.writeCount + 1)),
       data)
  }

  function Vpn(g: Geometry, address: nat): nat
    requires g.Valid()
  {
    address / g.pageSize
  }

  function Offset(g: Geometry, address: nat): (r: nat)
    requires g.Valid()
    ensures r < g.pageSize
  {
    address % g.pageSize
  }

  /** `context_switch` when another process is running, as the main loop does it. */
  function SwitchTo(s: Vm, p: nat): Vm
    requires p < |s.procs|
  {
    if s.current == Some(p) then s
    else s.(ptbr := s.procs[p].savedPtbr, current := Some(p))
  }

  /** `proc_init` after its call of `free_frame` returned frame `f`. */
  function InstallTable(s: Vm, p: nat, f: nat): Vm
    requires p < |s.procs| && f < |s.mem| == |s.ft|
  {
    s.(mem := s.mem[f := PageTable(seq(s.g.pages, _ => ZERO_PTE))],
       procs := s.procs[p := Pcb(true, f)],
       ft := s.ft[f := Fte(true, false, false, None, 0)])
  }

  /** A process that starts while it is still the current one will be served by its own page
      table: the first free frame is the one that PTBR names, or there is no frame for it. */
  predicate KeepsItsTable(s: Vm, p: nat) {
    s.current == Some(p) ==> FirstFree(s.ft, 0) == Some(s.ptbr) || forall f | 0 <= f < |s.ft| :: s.ft[f].protected
  }

  /** A START line of the trace. */
  function Start(s: Vm, p: nat, coin: nat -> bool): Outcome<Vm>
    requires AllEvictable(s) && p < |s.procs| && |s.mem| == |s.ft|
  {
    var r := FreeFrame(s, coin);
    if r.Panic? then Panic(r.reason)
    else
      VictimIsUnprotected(s.ft, coin);
      EvictKeepsShape(s, r.value.1);
      Done(InstallTable(r.value.0, p, r.value.1))
  }

  /** The page table at frame `t` is complete and its valid entries name real frames. */
  predicate TableFits(s: Vm, t: nat) {
    && t < |s.mem| == |s.ft|
    && s.mem[t].PageTable?
    && |s.mem[t].ptes| == s.g.pages
    && forall v :: 0 <= v < s.g.pages && s.mem[t].ptes[v].valid ==> s.mem[t].ptes[v].pfn < |s.ft|
  }

  /** `swap_free` */
  function FreeSwap(s: Vm, t: nat, v: nat): Outcome<Vm>
    requires HasPte(s, t, v)
  {
    var e := PteAt(s, t, v);
    if e.swap in s.swap then Done(SetPte(s, t, v, e.(swap := 0)).(swap := s.swap - {e.swap}))
    else Panic(BadSwapFree)
  }

  /** One iteration of the loop of `proc_cleanup`. */
  function CleanupPage(s: Vm, t: nat, v: nat): (r: Outcome<Vm>)
    requires TableFits(s, t) && v < s.g.pages
    ensures r.Done? ==> TableFits(r.value, t) && r.value.g == s.g && r.value.procs == s.procs
  {
    var e := PteAt(s, t, v);
    var s1 := if e.valid then Unmap(s, t, v, e.pfn) else s;
    if e.swap == 0 then Done(s1) else FreeSwap(s1, t, v)
  }

  /** The loop of `proc_cleanup` from page `v` on. */
  function CleanupFrom(s: Vm, t: nat, v: nat): (r: Outcome<Vm>)
    requires TableFits(s, t) && v <= s.g.pages
    ensures r.Done? ==> TableFits(r.value, t) && r.value.g == s.g && r.value.procs == s.procs
    decreases s.g.pages - v
  {
    if v == s.g.pages then Done(s)
    else
      var r := CleanupPage(s, t, v);
      if r.Panic? then r else CleanupFrom(r.value, t, v + 1)
  }

  /** A STOP line of the trace. */
  function Stop(s: Vm, p: nat): Outcome<Vm>
    requires p < |s.procs| && TableFits(s, s.procs[p].savedPtbr)
  {
    var t := s.procs[p].savedPtbr;
    var r := CleanupFrom(s, t, 0);
    if r.Panic? then r
    else
      Done(r.value.(ft := r.value.ft[t := Fte(false, false, false, None, 0)],
                    procs := r.value.procs[p := Pcb(false, 0)]))
  }

  /** The state that `main` and `system_init` set up. */
  function Boot(g: Geometry): Vm
    requires g.Valid()
  {
    Vm(g,
       seq(g.frames, i => if i == 0 then FrameTable else Page(Zeros(g.pageSize))),
       seq(g.frames, i => Fte(i == 0, false, false, None, 0)),
       seq(g.maxPid, _ => Pcb(false, 0)),
       0, None, map[], 1, Stats(0, 0, 0, 0, 0))
  }
}
