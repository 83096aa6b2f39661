/** Hits, dirty lines and write-backs, told from the trace alone. */
module CacheWriteBacks {
  import opened Basics
  import opened CacheModel
  import opened CacheProof
  import opened CacheTheorems

  // ---------- What the trace says ----------

  /** Tag `t` is resident in set `i` after each access from number `k` on. */
  ghost predicate StaysIn(g: Geometry, trace: seq<Access>, k: nat, i: nat, t: Addr)
    requires GeometryOk(g)
  {
    forall m | k < m <= |trace| :: t in Resident(g, trace[..m], i)
  }

  ghost predicate IsWriteOf(g: Geometry, a: Access, i: nat, t: Addr)
    requires GeometryOk(g)
  {
    a.write && SetIndex(g, a) == i && AccessTag(g, a) == t
  }

  /** Tag `t` of set `i` was written, and has been resident ever since. */
  ghost predicate WrittenSinceFill(g: Geometry, trace: seq<Access>, i: nat, t: Addr)
    requires GeometryOk(g)
  {
    exists k: nat :: k < |trace| && IsWriteOf(g, trace[k], i, t) && StaysIn(g, trace, k, i, t)
  }

  /** The access finds its tag resident. */
  ghost predicate FindsItsTag(g: Geometry, before: seq<Access>, a: Access)
    requires GeometryOk(g)
  {
    AccessTag(g, a) in Resident(g, before, SetIndex(g, a))
  }

  /** The access finds its set full of other tags, the least recent of which has been written
      since it was last brought in. */
  ghost predicate EvictsWritten(g: Geometry, before: seq<Access>, a: Access)
    requires GeometryOk(g)
  {
    var l := Resident(g, before, SetIndex(g, a));
    AccessTag(g, a) !in l && |l| == g.ways && WrittenSinceFill(g, before, SetIndex(g, a), l[|l| - 1])
  }

  ghost predicate HitAt(g: Geometry, trace: seq<Access>, k: nat)
    requires GeometryOk(g)
  {
    k < |trace| && FindsItsTag(g, trace[..k], trace[k])
  }

  ghost predicate WriteBackAt(g: Geometry, trace: seq<Access>, k: nat)
    requires GeometryOk(g)
  {
    k < |trace| && EvictsWritten(g, trace[..k], trace[k])
  }

  ghost function Hits(g: Geometry, trace: seq<Access>): set<nat>
    requires GeometryOk(g)
  {
    set k: nat | k < |trace| && HitAt(g, trace, k)
  }

  ghost function WriteBacks(g: Geometry, trace: seq<Access>): set<nat>
    requires GeometryOk(g)
  {
    set k: nat | k < |trace| && WriteBackAt(g, trace, k)
  }

  // ---------- One access of one set ----------

  /** The dirty lines of the set are those that hold a tag of `d`. */
  ghost predicate DirtyAre(s: CacheSet, d: iset<Addr>) {
    forall w | 0 <= w < |s.lines| && s.lines[w].valid :: s.lines[w].dirty <==> TagIn(s.lines[w]) in d
  }

  /** The line that an access touches. */
  lemma TouchedLine(s: CacheSet, tag: Addr, write: bool) returns (way: nat)
    requires WellSized(s)
    ensures way < |s.lines|
    ensures var (s', e) := AccessSet(s, tag, write);
      && |s'.lines| == |s.lines|
      && s'.lines[way].valid
      && (s'.lines[way].dirty <==> write || (e.Hit? && s.lines[way].dirty))
      && (forall w | 0 <= w < |s.lines| && w != way :: s'.lines[w] == s.lines[w])
      && (e.Hit? ==> Matches(s.lines[way], tag) && TagIn(s'.lines[way]) == tag)
      && (e.Fill? ==> !s.lines[way].valid)
      && (e.Replace? ==> way == GetLru(s.order) && s.lines[way].valid && (e.writeback <==> s.lines[way].dirty))
      && (Fits(tag) ==> TagIn(s'.lines[way]) == tag)
  {
    FoundIsInRange(s.lines, tag);
    InvalidIsInRange(s.lines);
    FoundAgainIffFits(tag);
    var hit, free := FindHit(s.lines, tag, 0), FindInvalid(s.lines, 0);
    way := if hit.Some? then hit.value else if free.Some? then free.value else GetLru(s.order);
  }

  /** No two lines hold the same tag. */
  lemma LinesApart(s: CacheSet, l: seq<Addr>, v: nat, w: nat)
    requires Holds(s, l) && v < |s.lines| && w < |s.lines| && s.lines[v].valid && s.lines[w].valid
    ensures TagIn(s.lines[v]) in l
    ensures TagIn(s.lines[v]) == TagIn(s.lines[w]) ==> v == w
  {
    PositionExists(s.order, v);
    PositionExists(s.order, w);
    var i :| 0 <= i < |s.order| && s.order[i] == v;
    var j :| 0 <= j < |s.order| && s.order[j] == w;
    assert i < |l| && j < |l|;
    assert Matches(s.lines[s.order[i]], l[i]) && Matches(s.lines[s.order[j]], l[j]);
  }

  lemma DirtyStep(s: CacheSet, l: seq<Addr>, d: iset<Addr>, tag: Addr, write: bool, d': iset<Addr>)
    requires Holds(s, l) && Fits(tag) && DirtyAre(s, d) && forall t | t in d :: t in l
    requires forall t :: t in d' <==>
      t in Take(Touch(l, tag), |s.order|) && ((t == tag && write) || t in d)
    ensures WellSized(s) && DirtyAre(AccessSet(s, tag, write).0, d')
  {
    AccessStep(s, l, tag, write);
    var (s', e) := AccessSet(s, tag, write);
    var l' := Take(Touch(l, tag), |s.order|);
    var way := TouchedLine(s, tag, write);
    forall w | 0 <= w < |s'.lines| && s'.lines[w].valid
      ensures s'.lines[w].dirty <==> TagIn(s'.lines[w]) in d'
    {
      LinesApart(s', l', w, way);
    }
  }

  lemma WriteBackStep(s: CacheSet, l: seq<Addr>, d: iset<Addr>, tag: Addr, write: bool)
    requires Holds(s, l) && Fits(tag) && DirtyAre(s, d)
    ensures WellSized(s) && (tag !in l && |l| == |s.order| ==> l != [])
    ensures AccessSet(s, tag, write).1 == Replace(true) <==> tag !in l && |l| == |s.order| && l[|l| - 1] in d
  {
    AccessStep(s, l, tag, write);
    var way := TouchedLine(s, tag, write);
    if tag !in l && |l| == |s.order| {
      assert Matches(s.lines[s.order[|l| - 1]], l[|l| - 1]);
    }
  }

  // ---------- One access of the trace ----------

  lemma WrittenStep(g: Geometry, before: seq<Access>, a: Access, i: nat, t: Addr)
    requires GeometryOk(g)
    ensures WrittenSinceFill(g, before + [a], i, t) <==>
      t in Resident(g, before + [a], i) && (IsWriteOf(g, a, i, t) || WrittenSinceFill(g, before, i, t))
  {
    var trace, n := before + [a], |before|;
    assert trace[..n + 1] == trace;
    if WrittenSinceFill(g, before, i, t) && t in Resident(g, trace, i) {
      var k: nat :| k < n && IsWriteOf(g, before[k], i, t) && StaysIn(g, before, k, i, t);
      StaysStep(g, before, a, k, i, t);
      assert IsWriteOf(g, trace[k], i, t);
    }
    if IsWriteOf(g, a, i, t) && t in Resident(g, trace, i) {
      assert IsWriteOf(g, trace[n], i, t) && StaysIn(g, trace, n, i, t);
    }
    if WrittenSinceFill(g, trace, i, t) {
      WrittenBefore(g, before, a, i, t);
    }
  }

  lemma WrittenBefore(g: Geometry, before: seq<Access>, a: Access, i: nat, t: Addr)
    requires GeometryOk(g) && WrittenSinceFill(g, before + [a], i, t)
    ensures IsWriteOf(g, a, i, t) || WrittenSinceFill(g, before, i, t)
    ensures t in Resident(g, before + [a], i)
  {
    var trace := before + [a];
    WrittenIsResident(g, trace, i, t);
    var k: nat :| k < |trace| && IsWriteOf(g, trace[k], i, t) && StaysIn(g, trace, k, i, t);
    if k < |before| {
      StaysStep(g, before, a, k, i, t);
      assert IsWriteOf(g, before[k], i, t) && StaysIn(g, before, k, i, t);
    }
  }

  lemma StaysStep(g: Geometry, before: seq<Access>, a: Access, k: nat, i: nat, t: Addr)
    requires GeometryOk(g) && k < |before|
    ensures StaysIn(g, before + [a], k, i, t) <==> StaysIn(g, before, k, i, t) && t in Resident(g, before + [a], i)
  {
    var trace := before + [a];
    assert trace[..|trace|] == trace;
    assert forall m | k < m <= |before| :: trace[..m] == before[..m];
  }

  /** What was written since its last fill is resident. */
  lemma WrittenIsResident(g: Geometry, trace: seq<Access>, i: nat, t: Addr)
    requires GeometryOk(g) && WrittenSinceFill(g, trace, i, t)
    ensures t in Resident(g, trace, i)
  {
    assert trace[..|trace|] == trace;
  }

  ghost function WrittenTags(g: Geometry, trace: seq<Access>, i: nat): iset<Addr>
    requires GeometryOk(g)
  {
    iset t | WrittenSinceFill(g, trace, i, t)
  }

  // ---------- Whole traces ----------

  ghost predicate DirtyIsWritten(g: Geometry, trace: seq<Access>, i: nat)
    requires GeometryOk(g) && i < g.numSets
  {
    DirtyAre(RunCache(g, trace).sets[i], WrittenTags(g, trace, i))
  }

  lemma ElsewhereKeepsResident(g: Geometry, before: seq<Access>, a: Access, i: nat)
    requires GeometryOk(g) && SetIndex(g, a) != i
    ensures Resident(g, before + [a], i) == Resident(g, before, i)
    ensures WrittenTags(g, before + [a], i) == WrittenTags(g, before, i)
  {
    ProjectStep(g, before, a, i);
    forall t
      ensures t in WrittenTags(g, before + [a], i) <==> t in WrittenTags(g, before, i)
    {
      WrittenStep(g, before, a, i, t);
      if WrittenSinceFill(g, before, i, t) {
        WrittenIsResident(g, before, i, t);
      }
    }
  }

  lemma ResidentStep(g: Geometry, before: seq<Access>, a: Access)
    requires GeometryOk(g)
    ensures var i := SetIndex(g, a);
      Resident(g, before + [a], i) == Take(Touch(Resident(g, before, i), AccessTag(g, a)), g.ways)
  {
    var i := SetIndex(g, a);
    var tags, tag := Project(g, before, i), AccessTag(g, a);
    ProjectStep(g, before, a, i);
    assert (tags + [tag])[..|tags|] == tags;
    RecencyDistinct(tags);
    TakeTouch(Recency(tags), g.ways, tag);
  }

  lemma DirtyInStep(g: Geometry, before: seq<Access>, a: Access)
    requires GeometryOk(g) && Fits(AccessTag(g, a))
    requires IsLru(g, RunCache(g, before), before, SetIndex(g, a)) && DirtyIsWritten(g, before, SetIndex(g, a))
    ensures DirtyIsWritten(g, before + [a], SetIndex(g, a))
  {
    var i, tag := SetIndex(g, a), AccessTag(g, a);
    var s, l := RunCache(g, before).sets[i], Resident(g, before, i);
    ResidentStep(g, before, a);
    forall t
      ensures t in WrittenTags(g, before + [a], i) <==>
        t in Take(Touch(l, tag), |s.order|) && ((t == tag && a.write) || t in WrittenTags(g, before, i))
      ensures t in WrittenTags(g, before, i) ==> t in l
    {
      WrittenStep(g, before, a, i, t);
      if WrittenSinceFill(g, before, i, t) {
        WrittenIsResident(g, before, i, t);
      }
    }
    DirtyStep(s, l, WrittenTags(g, before, i), tag, a.write, WrittenTags(g, before + [a], i));
    RunStep(g, before, a);
  }

  lemma {:induction false} DirtyInvariant(g: Geometry, trace: seq<Access>, i: nat)
    requires GeometryOk(g) && FitIn(g, trace, i) && i < g.numSets
    ensures DirtyIsWritten(g, trace, i)
  {
    if trace == [] {
      NothingResident(g, i);
    } else {
      var before, a := trace[..|trace| - 1], trace[|trace| - 1];
      assert before + [a] == trace;
      FitInPrefix(g, trace, i, |before|);
      DirtyInvariant(g, before, i);
      if SetIndex(g, a) == i {
        CacheIsIdealLru(g, before, i);
        assert SetIndex(g, trace[|before|]) == i;
        DirtyInStep(g, before, a);
      } else {
        ElsewhereKeepsResident(g, before, a, i);
        RunStep(g, before, a);
      }
    }
  }

  lemma FitInPrefix(g: Geometry, trace: seq<Access>, i: nat, n: nat)
    requires GeometryOk(g) && FitIn(g, trace, i) && n <= |trace|
    ensures FitIn(g, trace[..n], i)
  {
  }

  /** A valid line is dirty if and only if its tag was written at or after the miss that last
      brought it in. */
  lemma DirtyIffWritten(g: Geometry, trace: seq<Access>, i: nat, w: nat)
    requires GeometryOk(g) && FitIn(g, trace, i) && i < g.numSets && w < g.ways
    ensures var s := RunCache(g, trace).sets[i];
      && w < |s.lines|
      && (s.lines[w].valid ==>
            (s.lines[w].dirty <==> WrittenSinceFill(g, trace, i, LoadedTag(s.lines[w].tag))))
  {
    CacheIsIdealLru(g, trace, i);
    DirtyInvariant(g, trace, i);
  }

  lemma PrefixesFit(g: Geometry, before: seq<Access>, a: Access)
    requires GeometryOk(g) && TagsFit(g, before + [a])
    ensures TagsFit(g, before) && Fits(AccessTag(g, a))
  {
    var trace := before + [a];
    assert trace[|before|] == a;
    forall j | 0 <= j < |before|
      ensures Fits(AccessTag(g, before[j]))
    {
      assert Fits(AccessTag(g, trace[j]));
    }
  }

  lemma WriteBackEffect(g: Geometry, before: seq<Access>, a: Access)
    requires GeometryOk(g) && TagsFit(g, before) && Fits(AccessTag(g, a))
    ensures AccessCache(RunCache(g, before), a).1 == Replace(true) <==> EvictsWritten(g, before, a)
  {
    var i, tag := SetIndex(g, a), AccessTag(g, a);
    var s, l, d := RunCache(g, before).sets[i], Resident(g, before, i), WrittenTags(g, before, i);
    CacheIsIdealLru(g, before, i);
    DirtyInvariant(g, before, i);
    WriteBackStep(s, l, d, tag, a.write);
    assert AccessCache(RunCache(g, before), a).1 == AccessSet(s, tag, a.write).1;
  }

  lemma PositionsStep(g: Geometry, before: seq<Access>, a: Access)
    requires GeometryOk(g)
    ensures var trace, k := before + [a], |before|;
      && Hits(g, trace) == Hits(g, before) + (if HitAt(g, trace, k) then {k} else {})
      && WriteBacks(g, trace) == WriteBacks(g, before) + (if WriteBackAt(g, trace, k) then {k} else {})
  {
    var trace := before + [a];
    forall k: nat | k < |before|
      ensures HitAt(g, trace, k) <==> HitAt(g, before, k)
      ensures WriteBackAt(g, trace, k) <==> WriteBackAt(g, before, k)
    {
      assert trace[..k] == before[..k] && trace[k] == before[k];
    }
  }

  lemma CounterStep(g: Geometry, before: seq<Access>, a: Access)
    requires GeometryOk(g)
    ensures var c, k := RunCache(g, before), RunCache(g, before + [a]).counters;
      var e := AccessCache(c, a).1;
      && k.accesses == c.counters.accesses + 1
      && k.hits == c.counters.hits + (if e.Hit? then 1 else 0)
      && k.misses == c.counters.misses + (if e.Hit? then 0 else 1)
      && k.writebacks == c.counters.writebacks + (if e == Replace(true) then 1 else 0)
  {
  }

  /** The four numbers that the program prints are those of the trace: the hits are the accesses
      that find their tag resident, and the write-backs those that evict a tag written since it
      was last brought in. */
  lemma {:induction false} CountersAreExact(g: Geometry, trace: seq<Access>)
    requires GeometryOk(g) && TagsFit(g, trace)
    ensures var k := RunCache(g, trace).counters;
      && k.accesses == |trace|
      && k.hits == |Hits(g, trace)|
      && k.misses == |trace| - |Hits(g, trace)|
      && k.writebacks == |WriteBacks(g, trace)|
  {
    if trace == [] {
      assert Hits(g, trace) == {} && WriteBacks(g, trace) == {};
    } else {
      var before, a := trace[..|trace| - 1], trace[|trace| - 1];
      assert before + [a] == trace;
      PrefixesFit(g, before, a);
      CountersAreExact(g, before);
      assert trace[..|before|] == before;
      HitIffResident(g, before, a);
      WriteBackEffect(g, before, a);
      PositionsStep(g, before, a);
      CounterStep(g, before, a);
    }
  }
}
