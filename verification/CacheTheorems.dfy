/** Whole runs of the cache simulator. */
module CacheTheorems {
  import opened Basics
  import opened CacheModel
  import opened CacheProof

  // ---------- Each set sees its own accesses ----------

  /** The tags of the accesses that go to set `i`, in order. */
  function Project(g: Geometry, trace: seq<Access>, i: nat): seq<Addr>
    requires GeometryOk(g)
  {
    if trace == [] then []
    else
      var a := trace[|trace| - 1];
      Project(g, trace[..|trace| - 1], i) + if SetIndex(g, a) == i then [AccessTag(g, a)] else []
  }

  /** What ideal LRU keeps in set `i`: the `ways` most recently used distinct tags, or all of
      them if there are fewer. */
  function Resident(g: Geometry, trace: seq<Access>, i: nat): seq<Addr>
    requires GeometryOk(g)
  {
    Take(Recency(Project(g, trace, i)), g.ways)
  }

  /** Every tag that goes to set `i` survives being stored in an `int`. */
  predicate FitIn(g: Geometry, trace: seq<Access>, i: nat)
    requires GeometryOk(g)
  {
    forall j | 0 <= j < |trace| :: SetIndex(g, trace[j]) == i ==> Fits(AccessTag(g, trace[j]))
  }

  predicate TagsFit(g: Geometry, trace: seq<Access>)
    requires GeometryOk(g)
  {
    forall j | 0 <= j < |trace| :: Fits(AccessTag(g, trace[j]))
  }

  lemma NothingResident(g: Geometry, i: nat)
    requires GeometryOk(g) && i < g.numSets
    ensures Resident(g, [], i) == [] && RunCache(g, []).sets[i] == EmptySet(g.ways)
  {
  }

  lemma RunStep(g: Geometry, before: seq<Access>, a: Access)
    requires GeometryOk(g)
    ensures RunCache(g, before + [a]) == AccessCache(RunCache(g, before), a).0
  {
  }

  lemma ProjectStep(g: Geometry, before: seq<Access>, a: Access, i: nat)
    requires GeometryOk(g)
    ensures Project(g, before + [a], i)
         == if SetIndex(g, a) == i then Project(g, before, i) + [AccessTag(g, a)] else Project(g, before, i)
  {
  }

  /** Set `i` of the cache is ideal LRU for the trace so far. */
  ghost predicate IsLru(g: Geometry, c: Cache, trace: seq<Access>, i: nat)
    requires GeometryOk(g) && CacheOk(c) && c.g == g && i < g.numSets
  {
    Holds(c.sets[i], Resident(g, trace, i)) && |c.sets[i].order| == g.ways
  }

  lemma LruStep(g: Geometry, c: Cache, before: seq<Access>, a: Access)
    requires GeometryOk(g) && Fits(AccessTag(g, a)) && CacheOk(c) && c.g == g
    requires IsLru(g, c, before, SetIndex(g, a))
    ensures var i := SetIndex(g, a);
      var (s', e) := AccessSet(c.sets[i], AccessTag(g, a), a.write);
      && Holds(s', Resident(g, before + [a], i)) && |s'.order| == g.ways
      && (e.Hit? <==> AccessTag(g, a) in Resident(g, before, i))
  {
    var i, tag := SetIndex(g, a), AccessTag(g, a);
    var tags := Project(g, before, i);
    AccessStep(c.sets[i], Resident(g, before, i), tag, a.write);
    ProjectStep(g, before, a, i);
    assert (tags + [tag])[..|tags|] == tags;
    RecencyDistinct(tags);
    TakeTouch(Recency(tags), g.ways, tag);
  }

  /** An access keeps a set ideal LRU if and only if it goes elsewhere or its tag survives being
      stored in an `int`. */
  lemma LruKept(g: Geometry, c: Cache, before: seq<Access>, a: Access, i: nat)
    requires GeometryOk(g) && CacheOk(c) && c.g == g && i < g.numSets
    requires IsLru(g, c, before, i)
    ensures CacheOk(AccessCache(c, a).0)
    ensures IsLru(g, AccessCache(c, a).0, before + [a], i) <==> SetIndex(g, a) != i || Fits(AccessTag(g, a))
  {
    var j := SetIndex(g, a);
    AccessKeepsSize(c.sets[j], AccessTag(g, a), a.write);
    if j != i {
      ProjectStep(g, before, a, i);
    } else if Fits(AccessTag(g, a)) {
      LruStep(g, c, before, a);
    } else {
      UnfitIsNotKept(g, c, before, a);
    }
  }

  /** A tag that does not fit is not in its set even right after its own access. */
  lemma UnfitIsNotKept(g: Geometry, c: Cache, before: seq<Access>, a: Access)
    requires GeometryOk(g) && CacheOk(c) && c.g == g && !Fits(AccessTag(g, a))
    ensures !Holds(AccessSet(c.sets[SetIndex(g, a)], AccessTag(g, a), a.write).0,
                   Resident(g, before + [a], SetIndex(g, a)))
  {
    var i, tag := SetIndex(g, a), AccessTag(g, a);
    var s', l := AccessSet(c.sets[i], tag, a.write).0, Resident(g, before + [a], i);
    var tags := Project(g, before, i);
    ProjectStep(g, before, a, i);
    assert (tags + [tag])[..|tags|] == tags;
    assert l[0] == tag;
    FoundAgainIffFits(tag);
    if Holds(s', l) {
      assert Matches(s'.lines[s'.order[0]], tag);
      UnfitNeverMatches(s'.lines[s'.order[0]], tag);
    }
  }

  /** No line ever matches a tag that does not fit. */
  lemma UnfitNeverMatches(line: Line, tag: Addr)
    ensures Matches(line, tag) ==> Fits(tag)
  {
  }

  /** The cache is ideal LRU: after every access sequence each set's valid lines hold exactly
      the most recently used distinct tags that map there, and its stack lists them by recency. */
  lemma {:induction false} CacheIsIdealLru(g: Geometry, trace: seq<Access>, i: nat)
    requires GeometryOk(g) && FitIn(g, trace, i) && i < g.numSets
    ensures IsLru(g, RunCache(g, trace), trace, i)
  {
    if trace == [] {
      EmptyHolds(g.ways);
      NothingResident(g, i);
    } else {
      var before, a := trace[..|trace| - 1], trace[|trace| - 1];
      assert before + [a] == trace;
      forall j | 0 <= j < |before|
        ensures SetIndex(g, before[j]) == i ==> Fits(AccessTag(g, before[j]))
      {
        assert before[j] == trace[j];
      }
      CacheIsIdealLru(g, before, i);
      LruKept(g, RunCache(g, before), before, a, i);
      RunStep(g, before, a);
    }
  }

  /** Exactly when: a set is ideal LRU at every point of a run if and only if every tag that
      goes to it survives being stored in an `int`. */
  lemma LruIffTagsFit(g: Geometry, trace: seq<Access>, i: nat)
    requires GeometryOk(g) && i < g.numSets
    ensures (forall n: nat | n <= |trace| :: IsLruAfter(g, trace, n, i)) <==> FitIn(g, trace, i)
  {
    if FitIn(g, trace, i) {
      forall n: nat | n <= |trace|
        ensures IsLruAfter(g, trace, n, i)
      {
        CacheIsIdealLru(g, trace[..n], i);
      }
    }
    if forall n: nat | n <= |trace| :: IsLruAfter(g, trace, n, i) {
      forall j | 0 <= j < |trace|
        ensures SetIndex(g, trace[j]) == i ==> Fits(AccessTag(g, trace[j]))
      {
        assert IsLruAfter(g, trace, j, i) && IsLruAfter(g, trace, j + 1, i);
        assert trace[..j + 1] == trace[..j] + [trace[j]];
        RunStep(g, trace[..j], trace[j]);
        LruKept(g, RunCache(g, trace[..j]), trace[..j], trace[j], i);
      }
    }
  }

  /** Set `i` is ideal LRU after the first `n` accesses. */
  ghost predicate IsLruAfter(g: Geometry, trace: seq<Access>, n: nat, i: nat)
    requires GeometryOk(g) && n <= |trace| && i < g.numSets
  {
    IsLru(g, RunCache(g, trace[..n]), trace[..n], i)
  }

  /** An access hits exactly when its tag is among the ideal contents of its set. */
  lemma HitIffResident(g: Geometry, trace: seq<Access>, a: Access)
    requires GeometryOk(g) && FitIn(g, trace, SetIndex(g, a)) && Fits(AccessTag(g, a))
    ensures AccessCache(RunCache(g, trace), a).1.Hit? <==> AccessTag(g, a) in Resident(g, trace, SetIndex(g, a))
  {
    CacheIsIdealLru(g, trace, SetIndex(g, a));
    LruStep(g, RunCache(g, trace), trace, a);
  }

  // ---------- The victim ----------

  /** How many accesses there were up to the last use of `t`; 0 if there was none. */
  function LastUse(tags: seq<Addr>, t: Addr): (r: nat)
    ensures r <= |tags|
  {
    if tags == [] then 0 else if tags[|tags| - 1] == t then |tags| else LastUse(tags[..|tags| - 1], t)
  }

  /** The list is ordered from latest to earliest last use. */
  predicate ByRecency(tags: seq<Addr>, l: seq<Addr>) {
    forall a, b | 0 <= a < b < |l| :: LastUse(tags, l[a]) > LastUse(tags, l[b])
  }

  lemma WithoutKeepsOrder(tags: seq<Addr>, l: seq<Addr>, t: Addr)
    requires Distinct(l) && ByRecency(tags, l)
    ensures ByRecency(tags, Without(l, t)) && t !in Without(l, t)
  {
    if t in l {
      var k :| 0 <= k < |l| && l[k] == t;
      WithoutAt(l, k);
    } else {
      WithoutAbsent(l, t);
    }
  }

  lemma {:induction false} RecencyIsByRecency(tags: seq<Addr>)
    ensures ByRecency(tags, Recency(tags))
  {
    if tags != [] {
      var front, t := tags[..|tags| - 1], tags[|tags| - 1];
      RecencyIsByRecency(front);
      RecencyDistinct(front);
      var rest := Without(Recency(front), t);
      WithoutKeepsOrder(front, Recency(front), t);
      forall a | 0 <= a < |rest|
        ensures LastUse(tags, rest[a]) == LastUse(front, rest[a]) < |tags|
      {
      }
      assert Recency(tags) == [t] + rest;
    }
  }

  function TagIn(line: Line): Addr { LoadedTag(line.tag) }

  /** The line that `lru_stack_get_lru` names in a full set is the one whose tag was last used
      before the tag of every other line. */
  lemma VictimIsLeastRecent(g: Geometry, trace: seq<Access>, i: nat)
    requires GeometryOk(g) && FitIn(g, trace, i) && i < g.numSets
    ensures |Resident(g, trace, i)| == g.ways ==> var s, tags := RunCache(g, trace).sets[i], Project(g, trace, i);
      && s.order != [] && GetLru(s.order) < |s.lines|
      && forall w: nat | w < |s.lines| && w != GetLru(s.order) ::
        s.lines[w].valid && LastUse(tags, TagIn(s.lines[w])) > LastUse(tags, TagIn(s.lines[GetLru(s.order)]))
  {
    CacheIsIdealLru(g, trace, i);
    RecencyIsByRecency(Project(g, trace, i));
    if |Resident(g, trace, i)| == g.ways {
      VictimIsLast(RunCache(g, trace).sets[i], Resident(g, trace, i), Project(g, trace, i));
    }
  }

  lemma VictimIsLast(s: CacheSet, l: seq<Addr>, tags: seq<Addr>)
    requires Holds(s, l) && |l| == |s.order| && ByRecency(tags, l)
    ensures GetLru(s.order) < |s.lines|
    ensures forall w: nat | w < |s.lines| && w != GetLru(s.order) ::
      s.lines[w].valid && LastUse(tags, TagIn(s.lines[w])) > LastUse(tags, TagIn(s.lines[GetLru(s.order)]))
  {
    var last := |l| - 1;
    assert Matches(s.lines[s.order[last]], l[last]);
    forall w: nat | w < |s.lines| && w != GetLru(s.order)
      ensures s.lines[w].valid && LastUse(tags, TagIn(s.lines[w])) > LastUse(tags, l[last])
    {
      PositionExists(s.order, w);
      var k :| 0 <= k < |s.order| && s.order[k] == w;
      assert k < last && Matches(s.lines[s.order[k]], l[k]);
    }
  }

  // ---------- Stack distance ----------

  /** The distinct tags used since the last use of `t`. */
  function Since(tags: seq<Addr>, t: Addr): set<Addr> {
    if tags == [] || tags[|tags| - 1] == t then {}
    else Since(tags[..|tags| - 1], t) + {tags[|tags| - 1]}
  }

  /** The tags in front of `t` in a list. */
  function InFront(l: seq<Addr>, t: Addr): set<Addr> {
    if l == [] || l[0] == t then {} else {l[0]} + InFront(l[1..], t)
  }

  lemma {:induction false} InFrontWithout(l: seq<Addr>, u: Addr, t: Addr)
    requires u != t
    ensures InFront(Without(l, u), t) + {u} == InFront(l, t) + {u}
  {
    if l != [] && l[0] != u && l[0] != t {
      InFrontWithout(l[1..], u, t);
      assert Without(l, u)[1..] == Without(l[1..], u);
    }
  }

  lemma {:induction false} InFrontIsSince(tags: seq<Addr>, t: Addr)
    requires t in tags
    ensures InFront(Recency(tags), t) == Since(tags, t)
  {
    var front, u := tags[..|tags| - 1], tags[|tags| - 1];
    assert tags == front + [u];
    if u != t {
      InFrontIsSince(front, t);
      InFrontWithout(Recency(front), u, t);
      assert Touch(Recency(front), u)[1..] == Without(Recency(front), u);
    }
  }

  lemma {:induction false} InFrontCounts(l: seq<Addr>, k: nat)
    requires Distinct(l) && k < |l|
    ensures |InFront(l, l[k])| == k && InFront(l, l[k]) <= Members(l)
  {
    if k > 0 {
      InFrontCounts(l[1..], k - 1);
      MembersSplit(l);
      assert l[0] !in Members(l[1..]);
      assert l[0] != l[k] == l[1..][k - 1];
    }
  }

  function Members(l: seq<Addr>): set<Addr> {
    set t | t in l
  }

  lemma MembersSplit(l: seq<Addr>)
    requires l != []
    ensures Members(l) == {l[0]} + Members(l[1..])
  {
  }

  /** The textbook criterion: an access hits if and only if its tag was used before and fewer
      distinct tags than there are ways were used in its set since. */
  lemma HitIffStackDistance(g: Geometry, trace: seq<Access>, a: Access)
    requires GeometryOk(g) && FitIn(g, trace, SetIndex(g, a)) && Fits(AccessTag(g, a))
    ensures var tags := Project(g, trace, SetIndex(g, a));
      AccessCache(RunCache(g, trace), a).1.Hit?
      <==> AccessTag(g, a) in tags && |Since(tags, AccessTag(g, a))| < g.ways
  {
    var tags, t := Project(g, trace, SetIndex(g, a)), AccessTag(g, a);
    HitIffResident(g, trace, a);
    RecencyDistinct(tags);
    if t in tags {
      var l := Recency(tags);
      var k :| 0 <= k < |l| && l[k] == t;
      InFrontIsSince(tags, t);
      InFrontCounts(l, k);
      assert t in Take(l, g.ways) <==> k < g.ways;
    }
  }

  // ---------- Inclusion ----------

  /** Two geometries that differ in the number of ways only. */
  predicate SameShape(g: Geometry, h: Geometry) {
    g.numSets == h.numSets && g.offsetBits == h.offsetBits && g.indexBits == h.indexBits
  }

  lemma {:induction false} ProjectSame(g: Geometry, h: Geometry, trace: seq<Access>, i: nat)
    requires GeometryOk(g) && GeometryOk(h) && SameShape(g, h)
    ensures Project(g, trace, i) == Project(h, trace, i)
  {
    if trace != [] {
      ProjectSame(g, h, trace[..|trace| - 1], i);
    }
  }

  /** Inclusion: at every point of a run, what a cache with fewer ways holds in a set is a
      prefix, by recency, of what one with more ways holds there. */
  lemma InclusionOfContents(g: Geometry, h: Geometry, trace: seq<Access>, i: nat)
    requires GeometryOk(g) && GeometryOk(h) && SameShape(g, h) && g.ways <= h.ways
    ensures Resident(g, trace, i) <= Resident(h, trace, i)
  {
    ProjectSame(g, h, trace, i);
  }

  /** The tag is in a valid line of the set. */
  predicate Holding(s: CacheSet, tag: Addr) {
    exists w :: 0 <= w < |s.lines| && Matches(s.lines[w], tag)
  }

  lemma HoldingIffResident(s: CacheSet, l: seq<Addr>, tag: Addr)
    requires Holds(s, l)
    ensures Holding(s, tag) <==> tag in l
  {
    FoundIsInRange(s.lines, tag);
    HitPosition(s, l, tag);
  }

  lemma Inclusion(g: Geometry, h: Geometry, trace: seq<Access>, i: nat, tag: Addr)
    requires GeometryOk(g) && GeometryOk(h) && SameShape(g, h) && g.ways <= h.ways
    requires FitIn(g, trace, i) && i < g.numSets
    ensures Holding(RunCache(g, trace).sets[i], tag) ==> Holding(RunCache(h, trace).sets[i], tag)
  {
    CacheIsIdealLru(g, trace, i);
    CacheIsIdealLru(h, trace, i);
    InclusionOfContents(g, h, trace, i);
    HoldingIffResident(RunCache(g, trace).sets[i], Resident(g, trace, i), tag);
    HoldingIffResident(RunCache(h, trace).sets[i], Resident(h, trace, i), tag);
  }

  /** So the number of hits never falls when ways are added. */
  lemma {:induction false} HitsGrowWithWays(g: Geometry, h: Geometry, trace: seq<Access>)
    requires GeometryOk(g) && GeometryOk(h) && SameShape(g, h) && g.ways <= h.ways && TagsFit(g, trace)
    ensures RunCache(g, trace).counters.hits <= RunCache(h, trace).counters.hits
  {
    if trace != [] {
      var before, a := trace[..|trace| - 1], trace[|trace| - 1];
      HitsGrowWithWays(g, h, before);
      HitIffResident(g, before, a);
      HitIffResident(h, before, a);
      InclusionOfContents(g, h, before, SetIndex(g, a));
    }
  }

  // ---------- Tags that do not fit ----------

  /** A tag that does not survive being stored in an `int` never hits, in whatever state. */
  lemma UnfitNeverHits(s: CacheSet, tag: Addr, write: bool)
    requires WellSized(s) && !Fits(tag)
    ensures !AccessSet(s, tag, write).1.Hit?
  {
    FoundIsInRange(s.lines, tag);
  }

  /** Using a tag twice in a row is a hit the second time if and only if the tag survives being
      stored in an `int`; this is where the simulator departs from LRU. */
  lemma RepeatHitsIffFits(s: CacheSet, tag: Addr, write: bool, again: bool)
    requires WellSized(s)
    ensures var s' := AccessSet(s, tag, write).0;
      WellSized(s') && (AccessSet(s', tag, again).1.Hit? <==> Fits(tag))
  {
    AccessKeepsSize(s, tag, write);
    FoundIsInRange(s.lines, tag);
    InvalidIsInRange(s.lines);
    var s' := AccessSet(s, tag, write).0;
    FoundIsInRange(s'.lines, tag);
    FoundAgainIffFits(tag);
    var hit, free := FindHit(s.lines, tag, 0), FindInvalid(s.lines, 0);
    var way := if hit.Some? then hit.value else if free.Some? then free.value else GetLru(s.order);
    assert Fits(tag) ==> Matches(s'.lines[way], tag);
  }

  /** What a stored tag is taken for. */
  function Alias(tag: Addr): Addr { LoadedTag(StoredTag(tag)) }

  /** The other failure: after the access of a tag that does not fit, its alias hits, whether it
      was ever used or not. */
  lemma FalseHit(s: CacheSet, tag: Addr, write: bool, again: bool)
    requires WellSized(s) && !Fits(tag)
    ensures Alias(tag) != tag && Fits(Alias(tag))
    ensures var s' := AccessSet(s, tag, write).0;
      WellSized(s') && AccessSet(s', Alias(tag), again).1.Hit?
  {
    AccessKeepsSize(s, tag, write);
    FoundIsInRange(s.lines, tag);
    InvalidIsInRange(s.lines);
    var s' := AccessSet(s, tag, write).0;
    FoundIsInRange(s'.lines, Alias(tag));
    var free := FindInvalid(s.lines, 0);
    var way := if free.Some? then free.value else GetLru(s.order);
    assert Matches(s'.lines[way], Alias(tag));
  }

  /** One set of one line with blocks of one byte, so that the tag is the address. */
  const TINY := Geometry(1, 1, 0, 0)

  /** A concrete false hit: with only 0x80000000 read, 0xFFFFFFFF80000000 hits, and ideal LRU
      holds nothing of the kind. */
  lemma FalseHitExample()
    ensures GeometryOk(TINY) && MakeGeometry(1, 1, 1) == TINY
    ensures var low, high := Access(0x8000_0000, false), Access(0xFFFF_FFFF_8000_0000, false);
      && AccessCache(RunCache(TINY, [low]), high).1.Hit?
      && AccessTag(TINY, high) !in Project(TINY, [low], SetIndex(TINY, high))
  {
  }

  // ---------- Accounting ----------

  function CountLines(lines: seq<Line>, f: Line -> bool): nat {
    if lines == [] then 0
    else CountLines(lines[..|lines| - 1], f) + if f(lines[|lines| - 1]) then 1 else 0
  }

  lemma {:induction false} CountUpdated(lines: seq<Line>, f: Line -> bool, w: nat, line: Line)
    requires w < |lines|
    ensures CountLines(lines[w := line], f) + (if f(lines[w]) then 1 else 0)
         == CountLines(lines, f) + (if f(line) then 1 else 0)
  {
    var front := lines[..|lines| - 1];
    if w < |front| {
      CountUpdated(front, f, w, line);
      assert lines[w := line][..|lines| - 1] == front[w := line];
    } else {
      assert lines[w := line][..|lines| - 1] == front;
    }
  }

  function CountSets(sets: seq<CacheSet>, f: Line -> bool): nat {
    if sets == [] then 0 else CountSets(sets[..|sets| - 1], f) + CountLines(sets[|sets| - 1].lines, f)
  }

  lemma {:induction false} CountSetUpdated(sets: seq<CacheSet>, f: Line -> bool, i: nat, s: CacheSet)
    requires i < |sets|
    ensures CountSets(sets[i := s], f) + CountLines(sets[i].lines, f) == CountSets(sets, f) + CountLines(s.lines, f)
  {
    var front := sets[..|sets| - 1];
    if i < |front| {
      CountSetUpdated(front, f, i, s);
      assert sets[i := s][..|sets| - 1] == front[i := s];
    } else {
      assert sets[i := s][..|sets| - 1] == front;
    }
  }

  function IsValid(): Line -> bool { (line: Line) => line.valid }

  function IsDirty(): Line -> bool { (line: Line) => line.valid && line.dirty }

  /** How an access changes the numbers of valid and of dirty lines of its set. */
  lemma AccessCounts(s: CacheSet, tag: Addr, write: bool)
    requires WellSized(s)
    ensures var (s', e) := AccessSet(s, tag, write);
      && CountLines(s'.lines, IsValid()) == CountLines(s.lines, IsValid()) + (if e.Fill? then 1 else 0)
      && CountLines(s'.lines, IsDirty()) + (if e == Replace(true) then 1 else 0)
         <= CountLines(s.lines, IsDirty()) + (if write then 1 else 0)
  {
    FoundIsInRange(s.lines, tag);
    InvalidIsInRange(s.lines);
    var s' := AccessSet(s, tag, write).0;
    var hit, free := FindHit(s.lines, tag, 0), FindInvalid(s.lines, 0);
    var way := if hit.Some? then hit.value else if free.Some? then free.value else GetLru(s.order);
    CountUpdated(s.lines, IsValid(), way, s'.lines[way]);
    CountUpdated(s.lines, IsDirty(), way, s'.lines[way]);
    assert s'.lines == s.lines[way := s'.lines[way]];
  }

  /** The number of accesses that replaced a valid line. */
  function Replacements(g: Geometry, trace: seq<Access>): nat
    requires GeometryOk(g)
  {
    if trace == [] then 0
    else
      Replacements(g, trace[..|trace| - 1])
      + if AccessCache(RunCache(g, trace[..|trace| - 1]), trace[|trace| - 1]).1.Replace? then 1 else 0
  }

  function Writes(trace: seq<Access>): nat {
    if trace == [] then 0 else Writes(trace[..|trace| - 1]) + if trace[|trace| - 1].write then 1 else 0
  }

  lemma {:induction false} NoLines(ways: nat, f: Line -> bool)
    requires !f(EMPTY_LINE)
    ensures CountLines(EmptySet(ways).lines, f) == 0
  {
    if ways > 0 {
      NoLines(ways - 1, f);
      assert EmptySet(ways).lines[..ways - 1] == EmptySet(ways - 1).lines;
    }
  }

  lemma {:induction false} NothingYet(sets: seq<CacheSet>, ways: nat, f: Line -> bool)
    requires !f(EMPTY_LINE) && forall i | 0 <= i < |sets| :: sets[i] == EmptySet(ways)
    ensures CountSets(sets, f) == 0
  {
    if sets != [] {
      NothingYet(sets[..|sets| - 1], ways, f);
      NoLines(ways, f);
    }
  }

  /** The counters add up on every run: hits and misses are the accesses, misses are the lines
      filled and the lines replaced, and every write-back and every dirty line is due to a write. */
  lemma {:induction false} CountersAddUp(g: Geometry, trace: seq<Access>)
    requires GeometryOk(g)
    ensures var c := RunCache(g, trace);
      && c.counters.accesses == |trace|
      && c.counters.hits + c.counters.misses == c.counters.accesses
      && c.counters.misses == CountSets(c.sets, IsValid()) + Replacements(g, trace)
      && c.counters.writebacks + CountSets(c.sets, IsDirty()) <= Writes(trace)
  {
    if trace == [] {
      NothingYet(EmptyCache(g).sets, g.ways, IsValid());
      NothingYet(EmptyCache(g).sets, g.ways, IsDirty());
    } else {
      var before, a := trace[..|trace| - 1], trace[|trace| - 1];
      CountersAddUp(g, before);
      var c, i := RunCache(g, before), SetIndex(g, a);
      var s' := AccessSet(c.sets[i], AccessTag(g, a), a.write).0;
      AccessCounts(c.sets[i], AccessTag(g, a), a.write);
      CountSetUpdated(c.sets, IsValid(), i, s');
      CountSetUpdated(c.sets, IsDirty(), i, s');
    }
  }
}
