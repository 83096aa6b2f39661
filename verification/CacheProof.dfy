/** The simulated cache is ideal LRU: each set holds exactly the most recently used distinct
    tags, for as many as it has ways. From this follows that a cache with more ways holds
    everything that one with fewer ways holds. */
module CacheProof {
  import opened Basics
  import opened CacheModel

  // ---------- Ideal LRU ----------

  /** The list without the first occurrence of `t`. */
  function Without(l: seq<Addr>, t: Addr): seq<Addr> {
    if l == [] then [] else if l[0] == t then l[1..] else [l[0]] + Without(l[1..], t)
  }

  function Touch(l: seq<Addr>, t: Addr): seq<Addr> {
    [t] + Without(l, t)
  }

  function Take(l: seq<Addr>, n: nat): seq<Addr> {
    if |l| <= n then l else l[..n]
  }

  /** The distinct tags of an access sequence, most recently used first. The number of ways
      plays no part in it. */
  function Recency(tags: seq<Addr>): seq<Addr> {
    if tags == [] then [] else Touch(Recency(tags[..|tags| - 1]), tags[|tags| - 1])
  }

  predicate Distinct(l: seq<Addr>) {
    forall i, j | 0 <= i < j < |l| :: l[i] != l[j]
  }

  lemma {:induction false} WithoutAt(l: seq<Addr>, k: nat)
    requires Distinct(l) && k < |l|
    ensures Without(l, l[k]) == l[..k] + l[k + 1..]
    decreases |l|
  {
    if k > 0 {
      WithoutAt(l[1..], k - 1);
      assert l[1..][..k - 1] == l[1..k] && l[1..][k..] == l[k + 1..];
    }
  }

  lemma {:induction false} WithoutAbsent(l: seq<Addr>, t: Addr)
    requires t !in l
    ensures Without(l, t) == l
  {
    if l != [] {
      WithoutAbsent(l[1..], t);
    }
  }

  lemma ToFrontDistinct(l: seq<Addr>, k: nat)
    requires Distinct(l) && k < |l|
    ensures Distinct(ToFront(l, k))
  {
  }

  lemma TouchDistinct(l: seq<Addr>, t: Addr)
    requires Distinct(l)
    ensures Distinct(Touch(l, t))
    ensures forall x :: x in Touch(l, t) <==> x == t || x in l
  {
    if t in l {
      var k :| 0 <= k < |l| && l[k] == t;
      WithoutAt(l, k);
      assert Touch(l, t) == ToFront(l, k);
      ToFrontDistinct(l, k);
      forall x
        ensures x in Touch(l, t) <==> x in l
      {
      }
    } else {
      WithoutAbsent(l, t);
    }
  }

  lemma {:induction false} RecencyDistinct(tags: seq<Addr>)
    ensures Distinct(Recency(tags))
    ensures forall t :: t in Recency(tags) <==> t in tags
  {
    if tags != [] {
      RecencyDistinct(tags[..|tags| - 1]);
      TouchDistinct(Recency(tags[..|tags| - 1]), tags[|tags| - 1]);
      assert tags == tags[..|tags| - 1] + [tags[|tags| - 1]];
    }
  }

  /** Truncating the recency list commutes with using a tag. */
  lemma TakeTouch(l: seq<Addr>, n: nat, t: Addr)
    requires Distinct(l) && 0 < n
    ensures Take(Touch(Take(l, n), t), n) == Take(Touch(l, t), n)
  {
    if t in l {
      var k :| 0 <= k < |l| && l[k] == t;
      if k < n {
        TakeTouchNear(l, n, k);
      } else {
        TakeTouchFar(l, n, k);
      }
    } else {
      WithoutAbsent(l, t);
      WithoutAbsent(Take(l, n), t);
    }
  }

  /** The tag is among the entries that are kept. */
  lemma TakeTouchNear(l: seq<Addr>, n: nat, k: nat)
    requires Distinct(l) && k < |l| && k < n
    ensures Take(Touch(Take(l, n), l[k]), n) == Take(Touch(l, l[k]), n)
  {
    var cut := Take(l, n);
    WithoutAt(l, k);
    WithoutAt(cut, k);
    assert cut[..k] == l[..k];
    assert cut[k + 1..] == Take(l[k + 1..], n - k - 1);
  }

  /** The tag is beyond the entries that are kept. */
  lemma TakeTouchFar(l: seq<Addr>, n: nat, k: nat)
    requires Distinct(l) && 0 < n <= k < |l|
    ensures Take(Touch(Take(l, n), l[k]), n) == Take(Touch(l, l[k]), n)
  {
    WithoutAt(l, k);
    WithoutAbsent(l[..n], l[k]);
    assert (l[..k] + l[k + 1..])[..n - 1] == l[..n][..n - 1];
  }

  // ---------- A set implements a truncated recency list ----------

  predicate IsPermutation(order: seq<nat>) {
    && (forall i | 0 <= i < |order| :: order[i] < |order|)
    && (forall i, j | 0 <= i < j < |order| :: order[i] != order[j])
  }

  /** The stack lists first the valid lines, which hold the tags `l` from most to least recently
      used, and then the invalid lines in index order. */
  ghost predicate Holds(s: CacheSet, l: seq<Addr>) {
    && 0 < |s.lines| == |s.order|
    && IsPermutation(s.order)
    && |l| <= |s.order| && Distinct(l)
    && (forall i | 0 <= i < |l| :: Matches(s.lines[s.order[i]], l[i]))
    && (forall i | |l| <= i < |s.order| :: !s.lines[s.order[i]].valid)
    && (forall i, j | |l| <= i < j < |s.order| :: s.order[i] < s.order[j])
  }

  lemma EmptyHolds(ways: nat)
    requires 0 < ways
    ensures Holds(EmptySet(ways), [])
  {
  }

  function Elements(s: seq<nat>): set<nat> {
    set i | 0 <= i < |s| :: s[i]
  }

  lemma {:induction false} ElementsSize(s: seq<nat>)
    requires forall i, j | 0 <= i < j < |s| :: s[i] != s[j]
    ensures |Elements(s)| == |s|
  {
    if s != [] {
      var front := s[..|s| - 1];
      ElementsSize(front);
      assert Elements(s) == Elements(front) + {s[|s| - 1]};
    }
  }

  /** In a permutation every number below its length has a position. */
  lemma PositionExists(order: seq<nat>, n: nat)
    requires IsPermutation(order) && n < |order|
    ensures n in order
  {
    ElementsSize(order);
    if n !in Elements(order) {
      SubsetSize(Elements(order), Below(|order|) - {n});
    }
  }

  /** A tag is found exactly when it is in the list, in the line that the stack has at the
      tag's position. */
  lemma HitPosition(s: CacheSet, l: seq<Addr>, tag: Addr)
    requires Holds(s, l)
    ensures FindHit(s.lines, tag, 0).Some? <==> tag in l
    ensures forall k | 0 <= k < |l| && l[k] == tag :: FindHit(s.lines, tag, 0) == Some(s.order[k])
  {
    FoundIsInRange(s.lines, tag);
    var hit := FindHit(s.lines, tag, 0);
    if hit.Some? {
      PositionExists(s.order, hit.value);
      var i :| 0 <= i < |s.order| && s.order[i] == hit.value;
      assert i < |l| && l[i] == tag;
    }
  }

  /** While the set fills up, the first invalid line is the next one on the stack. */
  lemma FreePosition(s: CacheSet, l: seq<Addr>)
    requires Holds(s, l)
    ensures FindInvalid(s.lines, 0).Some? <==> |l| < |s.order|
    ensures |l| < |s.order| ==> FindInvalid(s.lines, 0) == Some(s.order[|l|])
  {
    InvalidIsInRange(s.lines);
    var free := FindInvalid(s.lines, 0);
    if |l| < |s.order| {
      assert !s.lines[s.order[|l|]].valid;
    }
    if free.Some? {
      PositionExists(s.order, free.value);
      var i :| 0 <= i < |s.order| && s.order[i] == free.value;
      assert |l| <= i;
      assert s.order[|l|] <= s.order[i];
    }
  }

  lemma ToFrontPermutes(order: seq<nat>, k: nat)
    requires IsPermutation(order) && k < |order|
    ensures IsPermutation(ToFront(order, k))
  {
  }

  /** A hit moves its line to the front and changes no tag. */
  lemma HitStep(s: CacheSet, l: seq<Addr>, k: nat, write: bool)
    requires Holds(s, l) && k < |l|
    ensures WellSized(s)
    ensures var (s', e) := AccessSet(s, l[k], write);
      e == Hit && Holds(s', ToFront(l, k)) && Touch(l, l[k]) == ToFront(l, k)
  {
    HitPosition(s, l, l[k]);
    ToFrontPermutes(s.order, k);
    WithoutAt(l, k);
    var s' := AccessSet(s, l[k], write).0;
    var way := s.order[k];
    assert s'.lines[way].valid && s'.lines[way].tag == s.lines[way].tag;
    FrontHolds(s, s', l, k);
  }

  /** Reordering: the lines keep their tags and validity, the stack moves one to the front. */
  lemma FrontHolds(s: CacheSet, s': CacheSet, l: seq<Addr>, k: nat)
    requires Holds(s, l) && k < |l|
    requires s'.order == ToFront(s.order, k) && IsPermutation(s'.order) && |s'.lines| == |s.lines|
    requires forall w | 0 <= w < |s.lines| :: s'.lines[w].valid == s.lines[w].valid && s'.lines[w].tag == s.lines[w].tag
    ensures Holds(s', ToFront(l, k))
  {
    ToFrontDistinct(l, k);
    forall i | 0 <= i < |l|
      ensures Matches(s'.lines[s'.order[i]], ToFront(l, k)[i])
    {
      var j := if i == 0 then k else if i <= k then i - 1 else i;
      assert Matches(s.lines[s.order[j]], l[j]);
    }
  }

  /** A miss while lines are free takes the first of them. */
  lemma FillStep(s: CacheSet, l: seq<Addr>, tag: Addr, write: bool)
    requires Holds(s, l) && tag !in l && |l| < |s.order| && Fits(tag)
    ensures WellSized(s)
    ensures var (s', e) := AccessSet(s, tag, write); e == Fill && Holds(s', [tag] + l)
  {
    HitPosition(s, l, tag);
    FreePosition(s, l);
    FoundAgainIffFits(tag);
    ToFrontPermutes(s.order, |l|);
    var s' := AccessSet(s, tag, write).0;
    var m := [tag] + l;
    forall i | 0 <= i < |m|
      ensures Matches(s'.lines[s'.order[i]], m[i])
    {
      if i > 0 {
        assert s'.order[i] == s.order[i - 1] != s.order[|l|];
      }
    }
    forall i | |m| <= i < |s'.order|
      ensures s'.order[i] == s.order[i] && s.order[i] != s.order[|l|]
    {
    }
  }

  /** A miss in a full set replaces the least recently used line. */
  lemma ReplaceStep(s: CacheSet, l: seq<Addr>, tag: Addr, write: bool)
    requires Holds(s, l) && tag !in l && |l| == |s.order| && Fits(tag)
    ensures WellSized(s)
    ensures var (s', e) := AccessSet(s, tag, write);
      && e == Replace(s.lines[GetLru(s.order)].dirty)
      && Holds(s', [tag] + l[..|l| - 1])
  {
    HitPosition(s, l, tag);
    FreePosition(s, l);
    FoundAgainIffFits(tag);
    ToFrontPermutes(s.order, |l| - 1);
    var s' := AccessSet(s, tag, write).0;
    var m := [tag] + l[..|l| - 1];
    forall i | 0 <= i < |m|
      ensures Matches(s'.lines[s'.order[i]], m[i])
    {
      if i > 0 {
        assert s'.order[i] == s.order[i - 1] != s.order[|l| - 1];
      }
    }
  }

  /** A miss puts its tag in front and drops the last one if the set was full. */
  lemma MissStep(s: CacheSet, l: seq<Addr>, tag: Addr, write: bool)
    requires Holds(s, l) && Fits(tag) && tag !in l
    ensures WellSized(s)
    ensures var (s', e) := AccessSet(s, tag, write);
      && Holds(s', Take(Touch(l, tag), |s.order|)) && |s'.order| == |s.order|
      && if |l| < |s.order| then e.Fill? else e.Replace?
  {
    WithoutAbsent(l, tag);
    if |l| < |s.order| {
      FillStep(s, l, tag, write);
    } else {
      ReplaceStep(s, l, tag, write);
      assert Touch(l, tag)[..|l|] == [tag] + l[..|l| - 1];
    }
  }

  /** Each access of a set is one step of ideal LRU with as many entries as ways. */
  lemma AccessStep(s: CacheSet, l: seq<Addr>, tag: Addr, write: bool)
    requires Holds(s, l) && Fits(tag)
    ensures WellSized(s)
    ensures var (s', e) := AccessSet(s, tag, write);
      && |s'.order| == |s.order|
      && Holds(s', Take(Touch(l, tag), |s.order|))
      && (e.Hit? <==> tag in l)
      && (e.Fill? <==> tag !in l && |l| < |s.order|)
  {
    if tag in l {
      var k :| 0 <= k < |l| && l[k] == tag;
      HitStep(s, l, k, write);
    } else {
      MissStep(s, l, tag, write);
    }
  }
}
