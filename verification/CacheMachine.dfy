/** The cache simulator as the program runs it: arrays updated in place by loops. */
module CacheMachine {
  import opened Basics
  import M = CacheModel

  const MEMWRITE := 1

  method SimpleLog2(x: int) returns (val: nat)
    ensures val == M.Log2(x)
  {
    val := 0;
    var rest := x;
    while rest > 1
      invariant val + M.Log2(rest) == M.Log2(x)
    {
      rest := rest / 2;
      val := val + 1;
    }
  }

  class LruStack {
    const order: array<nat>

    constructor (size: nat)
      ensures fresh(order) && order.Length == size
      ensures order[..] == M.EmptySet(size).order
    {
      order := new nat[size](i requires 0 <= i => i);
    }

    method GetLru() returns (n: nat)
      requires order.Length > 0
      ensures n == M.GetLru(order[..])
    {
      n := order[order.Length - 1];
    }

    /** Moves `n` to the front by shifting what is in front of it back by one place. */
    method SetMru(n: nat)
      modifies order
      ensures order[..] == M.SetMru(old(order[..]), n)
    {
      ghost var was := order[..];
      var position := FindPosition(n);
      if position.None? {
        return;
      }
      var i := position.value;
      while i > 0
        invariant 0 <= i <= position.value < order.Length
        invariant forall j | 0 <= j <= i || position.value < j < order.Length :: order[j] == was[j]
        invariant forall j | i < j <= position.value :: order[j] == was[j - 1]
      {
        order[i] := order[i - 1];
        i := i - 1;
      }
      order[0] := n;
      assert order[..] == M.ToFront(was, position.value);
    }

    method FindPosition(n: nat) returns (position: Option<nat>)
      ensures position == M.PositionOf(order[..], n, 0)
    {
      for i := 0 to order.Length
        invariant M.PositionOf(order[..], n, 0) == M.PositionOf(order[..], n, i)
      {
        if order[i] == n {
          return Some(i);
        }
      }
      return None;
    }
  }

  class SetCell {
    const blocks: array<M.Line>
    const stack: LruStack

    constructor (ways: nat)
      ensures fresh(blocks) && fresh(stack.order) && Valid()
      ensures View() == M.EmptySet(ways)
    {
      blocks := new M.Line[ways](_ => M.EMPTY_LINE);
      stack := new LruStack(ways);
      new;
      assert blocks[..] == M.EmptySet(ways).lines;
    }

    predicate Valid() {
      stack.order.Length == blocks.Length
    }

    function View(): M.CacheSet
      reads blocks, stack.order
    {
      M.CacheSet(blocks[..], stack.order[..])
    }

    method FindHit(tag: M.Addr) returns (hit: Option<nat>)
      ensures hit == M.FindHit(blocks[..], tag, 0)
    {
      for i := 0 to blocks.Length
        invariant M.FindHit(blocks[..], tag, 0) == M.FindHit(blocks[..], tag, i)
      {
        if blocks[i].valid && M.LoadedTag(blocks[i].tag) == tag {
          return Some(i);
        }
      }
      return None;
    }

    method FindInvalid() returns (invalid: Option<nat>)
      ensures invalid == M.FindInvalid(blocks[..], 0)
    {
      for i := 0 to blocks.Length
        invariant M.FindInvalid(blocks[..], 0) == M.FindInvalid(blocks[..], i)
      {
        if !blocks[i].valid {
          return Some(i);
        }
      }
      return None;
    }

    /** A hit marks a written line dirty and moves it to the front of the stack. */
    method Reuse(hit: nat, write: bool)
      requires Valid() && hit < blocks.Length
      modifies blocks, stack.order
      ensures blocks[..] == old(blocks[..])[hit := old(blocks[hit]).(dirty := old(blocks[hit]).dirty || write)]
      ensures stack.order[..] == M.SetMru(old(stack.order[..]), hit)
    {
      if write {
        blocks[hit] := blocks[hit].(dirty := true);
      }
      stack.SetMru(hit);
    }

    /** A miss fills the first invalid line, or else replaces the least recently used one. */
    method Fill(tag: M.Addr, write: bool) returns (effect: M.Effect)
      requires Valid() && M.WellSized(View())
      modifies blocks, stack.order
      ensures M.FindHit(old(blocks[..]), tag, 0).None? ==> (View(), effect) == M.AccessSet(old(View()), tag, write)
    {
      M.InvalidIsInRange(blocks[..]);
      var free := FindInvalid();
      var way;
      if free.None? {
        way := stack.GetLru();
        effect := M.Replace(blocks[way].dirty);
      } else {
        way := free.value;
        effect := M.Fill;
      }
      blocks[way] := M.Line(M.StoredTag(tag), true, write);
      stack.SetMru(way);
    }

    method Access(tag: M.Addr, write: bool) returns (effect: M.Effect)
      requires Valid() && M.WellSized(View())
      modifies blocks, stack.order
      ensures (View(), effect) == M.AccessSet(old(View()), tag, write)
    {
      M.FoundIsInRange(blocks[..], tag);
      var hit := FindHit(tag);
      if hit.Some? {
        Reuse(hit.value, write);
        effect := M.Hit;
      } else {
        effect := Fill(tag, write);
      }
    }
  }

  class Simulator {
    var accesses: nat
    var hits: nat
    var misses: nat
    var writebacks: nat

    const ways: nat
    const numSets: nat
    const offsetBits: nat
    const indexBits: nat
    /** The array of sets; which set is where is fixed once it has been built. */
    const cache: seq<SetCell>

    predicate Apart(i: nat, j: nat)
      requires i < |cache| && j < |cache|
    {
      && cache[i].blocks != cache[j].blocks
      && cache[i].stack.order != cache[j].stack.order
    }

    ghost predicate Valid() {
      && |cache| == numSets
      && (forall i | 0 <= i < |cache| :: cache[i].Valid())
      && (forall i, j | 0 <= i < j < |cache| :: Apart(i, j))
    }

    ghost function Lines(): set<object> {
      set i | 0 <= i < |cache| :: cache[i].blocks
    }

    ghost function Stacks(): set<object> {
      set i | 0 <= i < |cache| :: cache[i].stack.order
    }

    function Shape(): M.Geometry {
      M.Geometry(ways, numSets, offsetBits, indexBits)
    }

    ghost function Sets(): seq<M.CacheSet>
      reads Lines(), Stacks()
    {
      seq(|cache|, i requires 0 <= i < |cache| reads Lines(), Stacks() => cache[i].View())
    }

    ghost function View(): M.Cache
      reads this, Lines(), Stacks()
    {
      M.Cache(Shape(), Sets(), Totals())
    }

    function Totals(): M.Counters
      reads this
    {
      M.Counters(accesses, hits, misses, writebacks)
    }

    /** `cachesim_init` */
    constructor (blockSize: nat, cacheSize: nat, ways: nat)
      requires 0 < blockSize && 0 < ways
      ensures Valid() && fresh(Lines()) && fresh(Stacks())
      ensures View() == M.EmptyCache(M.MakeGeometry(blockSize, cacheSize, ways))
    {
      this.ways := ways;
      var sets := cacheSize / (blockSize * ways);
      numSets := sets;
      var offset := SimpleLog2(blockSize);
      offsetBits := offset;
      var index := SimpleLog2(sets);
      indexBits := index;
      var built: seq<SetCell> := [];
      for i := 0 to sets
        invariant |built| == i
        invariant forall j | 0 <= j < i :: built[j].Valid() && built[j].View() == M.EmptySet(ways)
        invariant forall j | 0 <= j < i :: fresh(built[j].blocks) && fresh(built[j].stack.order)
        invariant forall j, k | 0 <= j < k < i ::
          built[j].blocks != built[k].blocks && built[j].stack.order != built[k].stack.order
      {
        var s := new SetCell(ways);
        built := built + [s];
      }
      cache := built;
      accesses, hits, misses, writebacks := 0, 0, 0, 0;
    }

    /** Only the set that is accessed changes. */
    method AccessSet(i: nat, tag: M.Addr, write: bool) returns (effect: M.Effect)
      requires Valid() && i < |cache| && M.WellSized(Sets()[i])
      modifies Lines(), Stacks()
      ensures effect == M.AccessSet(old(Sets()[i]), tag, write).1
      ensures Sets() == old(Sets())[i := M.AccessSet(old(Sets()[i]), tag, write).0]
    {
      effect := cache[i].Access(tag, write);
      forall j | 0 <= j < |cache| && j != i
        ensures Sets()[j] == old(Sets()[j])
      {
        assert if j < i then Apart(j, i) else Apart(i, j);
      }
    }

    method Count(effect: M.Effect)
      modifies this
      ensures Totals() == M.Count(old(Totals()), effect)
    {
      accesses := accesses + 1;
      match effect {
        case Hit => hits := hits + 1;
        case Fill => misses := misses + 1;
        case Replace(dirty) =>
          misses := misses + 1;
          if dirty {
            writebacks := writebacks + 1;
          }
      }
    }

    /** `cachesim_access` */
    method Access(physicalAddr: M.Addr, accessType: int)
      requires Valid() && M.CacheOk(View())
      modifies this, Lines(), Stacks()
      ensures Valid()
      ensures View() == M.AccessCache(old(View()), M.Access(physicalAddr, accessType == MEMWRITE)).0
    {
      M.ShiftedOne(1, indexBits);
      M.ShiftsSplitAddress(Shape(), M.Access(physicalAddr, accessType == MEMWRITE));
      var blockAddr := M.ShiftRight(physicalAddr, offsetBits);
      var setIndex := M.BitAnd(blockAddr, M.ShiftLeft(1, indexBits) - 1);
      var tag := M.ShiftRight(blockAddr, indexBits);
      var effect := AccessSet(setIndex, tag, accessType == MEMWRITE);
      Count(effect);
    }
  }

  /** A whole trace, one line after the other. */
  method Simulate(blockSize: nat, cacheSize: nat, ways: nat, trace: seq<M.Access>) returns (counters: M.Counters)
    requires 0 < blockSize && 0 < ways && blockSize * ways <= cacheSize
    ensures M.GeometryOk(M.MakeGeometry(blockSize, cacheSize, ways))
    ensures counters == M.RunCache(M.MakeGeometry(blockSize, cacheSize, ways), trace).counters
  {
    ghost var g := M.MakeGeometry(blockSize, cacheSize, ways);
    M.MadeGeometryOk(blockSize, cacheSize, ways);
    var simulator := new Simulator(blockSize, cacheSize, ways);
    for n := 0 to |trace|
      invariant simulator.Valid() && fresh(simulator) && fresh(simulator.Lines()) && fresh(simulator.Stacks())
      invariant simulator.View() == M.RunCache(g, trace[..n])
    {
      assert trace[..n + 1][..n] == trace[..n];
      simulator.Access(trace[n].address, if trace[n].write then MEMWRITE else 0);
    }
    assert trace[..|trace|] == trace;
    counters := simulator.Totals();
  }
}
