/** What the derived geometry means for addresses: which share a block, and which sets are used. */
module CacheGeometry {
  import opened Basics
  import opened CacheModel

  ghost predicate IsPowerOfTwo(n: nat) {
    exists k: nat :: n == Pow2(k)
  }

  lemma {:induction false} Log2OfPower(k: nat)
    ensures Log2(Pow2(k)) == k
  {
    if k > 0 {
      Log2OfPower(k - 1);
    }
  }

  lemma PowerIffExact(n: nat)
    requires 0 < n
    ensures IsPowerOfTwo(n) <==> Pow2(Log2(n)) == n
  {
    if k: nat :| n == Pow2(k) {
      Log2OfPower(k);
    }
  }

  /** The block of an address is the same for all addresses with the same set and tag. */
  lemma SameBlock(g: Geometry, a: Access, b: Access)
    requires GeometryOk(g)
    ensures SetIndex(g, a) == SetIndex(g, b) && AccessTag(g, a) == AccessTag(g, b)
        <==> a.address / Pow2(g.offsetBits) == b.address / Pow2(g.offsetBits)
  {
  }

  /** With blocks of a power of two, two addresses go to the same set with the same tag if and
      only if they are in the same block. */
  lemma SharedIffSameBlock(blockSize: nat, cacheSize: nat, ways: nat, a: Access, b: Access)
    requires IsPowerOfTwo(blockSize) && 0 < ways && blockSize * ways <= cacheSize
    ensures var g := MakeGeometry(blockSize, cacheSize, ways);
      && GeometryOk(g)
      && (SetIndex(g, a) == SetIndex(g, b) && AccessTag(g, a) == AccessTag(g, b)
          <==> a.address / blockSize == b.address / blockSize)
  {
    var g := MakeGeometry(blockSize, cacheSize, ways);
    MadeGeometryOk(blockSize, cacheSize, ways);
    PowerIffExact(blockSize);
    SameBlock(g, a, b);
  }

  ghost predicate SharesAsBlocks(g: Geometry, blockSize: nat, a: Access, b: Access)
    requires GeometryOk(g) && 0 < blockSize
  {
    SetIndex(g, a) == SetIndex(g, b) && AccessTag(g, a) == AccessTag(g, b)
    <==> a.address / blockSize == b.address / blockSize
  }

  /** And only then: with any other block size some two addresses of one block are kept apart. */
  lemma BlocksIffPowerOfTwo(blockSize: nat, cacheSize: nat, ways: nat)
    requires 0 < blockSize && 0 < ways && blockSize * ways <= cacheSize < 0x8000_0000
    ensures var g := MakeGeometry(blockSize, cacheSize, ways);
      && GeometryOk(g)
      && ((forall a: Access, b: Access :: SharesAsBlocks(g, blockSize, a, b)) <==> IsPowerOfTwo(blockSize))
  {
    var g := MakeGeometry(blockSize, cacheSize, ways);
    MadeGeometryOk(blockSize, cacheSize, ways);
    PowerIffExact(blockSize);
    if IsPowerOfTwo(blockSize) {
      forall a: Access, b: Access
        ensures SharesAsBlocks(g, blockSize, a, b)
      {
        SharedIffSameBlock(blockSize, cacheSize, ways, a, b);
      }
    } else {
      var p := Pow2(Log2(blockSize));
      Log2Bounds(blockSize);
      TimesPositive(blockSize, ways);
      var a, b := Access(0, false), Access(p, false);
      SameBlock(g, a, b);
      DivisionUnique(p, p, 1, 0);
      DivisionUnique(p, blockSize, 0, p);
      assert !SharesAsBlocks(g, blockSize, a, b);
    }
  }

  /** With powers of two the split is the usual one: remainder and quotient of the block number
      by the number of sets. */
  lemma UsualSplit(blockSize: nat, cacheSize: nat, ways: nat, a: Access)
    requires 0 < blockSize && 0 < ways && blockSize * ways <= cacheSize
    requires IsPowerOfTwo(blockSize) && IsPowerOfTwo(cacheSize / (blockSize * ways))
    ensures var g, sets := MakeGeometry(blockSize, cacheSize, ways), cacheSize / (blockSize * ways);
      && GeometryOk(g)
      && SetIndex(g, a) == a.address / blockSize % sets
      && AccessTag(g, a) == a.address / blockSize / sets
  {
    MadeGeometryOk(blockSize, cacheSize, ways);
    var sets := cacheSize / (blockSize * ways);
    PowerIffExact(blockSize);
    PowerIffExact(sets);
  }

  /** Some address goes to set `i`. */
  ghost predicate IsUsed(g: Geometry, i: nat)
    requires GeometryOk(g)
  {
    exists a: Access :: SetIndex(g, a) == i
  }

  /** The sets that any address goes to are those below the largest power of two that is not
      above the number of sets; so all are used if and only if that number is a power of two. */
  lemma UsedSets(blockSize: nat, cacheSize: nat, ways: nat)
    requires 0 < blockSize && 0 < ways && blockSize * ways <= cacheSize < 0x8000_0000
    ensures var g, sets := MakeGeometry(blockSize, cacheSize, ways), cacheSize / (blockSize * ways);
      && GeometryOk(g) && g.numSets == sets && g.ways == ways
      && (forall i: nat :: IsUsed(g, i) <==> i < Pow2(Log2(sets)))
      && ((forall i: nat | i < sets :: IsUsed(g, i)) <==> IsPowerOfTwo(sets))
  {
    var g, sets := MakeGeometry(blockSize, cacheSize, ways), cacheSize / (blockSize * ways);
    MadeGeometryOk(blockSize, cacheSize, ways);
    PowerIffExact(sets);
    var p := Pow2(Log2(blockSize));
    Log2Bounds(blockSize);
    Log2Bounds(sets);
    forall i: nat
      ensures IsUsed(g, i) <==> i < Pow2(Log2(sets))
    {
      if i < Pow2(Log2(sets)) {
        FirstAddress(blockSize, cacheSize, ways, sets, p, i);
        FirstOfSet(g, i, i * p);
      }
    }
    if forall i: nat | i < sets :: IsUsed(g, i) {
      assert IsUsed(g, sets - 1);
    }
  }

  lemma FirstOfSet(g: Geometry, i: nat, address: nat)
    requires GeometryOk(g) && i < Pow2(g.indexBits) && address == i * Pow2(g.offsetBits) < 0x8000_0000
    ensures IsUsed(g, i)
  {
    DivisionUnique(address, Pow2(g.offsetBits), i, 0);
    DivisionUnique(i, Pow2(g.indexBits), 0, i);
    assert SetIndex(g, Access(address, false)) == i;
  }

  lemma FirstAddress(blockSize: nat, cacheSize: nat, ways: nat, sets: nat, p: nat, i: nat)
    requires 0 < ways && p <= blockSize && i <= sets && 0 < blockSize * ways && sets == cacheSize / (blockSize * ways)
    ensures i * p <= cacheSize
  {
    var n := blockSize * ways;
    TimesPositive(blockSize, ways);
    assert blockSize <= n;
    TimesMonotone(i, sets, p);
    assert i * p <= sets * p;
    TimesMonotone(p, n, sets);
    assert sets * p <= sets * n;
    assert cacheSize == sets * n + cacheSize % n;
  }
}
