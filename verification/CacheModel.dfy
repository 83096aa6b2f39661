/** The cache simulator as a value: address split, lines, LRU stacks and counters. */
module CacheModel {
  import opened Basics

  // ---------- Tags as they are stored ----------

  /** `addr_t`, an unsigned 64-bit integer. */
  type Addr = x: int | 0 <= x < 0x1_0000_0000_0000_0000

  type Int32 = x: int | -0x8000_0000 <= x < 0x8000_0000

  /** The conversion of an address to the `int` field that holds a tag. */
  function StoredTag(tag: Addr): Int32 {
    var low := tag % 0x1_0000_0000;
    if low < 0x8000_0000 then low else low - 0x1_0000_0000
  }

  /** A stored tag, converted back to `addr_t` for the comparison. */
  function LoadedTag(stored: Int32): Addr {
    if stored >= 0 then stored else stored + 0x1_0000_0000_0000_0000
  }

  /** The tags that survive being stored. */
  predicate Fits(tag: Addr) {
    tag < 0x8000_0000 || 0xFFFF_FFFF_8000_0000 <= tag
  }

  /** A line filled with `tag` is found again under `tag` if and only if the tag fits. */
  lemma FoundAgainIffFits(tag: Addr)
    ensures LoadedTag(StoredTag(tag)) == tag <==> Fits(tag)
  {
  }

  // ---------- One set ----------

  datatype Line = Line(tag: Int32, valid: bool, dirty: bool)

  const EMPTY_LINE := Line(0, false, false)

  /** The lines of a set and its LRU stack, most recently used first. */
  datatype CacheSet = CacheSet(lines: seq<Line>, order: seq<nat>)

  predicate Matches(line: Line, tag: Addr) {
    line.valid && LoadedTag(line.tag) == tag
  }

  /** The first line from `i` on that holds `tag`. */
  function FindHit(lines: seq<Line>, tag: Addr, i: nat): Option<nat>
    requires i <= |lines|
    decreases |lines| - i
  {
    if i == |lines| then None else if Matches(lines[i], tag) then Some(i) else FindHit(lines, tag, i + 1)
  }

  function FindInvalid(lines: seq<Line>, i: nat): Option<nat>
    requires i <= |lines|
    decreases |lines| - i
  {
    if i == |lines| then None else if !lines[i].valid then Some(i) else FindInvalid(lines, i + 1)
  }

  /** The position of `n` in the stack, from `i` on. */
  function PositionOf(order: seq<nat>, n: nat, i: nat): (r: Option<nat>)
    requires i <= |order|
    ensures r.Some? ==> i <= r.value < |order| && order[r.value] == n
    ensures r.None? ==> forall j | i <= j < |order| :: order[j] != n
    decreases |order| - i
  {
    if i == |order| then None else if order[i] == n then Some(i) else PositionOf(order, n, i + 1)
  }

  /** The sequence with the element at position `k` moved to the front. */
  function ToFront<T>(s: seq<T>, k: nat): seq<T>
    requires k < |s|
  {
    [s[k]] + s[..k] + s[k + 1..]
  }

  /** `lru_stack_set_mru` */
  function SetMru(order: seq<nat>, n: nat): (r: seq<nat>)
    ensures |r| == |order|
  {
    var k := PositionOf(order, n, 0);
    if k.None? then order else ToFront(order, k.value)
  }

  /** `lru_stack_get_lru` */
  function GetLru(order: seq<nat>): nat
    requires order != []
  {
    order[|order| - 1]
  }

  /** What an access did to its set. */
  datatype Effect = Hit | Fill | Replace(writeback: bool)

  /** The lines and the stack agree in size and the stack names lines. */
  predicate WellSized(s: CacheSet) {
    0 < |s.lines| == |s.order| && forall i | 0 <= i < |s.order| :: s.order[i] < |s.lines|
  }

  /** `cachesim_access`, once the set and the tag are known. */
  function AccessSet(s: CacheSet, tag: Addr, write: bool): (CacheSet, Effect)
    requires WellSized(s)
  {
    var hit := FindHit(s.lines, tag, 0);
    if hit.Some? then
      FoundIsInRange(s.lines, tag);
      var line := s.lines[hit.value];
      (CacheSet(s.lines[hit.value := line.(dirty := line.dirty || write)], SetMru(s.order, hit.value)), Hit)
    else
      var free := FindInvalid(s.lines, 0);
      InvalidIsInRange(s.lines);
      var way := if free.Some? then free.value else GetLru(s.order);
      (CacheSet(s.lines[way := Line(StoredTag(tag), true, write)], SetMru(s.order, way)),
       if free.Some? then Fill else Replace(s.lines[way].dirty))
  }

  lemma FoundIsInRange(lines: seq<Line>, tag: Addr)
    ensures var r := FindHit(lines, tag, 0);
      && (r.Some? ==> r.value < |lines| && Matches(lines[r.value], tag))
      && (r.None? ==> forall j | 0 <= j < |lines| :: !Matches(lines[j], tag))
  {
    FindHitMeaning(lines, tag, 0);
  }

  lemma {:induction false} FindHitMeaning(lines: seq<Line>, tag: Addr, i: nat)
    requires i <= |lines|
    ensures var r := FindHit(lines, tag, i);
      && (r.Some? ==> i <= r.value < |lines| && Matches(lines[r.value], tag))
      && (r.None? ==> forall j | i <= j < |lines| :: !Matches(lines[j], tag))
    decreases |lines| - i
  {
    if i < |lines| {
      FindHitMeaning(lines, tag, i + 1);
    }
  }

  lemma InvalidIsInRange(lines: seq<Line>)
    ensures var r := FindInvalid(lines, 0);
      && (r.Some? ==> r.value < |lines| && !lines[r.value].valid && forall j | 0 <= j < r.value :: lines[j].valid)
      && (r.None? ==> forall j | 0 <= j < |lines| :: lines[j].valid)
  {
    FindInvalidMeaning(lines, 0);
  }

  lemma {:induction false} FindInvalidMeaning(lines: seq<Line>, i: nat)
    requires i <= |lines|
    ensures var r := FindInvalid(lines, i);
      && (r.Some? ==> i <= r.value < |lines| && !lines[r.value].valid && forall j | i <= j < r.value :: lines[j].valid)
      && (r.None? ==> forall j | i <= j < |lines| :: lines[j].valid)
    decreases |lines| - i
  {
    if i < |lines| {
      FindInvalidMeaning(lines, i + 1);
    }
  }

  function EmptySet(ways: nat): CacheSet {
    CacheSet(seq(ways, _ => EMPTY_LINE), seq(ways, i requires 0 <= i => i))
  }

  // ---------- Geometry ----------

  function Pow2(n: nat): (r: nat)
    ensures 0 < r
  {
    if n == 0 then 1 else 2 * Pow2(n - 1)
  }

  /** floor(log2(x)), and 0 for x below 2. */
  function Log2(x: int): nat {
    if x <= 1 then 0 else 1 + Log2(x / 2)
  }

  lemma {:induction false} Log2Bounds(x: int)
    requires 1 <= x
    ensures Pow2(Log2(x)) <= x < 2 * Pow2(Log2(x))
  {
    if x > 1 {
      Log2Bounds(x / 2);
    }
  }

  datatype Geometry = Geometry(ways: nat, numSets: nat, offsetBits: nat, indexBits: nat)

  /** What `cachesim_init` derives from its parameters. */
  function MakeGeometry(blockSize: nat, cacheSize: nat, ways: nat): Geometry
    requires 0 < blockSize && 0 < ways
  {
    var sets := cacheSize / (blockSize * ways);
    Geometry(ways, sets, Log2(blockSize), Log2(sets))
  }

  predicate GeometryOk(g: Geometry) {
    0 < g.ways && 0 < g.numSets && Pow2(g.indexBits) <= g.numSets
  }

  function BlockOf(g: Geometry, address: Addr): Addr {
    ShiftShrinks(address, Pow2(g.offsetBits));
    address / Pow2(g.offsetBits)
  }

  /** `block_addr & ((1 << num_index_bits) - 1)` */
  function IndexOf(g: Geometry, block: Addr): (r: nat)
    ensures r < Pow2(g.indexBits)
  {
    block % Pow2(g.indexBits)
  }

  function TagOf(g: Geometry, block: Addr): Addr {
    ShiftShrinks(block, Pow2(g.indexBits));
    block / Pow2(g.indexBits)
  }

  lemma ShiftShrinks(x: nat, n: nat)
    requires 0 < n
    ensures 0 <= x / n <= x
  {
    var q := x / n;
    assert q * n + x % n == x;
    TimesPositive(q, n);
  }

  lemma TimesPositive(q: nat, n: nat)
    requires 0 < n
    ensures q <= q * n
  {
  }

  // ---------- The same split with the operators of the program ----------

  /** `x >> n`, one bit at a time. */
  function ShiftRight(x: nat, n: nat): nat {
    if n == 0 then x else ShiftRight(x / 2, n - 1)
  }

  /** `x << n`, one bit at a time. */
  function ShiftLeft(x: nat, n: nat): nat
    decreases n
  {
    if n == 0 then x else ShiftLeft(2 * x, n - 1)
  }

  /** `x & y`, bit by bit. */
  function BitAnd(x: nat, y: nat): nat {
    if x == 0 || y == 0 then 0 else 2 * BitAnd(x / 2, y / 2) + (x % 2) * (y % 2)
  }

  lemma HalveThenDivide(x: nat, n: nat)
    requires 0 < n
    ensures x / (2 * n) == x / 2 / n && x % (2 * n) == 2 * (x / 2 % n) + x % 2
  {
    var h := x / 2;
    var q, r := h / n, h % n;
    assert h == q * n + r;
    assert q * (2 * n) == 2 * (q * n);
    DivisionUnique(x, 2 * n, q, 2 * r + x % 2);
  }

  lemma {:induction false} ShiftIsDivision(x: nat, n: nat)
    ensures ShiftRight(x, n) == x / Pow2(n)
  {
    if n > 0 {
      ShiftIsDivision(x / 2, n - 1);
      HalveThenDivide(x, Pow2(n - 1));
    }
  }

  lemma {:induction false} ShiftedOne(x: nat, n: nat)
    ensures ShiftLeft(x, n) == x * Pow2(n)
    decreases n
  {
    if n > 0 {
      ShiftedOne(2 * x, n - 1);
      assert (2 * x) * Pow2(n - 1) == x * (2 * Pow2(n - 1));
    }
  }

  lemma {:induction false} MaskIsRemainder(x: nat, n: nat)
    ensures BitAnd(x, Pow2(n) - 1) == x % Pow2(n)
  {
    if n > 0 {
      var m := Pow2(n - 1);
      MaskIsRemainder(x / 2, n - 1);
      HalveThenDivide(x, m);
      assert (2 * m - 1) / 2 == m - 1 && (2 * m - 1) % 2 == 1;
    }
  }

  /** The shifts and the mask of `cachesim_access` split an address into set and tag. */
  lemma ShiftsSplitAddress(g: Geometry, a: Access)
    requires GeometryOk(g)
    ensures var block := ShiftRight(a.address, g.offsetBits);
      && 0 < ShiftLeft(1, g.indexBits)
      && BitAnd(block, ShiftLeft(1, g.indexBits) - 1) == SetIndex(g, a)
      && ShiftRight(block, g.indexBits) == AccessTag(g, a)
  {
    ShiftIsDivision(a.address, g.offsetBits);
    var block := BlockOf(g, a.address);
    ShiftedOne(1, g.indexBits);
    MaskIsRemainder(block, g.indexBits);
    ShiftIsDivision(block, g.indexBits);
  }

  /** Whatever the number of sets, power of two or not, the index addresses a set, and index
      and tag together determine the block. */
  lemma IndexAndTagIdentify(g: Geometry, a: Addr, b: Addr)
    requires GeometryOk(g)
    ensures IndexOf(g, a) < g.numSets
    ensures IndexOf(g, a) == IndexOf(g, b) && TagOf(g, a) == TagOf(g, b) ==> a == b
  {
  }

  lemma MadeGeometryOk(blockSize: nat, cacheSize: nat, ways: nat)
    requires 0 < blockSize && 0 < ways && blockSize * ways <= cacheSize
    ensures GeometryOk(MakeGeometry(blockSize, cacheSize, ways))
  {
    var n := blockSize * ways;
    var q, r := cacheSize / n, cacheSize % n;
    assert cacheSize == q * n + r;
    assert q <= 0 ==> q * n <= 0;
    Log2Bounds(q);
  }

  // ---------- The whole cache ----------

  datatype Counters = Counters(accesses: nat, hits: nat, misses: nat, writebacks: nat)

  datatype Cache = Cache(g: Geometry, sets: seq<CacheSet>, counters: Counters)

  /** One line of a trace: an address and whether it is a write (`MEMWRITE`). */
  datatype Access = Access(address: Addr, write: bool)

  predicate CacheOk(c: Cache) {
    && GeometryOk(c.g)
    && |c.sets| == c.g.numSets
    && forall i | 0 <= i < |c.sets| :: WellSized(c.sets[i])
  }

  function Count(k: Counters, e: Effect): Counters {
    match e
    case Hit => k.(accesses := k.accesses + 1, hits := k.hits + 1)
    case Fill => k.(accesses := k.accesses + 1, misses := k.misses + 1)
    case Replace(writeback) =>
      k.(accesses := k.accesses + 1, misses := k.misses + 1,
         writebacks := k.writebacks + if writeback then 1 else 0)
  }

  function SetIndex(g: Geometry, a: Access): (r: nat)
    requires GeometryOk(g)
    ensures r < g.numSets
  {
    IndexOf(g, BlockOf(g, a.address))
  }

  function AccessTag(g: Geometry, a: Access): Addr {
    TagOf(g, BlockOf(g, a.address))
  }

  lemma AccessKeepsSize(s: CacheSet, tag: Addr, write: bool)
    requires WellSized(s)
    ensures WellSized(AccessSet(s, tag, write).0) && |AccessSet(s, tag, write).0.order| == |s.order|
  {
    FoundIsInRange(s.lines, tag);
    InvalidIsInRange(s.lines);
  }

  /** `cachesim_access` */
  function AccessCache(c: Cache, a: Access): (Cache, Effect)
    requires CacheOk(c)
  {
    var i := SetIndex(c.g, a);
    var (s, effect) := AccessSet(c.sets[i], AccessTag(c.g, a), a.write);
    (Cache(c.g, c.sets[i := s], Count(c.counters, effect)), effect)
  }

  function EmptyCache(g: Geometry): Cache {
    Cache(g, seq(g.numSets, _ => EmptySet(g.ways)), Counters(0, 0, 0, 0))
  }

  /** The cache after a trace. */
  function RunCache(g: Geometry, trace: seq<Access>): (r: Cache)
    requires GeometryOk(g)
    ensures CacheOk(r) && r.g == g
  {
    if trace == [] then EmptyCache(g)
    else
      var c := RunCache(g, trace[..|trace| - 1]);
      var a := trace[|trace| - 1];
      AccessKeepsSize(c.sets[SetIndex(g, a)], AccessTag(g, a), a.write);
      AccessCache(c, a).0
  }
}
