/**
 `memory_pool.cpp`: aligned blocks with a header in front, and the counters.

 Sizes and addresses are 64-bit words: sums wrap as `size_t` sums do. Where
 `operator new` puts a block is a parameter; all it promises is that the block
 lies within the address space and apart from the blocks given out before.
 */
module MemoryPool {

  import opened Bits
  import opened Wrappers

  const WORD: nat := 0x1_0000_0000_0000_0000
  /** `sizeof(BlockHeader)`: a size, a flag with its fill, and a pointer. */
  const HEADER: nat := 24

  /** The value modulo 2^64. */
  function Wrap(n: nat): (r: nat)
    ensures r < WORD
  {
    if n < WORD then n else Wrap(n - WORD)
  }

  /** The difference of two words. */
  function Minus(a: nat, b: nat): (r: nat)
    ensures b <= a < WORD ==> r == a - b
  {
    if a >= b then Wrap(a - b) else WORD - 1 - Wrap(b - a - 1)
  }

  // ------------------------------------------------------------ where a block goes

  /** `size + alignment + sizeof(BlockHeader)`, as a word. */
  function TotalNeeded(size: nat, alignment: nat): nat {
    Wrap(Wrap(size + alignment) + HEADER)
  }

  /** No wrap-around in the sum. */
  predicate Fits(size: nat, alignment: nat) {
    size + alignment + HEADER < WORD
  }

  /** `(raw + sizeof(BlockHeader) + alignment - 1) & ~(alignment - 1)` on words. */
  function AlignedAddress(raw: nat, alignment: nat): nat {
    And(Wrap(raw + HEADER + alignment + (WORD - 1)), WORD - 1 - Wrap(alignment + (WORD - 1)))
  }

  /** A size and an alignment for which the code's arithmetic is meant. */
  predicate Proper(size: nat, alignment: nat, k: nat) {
    size > 0 && k < 64 && alignment == Pow2(k) && Fits(size, alignment)
  }

  lemma WrapSmall(n: nat)
    ensures n < WORD ==> Wrap(n) == n
    ensures WORD <= n < 2 * WORD ==> Wrap(n) == n - WORD
  {
  }

  lemma WordIsPower()
    ensures Pow2(64) == WORD
  {
    assert Pow2(8) == 256;
    Pow2Sum(8, 8);
    Pow2Sum(16, 16);
    Pow2Sum(32, 32);
  }

  lemma {:induction false} Pow2Monotone(m: nat, n: nat)
    requires m <= n
    ensures 0 < Pow2(m) <= Pow2(n)
  {
    Pow2Positive(m);
    if m < n {
      Pow2Monotone(m, n - 1);
    }
  }

  /** Clearing low bits with the complemented mask rounds down to a multiple of the alignment. */
  lemma MaskRoundsDown(x: nat, k: nat)
    requires x < WORD && k < 64
    ensures 0 < Pow2(k) < WORD
    ensures var y := And(x, WORD - Pow2(k)); x - Pow2(k) < y <= x && y % Pow2(k) == 0
  {
    Pow2Monotone(k, 63);
    WordIsPower();
    assert Pow2(64) == 2 * Pow2(63);
    ClearLow(x, 64 - k, k);
    LowBound(x, k);
    MultipleMod(ShiftRight(x, k), Pow2(k));
  }

  lemma MultipleMod(q: nat, d: nat)
    requires d > 0
    ensures (q * d) % d == 0
  {
    var m := q * d;
    var e := m / d - q;
    assert m == d * (m / d) + m % d;
    assert d * e == d * (m / d) - m;
    assert d * e == -(m % d);
    ZeroFactor(d as int, e);
  }

  lemma ZeroFactor(d: int, e: int)
    requires d > 0 && -d < d * e <= 0
    ensures e == 0
  {
  }

  /** Header and payload lie inside the block that was allocated for them. */
  predicate Inside(raw: nat, total: nat, address: nat, size: nat) {
    raw + HEADER <= address && address + size <= raw + total
  }

  /** The mask `~(alignment - 1)`. */
  lemma ComplementedMask(k: nat)
    requires k < 64
    ensures 0 < Pow2(k) && 2 * Pow2(k) <= WORD
    ensures WORD - 1 - Wrap(Pow2(k) + (WORD - 1)) == WORD - Pow2(k)
  {
    Pow2Monotone(k, 63);
    HalfWord();
    WrapSmall(Pow2(k) + (WORD - 1));
  }

  lemma AlignedIs(raw: nat, alignment: nat, k: nat)
    requires k < 64 && alignment == Pow2(k)
    ensures var p, x := AlignedAddress(raw, alignment), Wrap(raw + HEADER + alignment + (WORD - 1));
            0 < 2 * alignment <= WORD && x - alignment < p <= x && p % alignment == 0
  {
    ComplementedMask(k);
    MaskRoundsDown(Wrap(raw + HEADER + alignment + (WORD - 1)), k);
  }

  /**
   For every power of two the address is a multiple of it, and header and payload lie inside the
   block if and only if the sum of the sizes does not wrap.
   */
  lemma BlockLayout(raw: nat, size: nat, alignment: nat, k: nat)
    requires k < 64 && alignment == Pow2(k) && 0 < size < WORD
    requires raw + TotalNeeded(size, alignment) <= WORD
    ensures alignment > 0 && AlignedAddress(raw, alignment) % alignment == 0
    ensures Inside(raw, TotalNeeded(size, alignment), AlignedAddress(raw, alignment), size) <==> Fits(size, alignment)
  {
    AlignedIs(raw, alignment, k);
    WrapSmall(raw + HEADER + alignment + (WORD - 1));
    WrapSmall(size + alignment);
    WrapSmall(Wrap(size + alignment) + HEADER);
  }

  /** A size near the top of the word with the usual alignment gets a block of eight bytes. */
  lemma WrappedBlock(raw: nat)
    requires raw + 8 <= WORD
    ensures TotalNeeded(WORD - 32, 16) == 8
    ensures !Inside(raw, 8, AlignedAddress(raw, 16), WORD - 32)
  {
    assert Pow2(4) == 16;
    WrapSmall(WORD - 32 + 16);
    WrapSmall(WORD - 32 + 16 + HEADER);
    BlockLayout(raw, WORD - 32, 16, 4);
  }

  lemma HalfWord()
    ensures 2 * Pow2(63) == WORD
  {
    WordIsPower();
  }

  // ------------------------------------------------------------ how much room blocks can take

  /** A block as it was given out; blocks are never given back while the pool lives. */
  datatype Block = Block(raw: nat, total: nat, address: nat, size: nat)

  function Totals(blocks: seq<Block>): nat {
    if blocks == [] then 0 else Totals(blocks[..|blocks| - 1]) + blocks[|blocks| - 1].total
  }

  function Sizes(blocks: seq<Block>): nat {
    if blocks == [] then 0 else Sizes(blocks[..|blocks| - 1]) + blocks[|blocks| - 1].size
  }

  predicate Disjoint(a: Block, b: Block) {
    a.raw + a.total <= b.raw || b.raw + b.total <= a.raw
  }

  predicate Placed(b: Block) {
    1 <= b.raw && b.raw + b.total <= WORD && b.size > 0 && Inside(b.raw, b.total, b.address, b.size)
  }

  predicate Layout(blocks: seq<Block>) {
    && (forall i :: 0 <= i < |blocks| ==> Placed(blocks[i]))
    && (forall i, j :: 0 <= i < j < |blocks| ==> Disjoint(blocks[i], blocks[j]))
  }

  predicate StartsBy(lo: nat, x: nat) { lo <= x }

  /** The `n` addresses from `lo` on. */
  ghost function Range(lo: nat, n: nat): set<nat> {
    set x: nat | x < lo + n && StartsBy(lo, x)
  }

  lemma {:induction false} RangeSize(lo: nat, n: nat)
    ensures |Range(lo, n)| == n
  {
    if n == 0 {
      assert Range(lo, 0) == {};
    } else {
      RangeSize(lo, n - 1);
      assert Range(lo, n) == Range(lo, n - 1) + {lo + n - 1};
    }
  }

  ghost function Cells(blocks: seq<Block>): set<nat> {
    if blocks == [] then {}
    else Cells(blocks[..|blocks| - 1]) + Range(blocks[|blocks| - 1].raw, blocks[|blocks| - 1].total)
  }

  lemma {:induction false} CellsFrom(blocks: seq<Block>, x: nat)
    requires x in Cells(blocks)
    ensures exists i :: 0 <= i < |blocks| && blocks[i].raw <= x < blocks[i].raw + blocks[i].total
  {
    var n := |blocks| - 1;
    if x in Cells(blocks[..n]) {
      CellsFrom(blocks[..n], x);
      var i :| 0 <= i < n && blocks[..n][i].raw <= x < blocks[..n][i].raw + blocks[..n][i].total;
      assert blocks[i].raw <= x < blocks[i].raw + blocks[i].total;
    }
  }

  lemma {:induction false} CellsCount(blocks: seq<Block>)
    requires Layout(blocks)
    ensures |Cells(blocks)| == Totals(blocks)
  {
    if blocks != [] {
      var n := |blocks| - 1;
      CellsCount(blocks[..n]);
      RangeSize(blocks[n].raw, blocks[n].total);
      forall x | x in Cells(blocks[..n])
        ensures x !in Range(blocks[n].raw, blocks[n].total)
      {
        CellsFrom(blocks[..n], x);
        var i :| 0 <= i < n && blocks[..n][i].raw <= x < blocks[..n][i].raw + blocks[..n][i].total;
        assert Disjoint(blocks[i], blocks[n]);
      }
    }
  }

  lemma {:induction false} SubsetSize(a: set<nat>, b: set<nat>)
    requires a <= b
    ensures |a| <= |b|
  {
    if a != {} {
      var x :| x in a;
      SubsetSize(a - {x}, b - {x});
    }
  }

  lemma {:induction false} SizesWithinTotals(blocks: seq<Block>)
    requires Layout(blocks)
    ensures |blocks| <= Sizes(blocks) <= Totals(blocks)
  {
    if blocks != [] {
      assert Placed(blocks[|blocks| - 1]);
      SizesWithinTotals(blocks[..|blocks| - 1]);
    }
  }

  /** Blocks that lie apart in the address space: none of the sums can wrap. */
  lemma NoWrap(blocks: seq<Block>)
    requires Layout(blocks)
    ensures |blocks| <= Sizes(blocks) <= Totals(blocks) < WORD
  {
    SizesWithinTotals(blocks);
    CellsCount(blocks);
    forall x | x in Cells(blocks)
      ensures x in Range(1, WORD - 1)
    {
      CellsFrom(blocks, x);
      var i :| 0 <= i < |blocks| && blocks[i].raw <= x < blocks[i].raw + blocks[i].total;
      assert Placed(blocks[i]);
    }
    SubsetSize(Cells(blocks), Range(1, WORD - 1));
    RangeSize(1, WORD - 1);
  }

  // ------------------------------------------------------------ the books

  datatype Header = Header(size: nat, inUse: bool)

  /** The sum of the sizes in use. */
  ghost function InUse(live: map<nat, Header>): nat {
    if live == map[] then 0
    else var p :| p in live; live[p].size + InUse(live - {p})
  }

  lemma {:induction false} InUseWithout(live: map<nat, Header>, p: nat)
    requires p in live
    ensures InUse(live) == live[p].size + InUse(live - {p})
    decreases |live|
  {
    var q :| q in live && InUse(live) == live[q].size + InUse(live - {q});
    if q != p {
      InUseWithout(live - {q}, p);
      InUseWithout(live - {p}, q);
      assert live - {q} - {p} == live - {p} - {q};
    }
  }

  lemma InUseWith(live: map<nat, Header>, p: nat, h: Header)
    requires p !in live
    ensures InUse(live[p := h]) == InUse(live) + h.size
    ensures |live[p := h]| == |live| + 1
  {
    var more := live[p := h];
    InUseWithout(more, p);
    OneLess(more, p);
    assert more - {p} == live;
  }

  /** The state of the pool, with the blocks it has given out. */
  datatype Books = Books(
    live: map<nat, Header>,
    freeList: seq<nat>,
    poolBytes: nat,
    allocatedBytes: nat,
    usedBytes: nat,
    allocations: nat,
    deallocations: nat,
    blocks: seq<Block>)

  /** `p` is the address of a block of that size. */
  predicate Given(blocks: seq<Block>, p: nat, size: nat) {
    exists i :: 0 <= i < |blocks| && blocks[i].address == p && blocks[i].size == size
  }

  predicate HasAddress(blocks: seq<Block>, p: nat) {
    exists i :: 0 <= i < |blocks| && blocks[i].address == p
  }

  /** Whatever is live is a given block in use, with its size on record. */
  ghost predicate LiveGiven(blocks: seq<Block>, live: map<nat, Header>) {
    forall p :: p in live ==> live[p].inUse && Given(blocks, p, live[p].size)
  }

  /** Headers on the free list belong to given blocks that are not live, each listed once. */
  ghost predicate Returned(blocks: seq<Block>, live: map<nat, Header>, freeList: seq<nat>) {
    && (forall i :: 0 <= i < |freeList| ==> freeList[i] + HEADER !in live && HasAddress(blocks, freeList[i] + HEADER))
    && (forall i, j :: 0 <= i < j < |freeList| ==> freeList[i] != freeList[j])
  }

  ghost predicate Counted(s: Books) {
    && s.poolBytes == Totals(s.blocks)
    && s.allocatedBytes == Sizes(s.blocks)
    && s.allocations == |s.blocks|
    && s.usedBytes == InUse(s.live) <= s.allocatedBytes
    && s.allocations == s.deallocations + |s.live|
    && |s.freeList| == s.deallocations
  }

  ghost predicate Balanced(s: Books, limit: nat) {
    && Layout(s.blocks)
    && LiveGiven(s.blocks, s.live)
    && Returned(s.blocks, s.live, s.freeList)
    && Counted(s)
    && (limit > 0 ==> s.poolBytes <= limit)
  }

  /** What `operator new` promises: room in the address space, apart from every earlier block. */
  predicate Available(blocks: seq<Block>, raw: nat, total: nat) {
    1 <= raw && raw + total <= WORD
    && forall i :: 0 <= i < |blocks| ==> Disjoint(blocks[i], Block(raw, total, 0, 0))
  }

  function Allocated(s: Books, raw: nat, size: nat, alignment: nat): Books {
    var p, total := AlignedAddress(raw, alignment), TotalNeeded(size, alignment);
    s.(live := s.live[p := Header(size, true)],
       poolBytes := Wrap(s.poolBytes + total),
       allocatedBytes := Wrap(s.allocatedBytes + size),
       usedBytes := Wrap(s.usedBytes + size),
       allocations := Wrap(s.allocations + 1),
       blocks := s.blocks + [NewBlock(raw, size, alignment)])
  }

  function Freed(s: Books, p: nat): Books
    requires p in s.live
  {
    s.(live := s.live - {p},
       freeList := [Minus(p, HEADER)] + s.freeList,
       usedBytes := Minus(s.usedBytes, s.live[p].size),
       deallocations := Wrap(s.deallocations + 1))
  }

  lemma LayoutGrows(blocks: seq<Block>, b: Block)
    requires Layout(blocks) && Placed(b) && Available(blocks, b.raw, b.total)
    ensures Layout(blocks + [b]) && !HasAddress(blocks, b.address)
  {
    forall i | 0 <= i < |blocks|
      ensures Disjoint(blocks[i], b) && blocks[i].address != b.address
    {
      assert Placed(blocks[i]);
      assert Disjoint(blocks[i], Block(b.raw, b.total, 0, 0));
    }
  }

  lemma SumsGrow(blocks: seq<Block>, b: Block)
    ensures Totals(blocks + [b]) == Totals(blocks) + b.total
    ensures Sizes(blocks + [b]) == Sizes(blocks) + b.size
  {
    assert (blocks + [b])[..|blocks|] == blocks;
  }

  lemma AddressLive(blocks: seq<Block>, live: map<nat, Header>, p: nat)
    requires LiveGiven(blocks, live) && p in live
    ensures HasAddress(blocks, p)
  {
    assert Given(blocks, p, live[p].size);
  }

  lemma LiveStill(blocks: seq<Block>, live: map<nat, Header>, b: Block)
    requires LiveGiven(blocks, live)
    ensures LiveGiven(blocks + [b], live[b.address := Header(b.size, true)])
  {
    var more := blocks + [b];
    forall p, size | Given(blocks, p, size)
      ensures Given(more, p, size)
    {
      var i :| 0 <= i < |blocks| && blocks[i].address == p && blocks[i].size == size;
      assert more[i] == blocks[i];
    }
    assert more[|blocks|] == b;
  }

  lemma ReturnedStill(blocks: seq<Block>, live: map<nat, Header>, freeList: seq<nat>, b: Block)
    requires Returned(blocks, live, freeList) && !HasAddress(blocks, b.address)
    ensures Returned(blocks + [b], live[b.address := Header(b.size, true)], freeList)
  {
    var more := blocks + [b];
    forall p | HasAddress(blocks, p)
      ensures HasAddress(more, p)
    {
      var i :| 0 <= i < |blocks| && blocks[i].address == p;
      assert more[i] == blocks[i];
    }
  }

  /** The block that a proper request gets. */
  function NewBlock(raw: nat, size: nat, alignment: nat): Block {
    Block(raw, TotalNeeded(size, alignment), AlignedAddress(raw, alignment), size)
  }

  lemma NewBlockPlaced(blocks: seq<Block>, raw: nat, size: nat, alignment: nat, k: nat)
    requires Proper(size, alignment, k) && Available(blocks, raw, TotalNeeded(size, alignment))
    ensures Placed(NewBlock(raw, size, alignment))
    ensures TotalNeeded(size, alignment) == size + alignment + HEADER
  {
    BlockLayout(raw, size, alignment, k);
    WrapSmall(size + alignment);
    WrapSmall(size + alignment + HEADER);
  }

  /** Counters after an allocation: apart from the blocks' room, nothing but sums. */
  lemma CountedAfter(s: Books, raw: nat, size: nat, alignment: nat)
    requires Counted(s) && AlignedAddress(raw, alignment) !in s.live
    requires Layout(s.blocks + [NewBlock(raw, size, alignment)])
    ensures var t := Allocated(s, raw, size, alignment);
            && Counted(t)
            && t.poolBytes == s.poolBytes + TotalNeeded(size, alignment)
            && t.allocatedBytes == s.allocatedBytes + size
            && t.usedBytes == s.usedBytes + size
            && t.allocations == s.allocations + 1
  {
    var b := NewBlock(raw, size, alignment);
    NoWrap(s.blocks + [b]);
    SumsGrow(s.blocks, b);
    InUseWith(s.live, b.address, Header(size, true));
    WrapSmall(s.poolBytes + b.total);
    WrapSmall(s.allocatedBytes + size);
    WrapSmall(s.usedBytes + size);
    WrapSmall(s.allocations + 1);
  }

  /** An allocation keeps the books, no counter wraps, and the address is one that is not in use. */
  lemma AllocateKeeps(s: Books, limit: nat, raw: nat, size: nat, alignment: nat, k: nat)
    requires Balanced(s, limit) && Proper(size, alignment, k)
    requires Available(s.blocks, raw, TotalNeeded(size, alignment))
    requires limit > 0 ==> Wrap(s.poolBytes + TotalNeeded(size, alignment)) <= limit
    ensures AlignedAddress(raw, alignment) !in s.live
    ensures var t := Allocated(s, raw, size, alignment);
            && Balanced(t, limit)
            && t.poolBytes == s.poolBytes + size + alignment + HEADER
            && t.allocatedBytes == s.allocatedBytes + size
            && t.usedBytes == s.usedBytes + size
            && t.allocations == s.allocations + 1
  {
    var b := NewBlock(raw, size, alignment);
    NewBlockPlaced(s.blocks, raw, size, alignment, k);
    LayoutGrows(s.blocks, b);
    if b.address in s.live {
      AddressLive(s.blocks, s.live, b.address);
    }
    CountedAfter(s, raw, size, alignment);
    LiveStill(s.blocks, s.live, b);
    ReturnedStill(s.blocks, s.live, s.freeList, b);
  }

  function Returning(s: Books, p: nat): Books
    requires p in s.live && HEADER <= p && s.live[p].size <= s.usedBytes
  {
    s.(live := s.live - {p}, freeList := [p - HEADER] + s.freeList,
       usedBytes := s.usedBytes - s.live[p].size, deallocations := s.deallocations + 1)
  }

  lemma ReturningCounted(s: Books, p: nat)
    requires Counted(s) && p in s.live && HEADER <= p
    ensures s.live[p].size <= s.usedBytes && Counted(Returning(s, p))
  {
    InUseWithout(s.live, p);
    OneLess(s.live, p);
  }

  lemma FreedFields(s: Books, p: nat)
    requires p in s.live && HEADER <= p < WORD && s.live[p].size <= s.usedBytes < WORD
    requires s.deallocations + 1 < WORD
    ensures Freed(s, p) == Returning(s, p)
  {
    WrapSmall(s.deallocations + 1);
  }

  lemma CountersAreWords(s: Books, p: nat)
    requires Layout(s.blocks) && Counted(s) && p in s.live
    ensures s.usedBytes < WORD && s.deallocations + 1 < WORD
  {
    NoWrap(s.blocks);
    OneLess(s.live, p);
  }

  lemma FreedIs(s: Books, p: nat)
    requires Layout(s.blocks) && LiveGiven(s.blocks, s.live) && Counted(s) && p in s.live
    ensures HEADER <= p && s.live[p].size <= s.usedBytes
    ensures Freed(s, p) == Returning(s, p) && Counted(Returning(s, p))
  {
    HeaderRoom(s.blocks, s.live, p);
    ReturningCounted(s, p);
    FreedFields(s, p) by {
      CountersAreWords(s, p);
    }
  }

  /** Freeing a live address keeps the books. */
  lemma FreeKeeps(s: Books, limit: nat, p: nat)
    requires Balanced(s, limit) && p in s.live
    ensures s.live[p].inUse && s.live[p].size <= s.usedBytes && HEADER <= p
    ensures var t := Freed(s, p);
            && Balanced(t, limit)
            && t.usedBytes == s.usedBytes - s.live[p].size && t.deallocations == s.deallocations + 1
  {
    FreedIs(s, p);
    ReturnedMore(s.blocks, s.live, s.freeList, p);
  }

  lemma HeaderRoom(blocks: seq<Block>, live: map<nat, Header>, p: nat)
    requires Layout(blocks) && LiveGiven(blocks, live) && p in live
    ensures HEADER <= p < WORD
  {
    var i :| 0 <= i < |blocks| && blocks[i].address == p && blocks[i].size == live[p].size;
    assert Placed(blocks[i]);
  }

  lemma OneLess(live: map<nat, Header>, p: nat)
    requires p in live
    ensures |live - {p}| == |live| - 1
  {
    assert (live - {p}).Keys == live.Keys - {p};
  }

  lemma ReturnedMore(blocks: seq<Block>, live: map<nat, Header>, freeList: seq<nat>, p: nat)
    requires Returned(blocks, live, freeList) && LiveGiven(blocks, live) && p in live && HEADER <= p
    ensures Returned(blocks, live - {p}, [p - HEADER] + freeList)
  {
    AddressLive(blocks, live, p);
  }

  /** Two live blocks, headers included, never overlap. */
  lemma LiveApart(s: Books, limit: nat, p: nat, q: nat)
    requires Balanced(s, limit) && p in s.live && q in s.live && p != q
    ensures HEADER <= p && HEADER <= q
    ensures p + s.live[p].size <= q - HEADER || q + s.live[q].size <= p - HEADER
  {
    var i :| 0 <= i < |s.blocks| && s.blocks[i].address == p && s.blocks[i].size == s.live[p].size;
    var j :| 0 <= j < |s.blocks| && s.blocks[j].address == q && s.blocks[j].size == s.live[q].size;
    PlacedApart(s.blocks, i, j);
  }

  lemma PlacedApart(blocks: seq<Block>, i: nat, j: nat)
    requires Layout(blocks) && i < |blocks| && j < |blocks| && i != j
    ensures var a, b := blocks[i], blocks[j];
            && HEADER <= a.address && HEADER <= b.address
            && (a.address + a.size <= b.address - HEADER || b.address + b.size <= a.address - HEADER)
  {
    assert Placed(blocks[i]) && Placed(blocks[j]);
    if i < j {
      assert Disjoint(blocks[i], blocks[j]);
    } else {
      assert Disjoint(blocks[j], blocks[i]);
    }
  }

  // ------------------------------------------------------------ whole runs

  /** `raw` is where `operator new` would put the block, or None when it throws. */
  datatype Op = Allocate(size: nat, alignment: nat, raw: Option<nat>) | Free(p: nat)

  predicate OverLimit(s: Books, limit: nat, size: nat, alignment: nat) {
    limit > 0 && Wrap(s.poolBytes + TotalNeeded(size, alignment)) > limit
  }

  /** What one call makes of the state, for any arguments. */
  function Apply(s: Books, limit: nat, op: Op): Books {
    match op
    case Allocate(size, alignment, raw) =>
      if size == 0 || OverLimit(s, limit, size, alignment) || raw.None? then s
      else Allocated(s, raw.value, size, alignment)
    case Free(p) =>
      if p in s.live then Freed(s, p) else s
  }

  ghost predicate PowerOfTwo(a: nat) {
    exists k :: 0 <= k < 64 && a == Pow2(k)
  }

  /** Allocations ask for a power of two and a size whose sum does not wrap; any pointer may be freed. */
  ghost predicate Meant(s: Books, op: Op) {
    op.Allocate? ==>
      && PowerOfTwo(op.alignment) && Fits(op.size, op.alignment)
      && (op.raw.Some? ==> Available(s.blocks, op.raw.value, TotalNeeded(op.size, op.alignment)))
  }

  lemma ApplyKeeps(s: Books, limit: nat, op: Op)
    requires Balanced(s, limit) && Meant(s, op)
    ensures Balanced(Apply(s, limit, op), limit)
  {
    match op
    case Allocate(size, alignment, raw) =>
      if size != 0 && !OverLimit(s, limit, size, alignment) && raw.Some? {
        var k :| 0 <= k < 64 && alignment == Pow2(k);
        AllocateKeeps(s, limit, raw.value, size, alignment, k);
      }
    case Free(p) =>
      if p in s.live {
        FreeKeeps(s, limit, p);
      }
  }

  function Opened(): Books { Books(map[], [], 0, 0, 0, 0, 0, []) }

  ghost predicate MeantRun(s: Books, limit: nat, ops: seq<Op>)
    decreases |ops|
  {
    ops == [] || (Meant(s, ops[0]) && MeantRun(Apply(s, limit, ops[0]), limit, ops[1..]))
  }

  function After(s: Books, limit: nat, ops: seq<Op>): Books
    decreases |ops|
  {
    if ops == [] then s else After(Apply(s, limit, ops[0]), limit, ops[1..])
  }

  lemma {:induction false} RunKeeps(s: Books, limit: nat, ops: seq<Op>)
    requires Balanced(s, limit) && MeantRun(s, limit, ops)
    ensures Balanced(After(s, limit, ops), limit)
    decreases |ops|
  {
    if ops != [] {
      ApplyKeeps(s, limit, ops[0]);
      RunKeeps(Apply(s, limit, ops[0]), limit, ops[1..]);
    }
  }

  /** Live blocks, headers included, do not overlap. */
  ghost predicate NoOverlap(live: map<nat, Header>) {
    forall p, q :: p in live && q in live && p != q ==>
      p + live[p].size <= q - HEADER || q + live[q].size <= p - HEADER
  }

  lemma BalancedApart(s: Books, limit: nat)
    requires Balanced(s, limit)
    ensures NoOverlap(s.live)
  {
    forall p, q | p in s.live && q in s.live && p != q
      ensures p + s.live[p].size <= q - HEADER || q + s.live[q].size <= p - HEADER
    {
      LiveApart(s, limit, p, q);
    }
  }

  /**
   After any run: used bytes are the sum of the live sizes, allocations less deallocations are the
   live entries, pool bytes stay within the limit, and live blocks do not overlap.
   */
  lemma Accounting(limit: nat, ops: seq<Op>)
    requires MeantRun(Opened(), limit, ops)
    ensures var t := After(Opened(), limit, ops);
            && t.usedBytes == InUse(t.live)
            && t.allocations - t.deallocations == |t.live|
            && (limit > 0 ==> t.poolBytes <= limit)
            && |t.live| + |t.freeList| == t.allocations
            && NoOverlap(t.live)
  {
    assert Balanced(Opened(), limit);
    RunKeeps(Opened(), limit, ops);
    BalancedApart(After(Opened(), limit, ops), limit);
  }

  // ------------------------------------------------------------ the pool object

  datatype Allocation = Null | BadAlloc | Address(p: nat)

  class Pool {
    const limit: nat
    var allocations: map<nat, Header>
    var freeList: seq<nat>
    var poolBytes: nat
    var allocatedBytes: nat
    var usedBytes: nat
    var allocationCount: nat
    var deallocationCount: nat
    ghost var blocks: seq<Block>

    ghost function State(): Books
      reads this
    {
      Books(allocations, freeList, poolBytes, allocatedBytes, usedBytes, allocationCount, deallocationCount, blocks)
    }

    ghost predicate Valid()
      reads this
    {
      Balanced(State(), limit)
    }

    constructor (limit: nat)
      ensures Valid() && State() == Opened() && this.limit == limit
    {
      this.limit := limit;
      allocations, freeList, blocks := map[], [], [];
      poolBytes, allocatedBytes, usedBytes, allocationCount, deallocationCount := 0, 0, 0, 0, 0;
    }

    method AllocateBytesAligned(size: nat, alignment: nat, raw: Option<nat>) returns (r: Allocation)
      requires Valid()
      requires raw.Some? ==> Available(blocks, raw.value, TotalNeeded(size, alignment))
      modifies this
      ensures State() == Apply(old(State()), limit, Allocate(size, alignment, raw))
      ensures r.Null? <==> size == 0 || OverLimit(old(State()), limit, size, alignment)
      ensures r.BadAlloc? <==> !r.Null? && raw.None?
      ensures r.Address? ==> r.p == AlignedAddress(raw.value, alignment)
      ensures r.Address? && PowerOfTwo(alignment) ==> alignment > 0 && r.p % alignment == 0
      ensures PowerOfTwo(alignment) && Fits(size, alignment) ==> Valid()
      ensures PowerOfTwo(alignment) && Fits(size, alignment) && r.Address? ==>
                && r.p !in old(allocations) && allocations == old(allocations)[r.p := Header(size, true)]
                && usedBytes == old(usedBytes) + size && allocatedBytes == old(allocatedBytes) + size
                && poolBytes == old(poolBytes) + size + alignment + 24
                && allocationCount == old(allocationCount) + 1
      ensures !r.Address? ==>
                && allocations == old(allocations) && usedBytes == old(usedBytes)
                && allocatedBytes == old(allocatedBytes) && poolBytes == old(poolBytes)
                && allocationCount == old(allocationCount)
      ensures freeList == old(freeList) && deallocationCount == old(deallocationCount)
      ensures old(poolBytes) + size + alignment + 24 < WORD ==>
                (r.Null? <==> size == 0 || (limit > 0 && old(poolBytes) + size + alignment + 24 > limit))
    {
      ghost var before := State();
      r := Obtain(size, alignment, raw);
      KeptIfMeant(before, limit, Allocate(size, alignment, raw));
      RefusedBySum(before, limit, size, alignment);
      if r.Address? {
        AlignedFor(raw.value, alignment);
        AllocatedFields(before, limit, raw.value, size, alignment);
      }
    }

    /** The tests and the update, for any arguments. */
    method Obtain(size: nat, alignment: nat, raw: Option<nat>) returns (r: Allocation)
      modifies this
      ensures State() == Apply(old(State()), limit, Allocate(size, alignment, raw))
      ensures r.Null? <==> size == 0 || OverLimit(old(State()), limit, size, alignment)
      ensures r.BadAlloc? <==> !r.Null? && raw.None?
      ensures r.Address? ==> r.p == AlignedAddress(raw.value, alignment)
    {
      if size == 0 { return Null; }
      var total := TotalNeeded(size, alignment);
      if Wrap(poolBytes + total) > limit && limit > 0 { return Null; }
      if raw.None? { return BadAlloc; }
      var p := Record(raw.value, size, alignment, total);
      r := Address(p);
    }

    /** Puts the header in front of the aligned address and enters the block. */
    method Record(raw: nat, size: nat, alignment: nat, total: nat) returns (aligned: nat)
      requires total == TotalNeeded(size, alignment)
      modifies this
      ensures aligned == AlignedAddress(raw, alignment)
      ensures State() == Allocated(old(State()), raw, size, alignment)
    {
      aligned := AlignedAddress(raw, alignment);
      allocations := allocations[aligned := Header(size, true)];
      poolBytes := Wrap(poolBytes + total);
      allocatedBytes := Wrap(allocatedBytes + size);
      usedBytes := Wrap(usedBytes + size);
      allocationCount := Wrap(allocationCount + 1);
      blocks := blocks + [NewBlock(raw, size, alignment)];
    }

    /**
     A live address comes off the books and its header goes to the front of the free list. Null and
     pointers of other owners are ignored; the header found is always one in use.
     */
    method DeallocateBytes(p: nat)
      requires Valid()
      modifies this
      ensures Valid() && State() == Apply(old(State()), limit, Free(p))
      ensures p in old(allocations) ==>
                && HEADER <= p && old(allocations[p].size) <= old(usedBytes)
                && allocations == old(allocations) - {p}
                && usedBytes == old(usedBytes) - old(allocations[p].size)
                && deallocationCount == old(deallocationCount) + 1
                && freeList == [p - HEADER] + old(freeList)
      ensures p !in old(allocations) ==>
                && allocations == old(allocations) && usedBytes == old(usedBytes)
                && deallocationCount == old(deallocationCount) && freeList == old(freeList)
      ensures poolBytes == old(poolBytes) && allocatedBytes == old(allocatedBytes)
      ensures allocationCount == old(allocationCount) && blocks == old(blocks)
    {
      NullNotLive(State(), limit);
      if p == 0 || p !in allocations { return; }
      FreeKeeps(State(), limit, p);
      FreedIs(State(), p);
      assert allocations[p].inUse;
      Return(p);
    }

    /** Takes the block off the books and puts its header on the free list. */
    method Return(p: nat)
      requires p in allocations
      modifies this
      ensures State() == Freed(old(State()), p)
    {
      usedBytes := Minus(usedBytes, allocations[p].size);
      deallocationCount := Wrap(deallocationCount + 1);
      freeList := [Minus(p, HEADER)] + freeList;
      allocations := allocations - {p};
    }
  }

  lemma KeptIfMeant(s: Books, limit: nat, op: Op)
    requires Balanced(s, limit) && op.Allocate?
    requires op.raw.Some? ==> Available(s.blocks, op.raw.value, TotalNeeded(op.size, op.alignment))
    ensures PowerOfTwo(op.alignment) && Fits(op.size, op.alignment) ==> Balanced(Apply(s, limit, op), limit)
  {
    if PowerOfTwo(op.alignment) && Fits(op.size, op.alignment) {
      ApplyKeeps(s, limit, op);
    }
  }

  lemma RefusedBySum(s: Books, limit: nat, size: nat, alignment: nat)
    ensures s.poolBytes + size + alignment + HEADER < WORD ==>
              (OverLimit(s, limit, size, alignment)
               <==> limit > 0 && s.poolBytes + size + alignment + HEADER > limit)
  {
    WrapSmall(size + alignment);
    WrapSmall(size + alignment + HEADER);
    WrapSmall(s.poolBytes + size + alignment + HEADER);
  }

  lemma AllocatedFields(s: Books, limit: nat, raw: nat, size: nat, alignment: nat)
    requires Balanced(s, limit) && size > 0 && !OverLimit(s, limit, size, alignment)
    requires Available(s.blocks, raw, TotalNeeded(size, alignment))
    ensures PowerOfTwo(alignment) && Fits(size, alignment) ==>
              && AlignedAddress(raw, alignment) !in s.live
              && var t := Allocated(s, raw, size, alignment);
                 && t.poolBytes == s.poolBytes + size + alignment + HEADER
                 && t.allocatedBytes == s.allocatedBytes + size
                 && t.usedBytes == s.usedBytes + size
                 && t.allocations == s.allocations + 1
  {
    if PowerOfTwo(alignment) && Fits(size, alignment) {
      var k :| 0 <= k < 64 && alignment == Pow2(k);
      AllocateKeeps(s, limit, raw, size, alignment, k);
    }
  }

  lemma AlignedFor(raw: nat, alignment: nat)
    ensures PowerOfTwo(alignment) ==> alignment > 0 && AlignedAddress(raw, alignment) % alignment == 0
  {
    if PowerOfTwo(alignment) {
      var k :| 0 <= k < 64 && alignment == Pow2(k);
      AlignedIs(raw, alignment, k);
    }
  }

  lemma NullNotLive(s: Books, limit: nat)
    requires Balanced(s, limit)
    ensures 0 !in s.live
  {
    if 0 in s.live {
      HeaderRoom(s.blocks, s.live, 0);
    }
  }

  // ------------------------------------------------------------ allocating and freeing

  lemma Undone(live: map<nat, Header>, p: nat, h: Header)
    requires p !in live
    ensures live[p := h] - {p} == live
  {}

  lemma AfterTwo(s: Books, limit: nat, a: Op, b: Op)
    ensures After(s, limit, [a, b]) == Apply(Apply(s, limit, a), limit, b)
  {
    var ops, last := [a, b], [b];
    assert ops[1..] == last && last[1..] == [];
    assert After(s, limit, ops) == After(Apply(s, limit, a), limit, last);
    assert After(Apply(s, limit, a), limit, last) == After(Apply(Apply(s, limit, a), limit, b), limit, []);
  }

  /** What freeing makes of any state whose books balance, field by field. */
  lemma FreedFrom(s: Books, limit: nat, p: nat)
    requires Balanced(s, limit) && p in s.live
    ensures HEADER <= p && s.live[p].size <= s.usedBytes
    ensures Apply(s, limit, Free(p)) == Returning(s, p)
  {
    FreedIs(s, p);
  }

  /** In any run, freeing a block right after its allocation leaves the live blocks and used bytes as they were. */
  lemma GivenBack(s: Books, limit: nat, raw: nat, size: nat, alignment: nat)
    requires Balanced(s, limit) && Meant(s, Allocate(size, alignment, Some(raw)))
    requires size > 0 && !OverLimit(s, limit, size, alignment)
    ensures var t := After(s, limit, [Allocate(size, alignment, Some(raw)), Free(AlignedAddress(raw, alignment))]);
            && t.live == s.live && t.usedBytes == s.usedBytes
            && t.allocations == s.allocations + 1 && t.deallocations == s.deallocations + 1
            && t.poolBytes == s.poolBytes + size + alignment + HEADER
            && |t.freeList| == |s.freeList| + 1
  {
    var p := AlignedAddress(raw, alignment);
    AfterTwo(s, limit, Allocate(size, alignment, Some(raw)), Free(p));
    AllocatedFields(s, limit, raw, size, alignment);
    ApplyKeeps(s, limit, Allocate(size, alignment, Some(raw)));
    FreedFrom(Allocated(s, raw, size, alignment), limit, p);
    Undone(s.live, p, Header(size, true));
  }

  /** On the object: the address an allocation returns is live, and freeing it gives back everything but the room. */
  method AllocateAndFree(pool: Pool, size: nat, alignment: nat, raw: Option<nat>) returns (r: Allocation)
    requires pool.Valid() && PowerOfTwo(alignment) && Fits(size, alignment)
    requires raw.Some? ==> Available(pool.blocks, raw.value, TotalNeeded(size, alignment))
    modifies pool
    ensures pool.Valid()
    ensures pool.allocations == old(pool.allocations) && pool.usedBytes == old(pool.usedBytes)
    ensures r.Address? ==>
              && pool.allocationCount == old(pool.allocationCount) + 1
              && pool.deallocationCount == old(pool.deallocationCount) + 1
              && pool.poolBytes == old(pool.poolBytes) + size + alignment + 24
              && r.p >= HEADER && pool.freeList == [r.p - HEADER] + old(pool.freeList)
  {
    ghost var live := pool.allocations;
    r := pool.AllocateBytesAligned(size, alignment, raw);
    if r.Address? {
      Undone(live, r.p, Header(size, true));
      pool.DeallocateBytes(r.p);
    }
  }

  /** Freeing twice is freeing once. */
  lemma FreedTwice(s: Books, limit: nat, p: nat)
    ensures Apply(Apply(s, limit, Free(p)), limit, Free(p)) == Apply(s, limit, Free(p))
  {}

  lemma {:induction false} TotalsAtLeast(blocks: seq<Block>)
    requires Layout(blocks)
    ensures Totals(blocks) >= 25 * |blocks|
  {
    if blocks != [] {
      assert Placed(blocks[|blocks| - 1]);
      TotalsAtLeast(blocks[..|blocks| - 1]);
    }
  }

  /**
   The free list is never drawn on and the room never given back: over its whole life a pool with a
   limit gives out no more blocks than fit below it at once, however many have been freed.
   */
  lemma LifetimeBound(limit: nat, ops: seq<Op>)
    requires MeantRun(Opened(), limit, ops) && limit > 0
    ensures 25 * After(Opened(), limit, ops).allocations <= limit
  {
    assert Balanced(Opened(), limit);
    RunKeeps(Opened(), limit, ops);
    TotalsAtLeast(After(Opened(), limit, ops).blocks);
  }

  /** A pool in which everything has been freed can still refuse. */
  lemma EmptyButFull()
    ensures exists limit, ops: seq<Op>, op: Op ::
              MeantRun(Opened(), limit, ops) && After(Opened(), limit, ops).live == map[] && limit > 0
              && op.Allocate? && op.size > 0 && Fits(op.size, op.alignment) && PowerOfTwo(op.alignment)
              && op.size + op.alignment + HEADER <= limit
              && OverLimit(After(Opened(), limit, ops), limit, op.size, op.alignment)
  {
    var raw := 1;
    var first := Allocate(1, 1, Some(raw));
    assert Pow2(0) == 1;
    assert PowerOfTwo(1);
    WrapSmall(2);
    WrapSmall(26);
    WrapSmall(52);
    assert Available([], raw, 26);
    assert Balanced(Opened(), 26);
    var ops := [first, Free(AlignedAddress(raw, 1))];
    GivenBack(Opened(), 26, raw, 1, 1);
    assert ops[1..] == [ops[1]] && ops[1..][1..] == [];
    assert Meant(Opened(), first);
    assert MeantRun(Opened(), 26, ops);
    assert OverLimit(After(Opened(), 26, ops), 26, 1, 1);
  }
}
