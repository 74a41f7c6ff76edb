/**
  The rules users of a pool rely on, for every pool that represents an allocator: what a release changes,
  what is turned down, and where the code keeps a rule only under a condition, which condition.
 */
module PoolRules {
  import opened Bits
  import opened Descriptor
  import opened PoolModel
  import opened Heap
  import opened PoolRefinement
  import opened PoolRuns
  import opened PoolRebuild
  import opened PoolAnswers

  /**
    A block that is put back is the one the next request for its bucket gets, and the stacks of free blocks
    are then as before. The 32 bit counters hide the stack when its size is a multiple of 2^32.
   */
  lemma PutThenGet(w: World, h: Heap, i: nat, req: size_t)
    requires Represents(w, h) && i < |h.blocks| && h.blocks[i].live && h.blocks[i].actual > 0
    requires Fit(h.cfg.sizes, req) == h.blocks[i].bucket
    ensures h.blocks[i].off < SIZE_T && h.blocks[i].bucket < |h.free|
    ensures var w1 := PutBlock(w, h.blocks[i].off).world;
      && Represents(w1, Push(h, i))
      && var o := GetBlock(w1, req);
      && (o.status == Success && o.value == h.blocks[i].off <==> ToU32(|h.free[h.blocks[i].bucket]| + 1) != 0)
      && (o.value == h.blocks[i].off ==>
            Represents(o.world, Get(Push(h, i), req).heap) && Get(Push(h, i), req).heap.free == h.free)
  {
    hide ReadBD; hide MemShows; hide BucketShown; hide PutBlock; hide GetBlock; hide FreeStacks; hide Chained;
    hide AlignUp; hide IsPow2;
    ReleaseRefinesHere(w, h, i);
    var h1, b := Push(h, i), h.blocks[i].bucket;
    var w1 := PutBlock(w, h.blocks[i].off).world;
    GetRefines(w1, h1, req);
    PopAfterPush(h, i, req);
    PushedEnd(h, i);
  }

  lemma PopAfterPush(h: Heap, i: nat, req: nat)
    requires i < |h.blocks| && h.blocks[i].bucket < |h.free|
    ensures var (h1, b) := (Push(h, i), h.blocks[i].bucket);
            h1.free[b] != [] && h1.free[b][0] == i && Pop(h1, b, req).free == h.free
  {
    var h1, b := Push(h, i), h.blocks[i].bucket;
    assert h1.free[b] == [i] + h.free[b];
    assert h1.free[b][1..] == h.free[b];
    assert h1.free[b := h.free[b]] == h.free;
  }

  lemma ReleaseRefinesHere(w: World, h: Heap, i: nat)
    requires Represents(w, h) && i < |h.blocks| && h.blocks[i].live && h.blocks[i].actual > 0
    ensures h.blocks[i].off < SIZE_T && h.blocks[i].bucket < |h.free| == |h.cfg.sizes|
    ensures var o := PutBlock(w, h.blocks[i].off);
            o.status == Success && o.value == h.blocks[i].actual && Represents(o.world, Push(h, i))
    ensures ValidHeap(Push(h, i))
  {
    ReleaseRefines(w, h, i);
  }

  lemma PushedEnd(h: Heap, i: nat)
    requires ValidHeap(h) && i < |h.blocks| && h.blocks[i].live
    ensures h.blocks[i].bucket < |h.free| && 0 < h.blocks[i].off < NextOff(Push(h, i))
  {
    hide AlignUp; hide LinkTo;
    PushValid(h, i);
    BlockWithin(h.cfg, h.blocks, i);
    NextOffAfter(Push(h, i));
  }

  /** In a pool too small for 2^32 blocks the counters hide nothing. */
  lemma SmallPool(h: Heap, b: nat)
    requires ValidHeap(h) && b < |h.free| && h.cfg.maxOffset < UINT32_T * DESC
    ensures |h.free[b]| < UINT32_T - 1 && (ToU32(|h.free[b]|) != 0 <==> h.free[b] != [])
  {
    hide FreeStacks; hide Chained; hide AlignUp; hide IsPow2;
    Accounting(h, b);
    BlocksInBound(h, b);
    BlockCount(h, |h.blocks|);
  }

  lemma BlocksInBound(h: Heap, b: nat)
    ensures |BlocksIn(h.blocks, b)| <= |h.blocks|
  {
    IndexCount(BlocksIn(h.blocks, b), |h.blocks|);
  }

  lemma {:induction false} IndexCount(s: set<nat>, n: nat)
    requires forall i :: i in s ==> i < n
    ensures |s| <= n
  {
    if n > 0 {
      IndexCount(s - {n - 1}, n - 1);
    } else {
      assert s == {};
    }
  }

  lemma {:induction false} BlockCount(h: Heap, k: nat)
    requires ValidHeap(h) && k <= |h.blocks|
    ensures k * (DESC + 1) <= EndAt(h.cfg, h.blocks, k)
  {
    hide AlignUp; hide FreeStacks; hide IsPow2;
    if k > 0 {
      BlockCount(h, k - 1);
      BlockAfter(h.cfg, h.blocks, k - 1);
    }
  }

  /** A block already released is turned down, and the attempt only counts as a validation error. */
  lemma DoublePut(w: World, h: Heap, i: nat)
    requires Represents(w, h) && i < |h.blocks| && h.blocks[i].live && h.blocks[i].actual > 0
    ensures h.blocks[i].off < SIZE_T
    ensures var w1 := PutBlock(w, h.blocks[i].off).world;
            PutBlock(w1, h.blocks[i].off)
            == Outcome(w1.(pool := w1.pool.(validationErrors := ToU32(w1.pool.validationErrors + 1))), BlockInvalid, 0)
  {
    hide ReadBD; hide MemShows; hide BucketShown; hide PutBlock; hide FreeStacks; hide Chained; hide AlignUp;
    hide IsPow2;
    ReleaseRefinesHere(w, h, i);
    PutComputes(PutBlock(w, h.blocks[i].off).world, Push(h, i), i);
  }

  /** A block just obtained can be put back exactly if it was requested with a nonzero size. */
  lemma PutAfterGet(w: World, h: Heap, req: size_t)
    requires Represents(w, h) && GetBlock(w, req).status == Success
    ensures var o := GetBlock(w, req); PutBlock(o.world, o.value).status == Success <==> req > 0
  {
    hide ReadBD; hide MemShows; hide BucketShown; hide PutBlock; hide GetBlock; hide FreeStacks; hide Chained;
    hide AlignUp; hide IsPow2;
    GetRefines(w, h, req);
    GotBlock(h, req);
    var h1, b := Get(h, req).heap, Fit(h.cfg.sizes, req);
    var i := if ToU32(|h.free[b]|) != 0 then h.free[b][0] else |h.blocks|;
    PutComputes(GetBlock(w, req).world, h1, i);
  }

  /** The block a successful request yields: in use, big enough, with the size asked for. */
  lemma GotBlock(h: Heap, req: nat)
    requires ValidHeap(h) && Get(h, req).status == Success
    ensures var (h1, b) := (Get(h, req).heap, Fit(h.cfg.sizes, req));
      && b < |h.free| == |h.cfg.sizes|
      && var i := if ToU32(|h.free[b]|) != 0 then h.free[b][0] else |h.blocks|;
      && i < |h1.blocks| && h1.blocks[i].live && h1.blocks[i].actual == req <= h.cfg.sizes[b]
      && h1.blocks[i].bucket == b && Get(h, req).value == h1.blocks[i].off
      && (i < |h.blocks| ==> !h.blocks[i].live)
  {
    hide Chained; hide AlignUp; hide IsPow2;
    var b := Fit(h.cfg.sizes, req);
    if ToU32(|h.free[b]|) != 0 { assert OnStack(h, b, 0); }
  }

  /** A request fails exactly if no bucket holds it, or its own bucket has nothing free and the tail no room. */
  lemma GetFails(w: World, h: Heap, req: size_t)
    requires Represents(w, h)
    ensures var (o, b) := (GetBlock(w, req), Fit(h.cfg.sizes, req));
      && |h.free| == |h.cfg.sizes|
      && (o.status == Success || o == Outcome(w, MemBlockSize, 0))
      && (o.status != Success <==>
            || (forall a :: 0 <= a < |h.cfg.sizes| ==> h.cfg.sizes[a] < req)
            || (ToU32(|h.free[b]|) == 0 && NextOff(h) + h.cfg.sizes[b] > h.cfg.maxOffset))
  {
    hide ReadBD; hide FreeStacks; hide Chained; hide AlignUp; hide IsPow2; hide Recycle; hide Create; hide MemShows;
    GetRefines(w, h, req);
    FitIsFirstFit(w, h, req);
    FreeStackCount(h);
    var b := Fit(h.cfg.sizes, req);
    if b < |h.cfg.sizes| && ToU32(|h.free[b]|) == 0 {
      RecycleRefuses(w, h, b, req);
      CreateRefines(w, h, b, req);
    }
  }

  /** The size of a block in use is the size it was requested with. */
  lemma SizeOfBlock(w: World, h: Heap, i: nat)
    requires Represents(w, h) && i < |h.blocks|
    ensures h.blocks[i].off < SIZE_T
    ensures var o := GetBlockSize(w, h.blocks[i].off);
      && o.world == w
      && if h.blocks[i].live && h.blocks[i].actual > 0 then o.status == Success && o.value == h.blocks[i].actual
         else o.status == BlockInvalid
  {
    hide ReadBD; hide UsedBucket; hide FreeStacks; hide Chained; hide AlignUp; hide IsPow2;
    UsedBucketOf(w, h, i);
    DescInside(w, h, i);
    assert BlockShown(w.mem, h, i);
  }

  /** The same blocks at the same places. */
  predicate SameBoundaries(h: Heap, h': Heap) {
    h'.cfg == h.cfg && |h'.blocks| == |h.blocks|
    && forall i :: 0 <= i < |h.blocks| ==> h'.blocks[i].off == h.blocks[i].off
  }

  /**
    The pool tells a block from other offsets by the bytes before it only. Releasing keeps the blocks of the
    pool exactly when what is released is a block or is turned down.
   */
  lemma PutKeepsBlocks(w: World, h: Heap, offset: size_t)
    requires Represents(w, h)
    ensures (exists h' :: Represents(PutBlock(w, offset).world, h') && SameBoundaries(h, h'))
            <==> IsBlock(h, offset)
                 || !(DESC <= offset < w.pool.tail && LooksUsed(w.pool, ReadBD(w.mem, offset - DESC)))
  {
    hide ReadBD; hide MemShows; hide BucketShown; hide FreeStacks; hide Chained; hide AlignUp; hide IsPow2;
    hide UsedBucket;
    var w' := PutBlock(w, offset).world;
    if !PutAccepted(w, offset) {
      TurnedDown(w, h, offset);
      assert SameBoundaries(h, h);
    } else if IsBlock(h, offset) {
      var i := BlockAt(h.blocks, offset);
      PutRefines(w, h, i);
      PutBoundaries(h, i);
      assert SameBoundaries(h, Put(h, i).heap);
    } else if h' :| Represents(w', h') && SameBoundaries(h, h') {
      ForeignTop(w, h, h', offset);
      assert false;
    }
  }

  lemma PutBoundaries(h: Heap, i: nat)
    requires ValidHeap(h) && i < |h.blocks|
    ensures SameBoundaries(h, Put(h, i).heap)
  {
    hide FreeStacks; hide Chained;
  }

  /** An accepted offset heads a stack of free blocks, so it would have to be a block. */
  lemma ForeignTop(w: World, h: Heap, h': Heap, offset: size_t)
    requires Represents(w, h) && PutAccepted(w, offset) && Represents(PutBlock(w, offset).world, h')
    requires SameBoundaries(h, h')
    ensures IsBlock(h, offset)
  {
    hide ReadBD; hide FreeStacks; hide Chained; hide AlignUp; hide IsPow2; hide MemShows; hide UsedBucket;
    hide BlocksIn;
    assert |w.pool.buckets| <= MAX_BUCKETS;
    UsedBucketMeans(w, offset);
    var b := UsedBucket(w, offset).value;
    var p' := PutBlock(w, offset).world.pool;
    assert p'.buckets[b].firstOffset == offset;
    assert BucketShown(p'.buckets[b], h', b);
    StackTop(h', b);
  }

  lemma StackTop(h: Heap, b: nat)
    requires ValidHeap(h) && b < |h.free| && LinkTo(h, b, 0) != 0
    ensures exists i :: 0 <= i < |h.blocks| && h.blocks[i].off == LinkTo(h, b, 0)
  {
    hide Chained; hide ValidConfig;
    assert OnStack(h, b, 0);
    assert h.blocks[h.free[b][0]].off == LinkTo(h, b, 0);
  }

  /** Such offsets exist: user data can read like the descriptor of a block in use. */
  lemma DataLikeDescriptor(w: World, h: Heap, i: nat, size: size_t)
    requires Represents(w, h) && i < |h.blocks| && h.blocks[i].bucket < |h.cfg.sizes|
    requires DESC < h.cfg.sizes[h.blocks[i].bucket] && 0 < size <= h.cfg.sizes[0]
    ensures var at := h.blocks[i].off;
            var data := Encode(BD(CHECK_PATTERN, MEMORY_ALLOCATED + |h.cfg.sizes|, 0, size, 0));
      && InsideBlock(h, i, at, |data|)
      && at + DESC < SIZE_T
      && var w1 := w.(mem := Splice(w.mem, at, data));
      && Represents(w1, h) && PutAccepted(w1, at + DESC) && !IsBlock(h, at + DESC)
  {
    hide ReadBD; hide Encode; hide FreeStacks; hide Chained; hide AlignUp; hide IsPow2; hide Splice; hide MemShows;
    var at, bd := h.blocks[i].off, BD(CHECK_PATTERN, MEMORY_ALLOCATED + |h.cfg.sizes|, 0, size, 0);
    DescInside(w, h, i);
    BlockWithin(h.cfg, h.blocks, i);
    WriteKeeps(w, h, i, at, Encode(bd));
    var w1 := w.(mem := Splice(w.mem, at, Encode(bd)));
    MemSize(w, h);
    ReadBack(w.mem, at, bd);
    assert BucketShown(w1.pool.buckets[0], h, 0);
    assert Carries(w1.pool, bd, MEMORY_ALLOCATED, |h.cfg.sizes|);
    if IsBlock(h, at + DESC) {
      var j := BlockAt(h.blocks, at + DESC);
      BlockWithin(h.cfg, h.blocks, j);
      LayoutSafety(h, i, j);
      assert false;
    }
  }

  lemma MemSize(w: World, h: Heap)
    requires Represents(w, h)
    ensures h.cfg.maxOffset <= |w.mem|
  {}

  /**
    Exactly when carving hands out a block that does not fit where it belongs: when its end, taken modulo the
    range of size_t, comes to lie within the pool after all. Nothing is asked of the sizes, the tail or memory.
   */
  lemma CarvesOutside(w: World, id: uint16, req: size_t)
    requires |w.pool.buckets| <= MAX_BUCKETS && 1 <= id <= |w.pool.buckets| && IsPow2(w.pool.alignMask + 1)
    ensures var (p, end) := (w.pool, Place(w.pool) + w.pool.buckets[|w.pool.buckets| - id].blockSize);
      && (Create(w, id, req).status == Success <==> end % SIZE_T <= p.maxOffset)
      && (Create(w, id, req).status == Success && end > p.maxOffset <==> EndWraps(p, id))
  {
    hide ReadBD; hide WriteBD; hide AndNot; hide IsPow2; hide Place; hide NextBlock; hide ToU16; hide ToU32;
    BucketIndexRange(w.pool, id);
    NextBlockWraps(w.pool);
    ModSum(Place(w.pool), w.pool.buckets[|w.pool.buckets| - id].blockSize);
  }

  /** The same from the offset the code computes, when that much fits a word. */
  lemma CarvesOutsideWord(w: World, id: uint16, req: size_t)
    requires |w.pool.buckets| <= MAX_BUCKETS && 1 <= id <= |w.pool.buckets| && IsPow2(w.pool.alignMask + 1)
    requires w.pool.tail + DESC + w.pool.alignMask < SIZE_T
    ensures var (p, end) := (w.pool, NextBlock(w.pool) + w.pool.buckets[|w.pool.buckets| - id].blockSize);
      Create(w, id, req).status == Success && end > p.maxOffset <==> SIZE_T <= end <= SIZE_T + p.maxOffset
  {
    hide ReadBD; hide WriteBD; hide AndNot; hide IsPow2; hide Create;
    CarvesOutside(w, id, req);
    NextBlockBounds(w.pool);
  }

  /** A pool of 100 bytes with one bucket of 2^64 - 24 bytes. */
  predicate Oversize(w: World) {
    var p := w.pool;
    && p.maxOffset == 100 && p.alignMask == 0 && p.tail == 0 && |p.buckets| == 1
    && p.buckets[0].blockSize == SIZE_T - DESC
  }

  /** A round of the rebuild scan moves the tail to the end of the block it found exactly if that is a word. */
  lemma ScanRoundEnds(w: World)
    requires IsPow2(w.pool.alignMask + 1) && ScanTail(w).FoundBlock?
    ensures var (s, end) := (ScanTail(w), Place(w.pool) + w.pool.buckets[ScanTail(w).bucket].blockSize);
      && Adopt(w, s).pool.tail == end % SIZE_T
      && (Adopt(w, s).pool.tail == end <==> end < SIZE_T)
  {
    hide ReadBD; hide WriteBD; hide AndNot; hide IsPow2; hide Place; hide NextBlock; hide BucketIndex; hide ScanTail;
    hide ToU16; hide ToU32;
    var s := ScanTail(w);
    NextBlockWraps(w.pool);
    ModSum(Place(w.pool), w.pool.buckets[s.bucket].blockSize);
  }

  /** The pool after a number of rounds of the scan; a round that finds nothing ends it. */
  function Rounds(w: World, n: nat): World {
    if n == 0 then w else
    var r := Rounds(w, n - 1);
    if ScanTail(r).FoundBlock? then Adopt(r, ScanTail(r)) else r
  }

  /** Where the tail comes back to where it was, a round finds what the round before it found. */
  lemma OversizeScanStays(w: World)
    requires Oversize(w) && ScanTail(w).FoundBlock?
    ensures var r := Adopt(w, ScanTail(w)); Oversize(r) && ScanTail(r) == ScanTail(w)
  {
    hide WriteBD; hide ReadBD; hide ScanTail; hide AndNot;
    AndNotZero(DESC);
    var s := ScanTail(w);
    assert NextBlock(w.pool) == DESC && s.bucket == 0;
    var bd := ReadBD(w.mem, 0).(nextOffset := w.pool.buckets[0].firstOffset);
    if DESC <= |w.mem| { ReadBack(w.mem, 0, bd); } else { NoRoom(w.mem, 0, bd); }
    ScanAnswers(w, 0, s.free);
    ScanAnswers(Adopt(w, s), 0, s.free);
  }

  lemma NoRoom(mem: seq<byte>, at: nat, bd: BD)
    requires |mem| < at + DESC
    ensures WriteBD(mem, at, bd) == mem
  {}

  lemma {:induction false} OversizeRounds(w: World, n: nat)
    requires Oversize(w)
    ensures Oversize(Rounds(w, n)) && ScanTail(Rounds(w, n)) == ScanTail(w)
  {
    hide Oversize; hide ScanTail; hide Adopt;
    if n > 0 {
      OversizeRounds(w, n - 1);
      if ScanTail(w).FoundBlock? { OversizeScanStays(Rounds(w, n - 1)); }
    }
  }

  /** The scan of such a pool ends exactly if its first round finds nothing. */
  lemma OversizeScanEnds(w: World)
    requires Oversize(w)
    ensures (exists n: nat :: ScanTail(Rounds(w, n)).NoBlock?) <==> ScanTail(w).NoBlock?
  {
    assert Rounds(w, 0) == w;
    hide ScanTail; hide Rounds; hide Oversize;
    forall n: nat ensures ScanTail(Rounds(w, n)) == ScanTail(w) { OversizeRounds(w, n); }
    assert ScanTail(Rounds(w, 0)) == ScanTail(w);
  }

  /** So it does not end after one request, when the record is set up again: every round finds the same block. */
  lemma OversizeScanForever(mem: seq<byte>, n: nat)
    requires |mem| >= DESC
    ensures var (p, status) := Initialize(ZERO_POOL, 0, 100, 0, [SIZE_T - DESC]);
      && status == Success && |p.buckets| == 1
      && var used := GetBlock(World(p, mem), 1);
      && used.status == Success
      && ScanTail(Rounds(World(p, used.world.mem), n)) == FoundBlock(DESC, 0, false)
  {
    var sizes: seq<size_t> := [SIZE_T - DESC];
    assert SortSizes(sizes) == sizes by { assert sizes[1..] == []; }
    var p := Initialize(ZERO_POOL, 0, 100, 0, sizes).0;
    OversizeStep(World(p, mem));
    OversizeUsed(World(p, mem));
    OversizeRounds(World(p, GetBlock(World(p, mem), 1).world.mem), n);
  }

  lemma OversizeUsed(w: World)
    requires Oversize(w) && w.pool.buckets[0].firstOffset == 0 && |w.mem| >= DESC
    ensures ScanTail(World(w.pool, GetBlock(w, 1).world.mem)) == FoundBlock(DESC, 0, false)
  {
    hide ReadBD; hide WriteBD; hide BucketIndex; hide IsPow2;
    assert FirstFit(w.pool.buckets, 1) == 0;
    BucketIndexRange(w.pool, 1);
    AndNotZero(DESC);
    var bd := ReadBD(w.mem, 0).(checkBits := CHECK_PATTERN, mark := ToU16(MEMORY_ALLOCATED + 1), actualSize := 1,
                                nextOffset := 0);
    assert GetBlock(w, 1).world.mem == WriteBD(w.mem, 0, bd);
    ReadBack(w.mem, 0, bd);
    BucketIndexRange(w.pool, ToU16(bd.mark - MEMORY_DEALLOCATED));
  }

  lemma OversizeStep(w: World)
    requires Oversize(w) && w.pool.buckets[0].firstOffset == 0
    ensures var o := GetBlock(w, 1);
            && o.status == Success && o.value == DESC
            && Oversize(o.world) && o.world.pool.buckets[0].firstOffset == 0
  {
    hide ReadBD; hide WriteBD; hide IsPow2; hide BucketIndex; hide ToU16; hide ToU32; hide Represents;
    assert FirstFit(w.pool.buckets, 1) == 0;
    BucketIndexRange(w.pool, 1);
    AndNotZero(DESC);
  }

  /**
    Without room for its largest block above the pool, the offset arithmetic wraps and the same block is
    handed out twice.
   */
  lemma OversizeBucketWraps(mem: seq<byte>)
    ensures var (p, status) := Initialize(ZERO_POOL, 0, 100, 0, [SIZE_T - DESC]);
      && status == Success && |p.buckets| == 1
      && var first := GetBlock(World(p, mem), 1);
      && |first.world.pool.buckets| == 1
      && var second := GetBlock(first.world, 1);
      first.status == Success && second.status == Success && first.value == second.value
  {
    var sizes: seq<size_t> := [SIZE_T - DESC];
    assert SortSizes(sizes) == sizes by { assert sizes[1..] == []; }
    var p := Initialize(ZERO_POOL, 0, 100, 0, sizes).0;
    OversizeStep(World(p, mem));
    OversizeStep(GetBlock(World(p, mem), 1).world);
  }

  /**
    Two requests, the record set up again over the same bytes, one request, and the record lost: the rebuild
    does not give the tail back. So it is in every pool with room for two blocks of the size.
   */
  lemma RebuildMisled(w: World, c: Config, req: size_t)
    requires Represents(w, Fresh(c)) && NoneRecycled(w.pool) && Fit(c.sizes, req) < |c.sizes|
    requires TwoFit(c, Fit(c.sizes, req), req)
    ensures var used := GetBlock(GetBlock(w, req).world, req).world;
            var again := GetBlock(World(w.pool, used.mem), req);
            && again.status == Success && Roomy(w.pool)
            && Rebuild(World(w.pool, again.world.mem)).pool.tail != again.world.pool.tail
  {
    var h := TwoBlocks(w, c, req);
    hide OldPool; hide Roomy; hide Represents; hide GetBlock; hide TwoFit;
    OldBlockFollows(GetBlock(GetBlock(w, req).world, req).world, h, w.pool, req);
  }

  /** Two blocks of a bucket fit the empty pool. */
  predicate TwoFit(c: Config, b: nat, req: nat)
    requires b < |c.sizes|
  {
    NextOff(Append(Fresh(c), b, true, req, 0)) + c.sizes[b] <= c.maxOffset
  }

  lemma TwoBlocks(w: World, c: Config, req: size_t) returns (h: Heap)
    requires Represents(w, Fresh(c)) && NoneRecycled(w.pool) && Fit(c.sizes, req) < |c.sizes|
    requires TwoFit(c, Fit(c.sizes, req), req)
    ensures OldPool(GetBlock(GetBlock(w, req).world, req).world, h, w.pool, req)
  {
    hide ReadBD; hide GetBlock; hide FreeStacks; hide Chained; hide AlignUp; hide BlockShown; hide BucketShown;
    hide IsPow2;
    var b := Fit(c.sizes, req);
    var h1 := Append(Fresh(c), b, true, req, 0);
    AlignUpBounds(End(h1) + DESC, c.mask);
    GetRefines(w, Fresh(c), req);
    assert Get(Fresh(c), req).heap == h1;
    var w1 := GetBlock(w, req).world;
    GetRefines(w1, h1, req);
    h := Get(h1, req).heap;
    assert h == Append(h1, b, true, req, 0);
    var used := GetBlock(w1, req).world;
    FreshAnywhere(w, c, used.mem);
  }

  /** For one: a pool of 100 bytes, whatever they held, with blocks of 8 bytes. */
  lemma RebuildMisledOnce(mem: seq<byte>)
    requires |mem| == 100
    ensures var (p, status) := Initialize(ZERO_POOL, 0, 100, 0, [8]);
      && status == Success && |p.buckets| == 1
      && var first := GetBlock(World(p, mem), 8).world;
      && |first.pool.buckets| == 1
      && var used := GetBlock(first, 8).world;
      && var again := GetBlock(World(p, used.mem), 8);
      again.status == Success && Roomy(p) && Rebuild(World(p, again.world.mem)).pool.tail != again.world.pool.tail
  {
    var sizes: seq<size_t> := [8];
    assert SortSizes(sizes) == sizes by { assert sizes[1..] == []; }
    var (p, status) := Initialize(ZERO_POOL, 0, 100, 0, sizes);
    assert status == Success && p.alignMask == 0 && |p.buckets| == 1;
    var c := Config(0, 100, 0, sizes);
    InitializeRefines(ZERO_POOL, mem, 0, 100, 0, sizes);
    InitializeCounters(ZERO_POOL, 0, 100, 0, sizes);
    assert Fit(c.sizes, 8) == 0 && TwoFit(c, 0, 8) by { SmallTwoFit(c); }
    hide Initialize; hide TwoFit; hide Represents; hide Roomy; hide GetBlock; hide ReadBD; hide SortSizes;
    RebuildMisled(World(p, mem), c, 8);
    GetRefines(World(p, mem), Fresh(c), 8);
  }

  lemma SmallTwoFit(c: Config)
    requires c == Config(0, 100, 0, [8])
    ensures Fit(c.sizes, 8) == 0 && TwoFit(c, 0, 8)
  {
    AndNotZero(24);
    AndNotZero(56);
  }
}
