/**
  The byte-level pool implements the allocator of module Heap: what it means for a pool record and its
  bytes to represent an allocator, and that getting and putting blocks keeps them in step.
 */
module PoolRefinement {
  import opened Bits
  import opened Descriptor
  import opened Options
  import opened PoolModel
  import opened Heap

  function DescAt(off: nat): nat { if off >= DESC then off - DESC else 0 }

  predicate Shows(bd: BD, block: Block, buckets: nat) {
    && bd.checkBits == CHECK_PATTERN
    && bd.mark == (if block.live then MEMORY_ALLOCATED else MEMORY_DEALLOCATED) + buckets - block.bucket
    && bd.actualSize == block.actual
    && bd.nextOffset == block.next
  }

  /** Block i's descriptor in memory says what the allocator knows of the block. */
  predicate BlockShown(mem: seq<byte>, h: Heap, i: nat)
    requires i < |h.blocks|
  {
    Shows(ReadBD(mem, DescAt(h.blocks[i].off)), h.blocks[i], |h.cfg.sizes|)
  }

  predicate MemShows(mem: seq<byte>, h: Heap) {
    && h.cfg.maxOffset <= |mem|
    && forall i {:trigger BlockShown(mem, h, i)} :: 0 <= i < |h.blocks| ==> BlockShown(mem, h, i)
  }

  predicate BucketShown(bucket: Bucket, h: Heap, b: nat)
    requires b < |h.free| && b < |h.cfg.sizes|
  {
    && bucket.blockSize == h.cfg.sizes[b]
    && bucket.firstOffset == LinkTo(h, b, 0)
    && bucket.allocationCount == ToU32(|BlocksIn(h.blocks, b)|)
    && ToU32(bucket.releaseCount - bucket.recycleCount) == ToU32(|h.free[b]|)
  }

  predicate RecordShows(p: Pool, h: Heap) {
    && p.maxOffset == h.cfg.maxOffset
    && p.alignMask == h.cfg.mask
    && p.tail == End(h)
    && p.allocationCount == ToU32(|h.blocks|)
    && |p.buckets| == |h.cfg.sizes| == |h.free|
    && forall b {:trigger BucketShown(p.buckets[b], h, b)} :: 0 <= b < |h.free| ==> BucketShown(p.buckets[b], h, b)
  }

  /** The pool record and its bytes represent the allocator. */
  predicate Represents(w: World, h: Heap) {
    ValidHeap(h) && MemShows(w.mem, h) && RecordShows(w.pool, h)
  }

  // What the pool operations mean for the allocator

  /** The smallest bucket that holds the request, by its index; their number if none does. */
  function Fit(sizes: seq<nat>, req: nat): (b: nat)
    ensures b <= |sizes|
    ensures forall a :: 0 <= a < b ==> sizes[a] < req
    ensures b < |sizes| ==> req <= sizes[b]
  {
    if sizes == [] || req <= sizes[0] then 0 else 1 + Fit(sizes[1..], req)
  }

  datatype HeapOutcome = HeapOutcome(heap: Heap, status: Status, value: nat)

  /** A free block of the right bucket is reused; otherwise one is laid out, if there is room. */
  function Get(h: Heap, req: nat): HeapOutcome
    requires ValidHeap(h)
  {
    var b := Fit(h.cfg.sizes, req);
    if b == |h.cfg.sizes| then HeapOutcome(h, MemBlockSize, 0)
    else if ToU32(|h.free[b]|) != 0 then
      PopValid(h, b, req);
      HeapOutcome(Pop(h, b, req), Success, h.blocks[h.free[b][0]].off)
    else if NextOff(h) + h.cfg.sizes[b] > h.cfg.maxOffset then HeapOutcome(h, MemBlockSize, 0)
    else HeapOutcome(Append(h, b, true, req, 0), Success, NextOff(h))
  }

  /** Only a block in use that was obtained with a nonzero size can be put back. */
  function Put(h: Heap, i: nat): HeapOutcome
    requires ValidHeap(h) && i < |h.blocks|
  {
    if h.blocks[i].live && h.blocks[i].actual > 0 then
      PushValid(h, i);
      HeapOutcome(Push(h, i), Success, h.blocks[i].actual)
    else HeapOutcome(h, BlockInvalid, 0)
  }

  lemma GetValid(h: Heap, req: nat)
    requires ValidHeap(h)
    ensures ValidHeap(Get(h, req).heap) && Get(h, req).heap.cfg == h.cfg
  {
    var b := Fit(h.cfg.sizes, req);
    if b < |h.cfg.sizes| {
      if ToU32(|h.free[b]|) != 0 {
        PopValid(h, b, req);
      } else if NextOff(h) + h.cfg.sizes[b] <= h.cfg.maxOffset {
        AppendValid(h, b, true, req, 0);
      }
    }
  }

  // Memory

  /** A block's descriptor lies in memory, and its offset does not wrap. */
  lemma DescInside(w: World, h: Heap, i: nat)
    requires Represents(w, h) && i < |h.blocks|
    ensures DESC <= h.blocks[i].off < SIZE_T && h.blocks[i].off <= |w.mem|
    ensures h.blocks[i].off < End(h) && h.blocks[i].bucket < |h.cfg.sizes|
    ensures h.blocks[i].actual <= h.cfg.sizes[h.blocks[i].bucket]
    ensures DescOf(h.blocks[i].off) == DescAt(h.blocks[i].off)
  {
    BlockWithin(h.cfg, h.blocks, i);
  }

  /** Rewriting block i's descriptor leaves the other descriptors as they were. */
  lemma RewriteShows(w: World, h: Heap, h': Heap, i: nat, bd: BD)
    requires Represents(w, h) && i < |h.blocks|
    requires h'.cfg == h.cfg && |h'.blocks| == |h.blocks|
    requires h'.blocks == h.blocks[i := h'.blocks[i]] && h'.blocks[i].off == h.blocks[i].off
    requires Shows(bd, h'.blocks[i], |h.cfg.sizes|)
    ensures MemShows(WriteBD(w.mem, DescAt(h.blocks[i].off), bd), h')
  {
    var at := DescAt(h.blocks[i].off);
    DescInside(w, h, i);
    ReadBack(w.mem, at, bd);
    forall j | 0 <= j < |h'.blocks| ensures BlockShown(WriteBD(w.mem, at, bd), h', j) {
      if j != i {
        assert BlockShown(w.mem, h, j);
        DescInside(w, h, j);
        LayoutSafety(h, i, j);
        ReadElsewhere(w.mem, at, Encode(bd), DescAt(h.blocks[j].off));
      }
    }
  }

  /** Bytes outside every descriptor do not matter. */
  lemma MemFrame(mem: seq<byte>, mem': seq<byte>, h: Heap)
    requires MemShows(mem, h) && |mem'| == |mem|
    requires forall j :: 0 <= j < |h.blocks| ==>
      ReadBD(mem', DescAt(h.blocks[j].off)) == ReadBD(mem, DescAt(h.blocks[j].off))
    ensures MemShows(mem', h)
  {
    forall j | 0 <= j < |h.blocks| ensures BlockShown(mem', h, j) {
      assert BlockShown(mem, h, j);
    }
  }

  lemma BlocksInSame(blocks: seq<Block>, blocks': seq<Block>, b: nat)
    requires |blocks'| == |blocks|
    requires forall i :: 0 <= i < |blocks| ==> blocks'[i].bucket == blocks[i].bucket
    ensures BlocksIn(blocks', b) == BlocksIn(blocks, b)
  {}

  lemma BlocksInAppend(blocks: seq<Block>, block: Block, b: nat)
    ensures |BlocksIn(blocks + [block], b)| == |BlocksIn(blocks, b)| + if block.bucket == b then 1 else 0
  {
    var was, now := BlocksIn(blocks, b), BlocksIn(blocks + [block], b);
    if block.bucket == b {
      assert now == was + {|blocks|};
    } else {
      assert now == was;
    }
  }

  /** The record of one bucket follows the creation, release and reuse of its blocks. */
  lemma BucketStep(bucket: Bucket, bucket': Bucket, h: Heap, h': Heap, a: nat, made: nat, put: nat, taken: nat)
    requires a < |h.free| && a < |h'.free| && a < |h.cfg.sizes| && h'.cfg == h.cfg
    requires BucketShown(bucket, h, a) && LinkTo(h', a, 0) < SIZE_T
    requires |BlocksIn(h'.blocks, a)| == |BlocksIn(h.blocks, a)| + made
    requires |h'.free[a]| == |h.free[a]| + put - taken
    requires bucket' == Bucket(bucket.blockSize, LinkTo(h', a, 0), ToU32(bucket.allocationCount + made),
                               ToU32(bucket.releaseCount + put), ToU32(bucket.recycleCount + taken))
    ensures BucketShown(bucket', h', a)
  {
    hide BlocksIn; hide LinkTo;
  }

  // Getting a block

  /** What reusing the top of a stack changes for the record of bucket a. */
  lemma PopBucket(h: Heap, b: nat, req: nat, a: nat)
    requires ValidHeap(h) && a < |h.free| && b < |h.free| && h.free[b] != [] && h.free[b][0] < |h.blocks|
    ensures var h' := Pop(h, b, req);
      && |BlocksIn(h'.blocks, a)| == |BlocksIn(h.blocks, a)|
      && LinkTo(h', a, 0) == LinkTo(h, a, if a == b then 1 else 0)
      && |h'.free[a]| == |h.free[a]| - (if a == b then 1 else 0)
  {
    BlocksInSame(h.blocks, Pop(h, b, req).blocks, a);
  }

  /** The descriptor and the bucket record after recycling. */
  function Reused(bd: BD, id: uint16, req: size_t): BD {
    bd.(mark := ToU16(MEMORY_ALLOCATED + id), actualSize := req, nextOffset := 0)
  }

  lemma RecycleComputes(w: World, h: Heap, b: nat, req: size_t)
    requires Represents(w, h) && b < |h.free| && ToU32(|h.free[b]|) != 0
    ensures h.free[b][0] < |h.blocks|
    ensures |w.pool.buckets| == |h.free| && LinkTo(h, b, 1) < SIZE_T && h.blocks[h.free[b][0]].off < SIZE_T
    ensures var at, bucket := DescAt(h.blocks[h.free[b][0]].off), w.pool.buckets[b];
            var bucket' := bucket.(firstOffset := LinkTo(h, b, 1), recycleCount := ToU32(bucket.recycleCount + 1));
            Recycle(w, |h.free| - b, req)
            == Outcome(World(SetBucket(w.pool, b, bucket'),
                             WriteBD(w.mem, at, Reused(ReadBD(w.mem, at), |h.free| - b, req))),
                       Success, h.blocks[h.free[b][0]].off)
  {
    hide ReadBD; hide WriteBD;
    assert OnStack(h, b, 0);
    var i, id := h.free[b][0], |h.free| - b;
    assert BucketShown(w.pool.buckets[b], h, b) && BlockShown(w.mem, h, i);
    DescInside(w, h, i);
    LinkInside(w, h, b);
    BucketIndexRange(w.pool, id);
  }

  /** The record after the top of bucket b's stack has been reused. */
  lemma PopRecord(w: World, h: Heap, b: nat, req: size_t)
    requires Represents(w, h) && b < |h.free| && req <= h.cfg.sizes[b] && ToU32(|h.free[b]|) != 0
    ensures h.free[b][0] < |h.blocks| && LinkTo(h, b, 1) < SIZE_T
    ensures var bucket := w.pool.buckets[b];
            RecordShows(SetBucket(w.pool, b, bucket.(firstOffset := LinkTo(h, b, 1),
                                                     recycleCount := ToU32(bucket.recycleCount + 1))),
                        Pop(h, b, req))
  {
    hide MemShows; hide LinkTo; hide BlocksIn; hide FreeStacks; hide Chained;
    PopValid(h, b, req);
    LinkInside(w, h, b);
    var h', bucket := Pop(h, b, req), w.pool.buckets[b];
    var p' := SetBucket(w.pool, b, bucket.(firstOffset := LinkTo(h, b, 1),
                                           recycleCount := ToU32(bucket.recycleCount + 1)));
    forall a | 0 <= a < |h'.free| ensures BucketShown(p'.buckets[a], h', a) {
      assert BucketShown(w.pool.buckets[a], h, a);
      PopOneBucket(w.pool.buckets[a], p'.buckets[a], h, b, req, a);
    }
  }

  lemma PopOneBucket(bucket: Bucket, bucket': Bucket, h: Heap, b: nat, req: nat, a: nat)
    requires ValidHeap(h) && a < |h.free| == |h.cfg.sizes| && b < |h.free|
    requires h.free[b] != [] && h.free[b][0] < |h.blocks| && LinkTo(h, b, 1) < SIZE_T
    requires BucketShown(bucket, h, a)
    requires bucket' == if a != b then bucket
                        else bucket.(firstOffset := LinkTo(h, b, 1), recycleCount := ToU32(bucket.recycleCount + 1))
    ensures BucketShown(bucket', Pop(h, b, req), a)
  {
    hide BlocksIn; hide LinkTo; hide FreeStacks; hide Chained; hide ValidConfig;
    PopBucket(h, b, req, a);
    BucketStep(bucket, bucket', h, Pop(h, b, req), a, 0, 0, if a == b then 1 else 0);
  }

  lemma LinkInside(w: World, h: Heap, b: nat)
    requires Represents(w, h) && b < |h.free|
    ensures LinkTo(h, b, 1) < SIZE_T
  {
    if |h.free[b]| > 1 {
      assert OnStack(h, b, 1);
      DescInside(w, h, h.free[b][1]);
    }
  }

  lemma RecycleRefines(w: World, h: Heap, b: nat, req: size_t)
    requires Represents(w, h) && b < |h.free| && req <= h.cfg.sizes[b] && ToU32(|h.free[b]|) != 0
    ensures h.free[b][0] < |h.blocks|
    ensures var o := Recycle(w, |h.free| - b, req);
            && o.status == Success && o.value == h.blocks[h.free[b][0]].off
            && Represents(o.world, Pop(h, b, req))
  {
    hide ReadBD; hide WriteBD; hide Recycle; hide RecordShows; hide Chained;
    PopValid(h, b, req);
    RecycleComputes(w, h, b, req);
    PopRecord(w, h, b, req);
    var i, id := h.free[b][0], |h.free| - b;
    var bd := ReadBD(w.mem, DescAt(h.blocks[i].off));
    assert BlockShown(w.mem, h, i) && OnStack(h, b, 0);
    RewriteShows(w, h, Pop(h, b, req), i, Reused(bd, id, req));
  }

  /** With an empty stack there is nothing to recycle. */
  lemma RecycleRefuses(w: World, h: Heap, b: nat, req: size_t)
    requires Represents(w, h) && b < |h.free| && ToU32(|h.free[b]|) == 0
    ensures Recycle(w, |h.free| - b, req) == Outcome(w, BufferNotInPool, 0)
  {
    hide ReadBD; hide WriteBD; hide MemShows; hide FreeStacks; hide Chained; hide IsPow2;
    assert BucketShown(w.pool.buckets[b], h, b);
    BucketIndexRange(w.pool, |h.free| - b);
  }

  lemma NextBlockIs(w: World, h: Heap)
    requires Represents(w, h)
    ensures NextBlock(w.pool) == NextOff(h) && End(h) + DESC <= NextOff(h) <= End(h) + DESC + h.cfg.mask
    ensures Roomy(w.pool)
  {
    forall b | 0 <= b < |w.pool.buckets|
      ensures 0 < w.pool.buckets[b].blockSize
      ensures w.pool.maxOffset + w.pool.buckets[b].blockSize + DESC + w.pool.alignMask < SIZE_T
    {
      assert BucketShown(w.pool.buckets[b], h, b);
    }
    assert h.cfg.maxOffset + h.cfg.sizes[0] + DESC + h.cfg.mask < SIZE_T;
    NextBlockBounds(w.pool);
  }

  /** A descriptor written past the last block. */
  lemma AppendShows(w: World, h: Heap, b: nat, live: bool, actual: nat, link: nat, bd: BD)
    requires Represents(w, h) && b < |h.free| && NextOff(h) <= |w.mem|
    requires Shows(bd, Append(h, b, live, actual, link).blocks[|h.blocks|], |h.cfg.sizes|)
    ensures MemShows(WriteBD(w.mem, DescAt(NextOff(h)), bd), Append(h, b, live, actual, link))
  {
    NextBlockIs(w, h);
    var at, h' := DescAt(NextOff(h)), Append(h, b, live, actual, link);
    ReadBack(w.mem, at, bd);
    forall j | 0 <= j < |h'.blocks| ensures BlockShown(WriteBD(w.mem, at, bd), h', j) {
      if j < |h.blocks| {
        assert BlockShown(w.mem, h, j);
        DescInside(w, h, j);
        ReadElsewhere(w.mem, at, Encode(bd), DescAt(h.blocks[j].off));
      }
    }
  }

  function Carved(bd: BD, id: uint16, req: size_t): BD {
    bd.(checkBits := CHECK_PATTERN, mark := ToU16(MEMORY_ALLOCATED + id), actualSize := req, nextOffset := 0)
  }

  lemma CreateComputes(w: World, h: Heap, b: nat, req: size_t)
    requires Represents(w, h) && b < |h.free| && NextOff(h) < SIZE_T
    ensures var at, bucket := DescAt(NextOff(h)), w.pool.buckets[b];
            var bucket' := bucket.(allocationCount := ToU32(bucket.allocationCount + 1));
            Create(w, |h.free| - b, req)
            == if NextOff(h) + h.cfg.sizes[b] > h.cfg.maxOffset then Outcome(w, MemBlockSize, 0)
               else Outcome(World(SetBucket(w.pool, b, bucket').(tail := NextOff(h) + h.cfg.sizes[b],
                                    allocationCount := ToU32(w.pool.allocationCount + 1)),
                                  WriteBD(w.mem, at, Carved(ReadBD(w.mem, at), |h.free| - b, req))),
                            Success, NextOff(h))
  {
    hide LinkTo; hide BlocksIn; hide Roomy; hide AlignUp;
    hide MemShows; hide FreeStacks; hide Chained; hide ToU32; hide ToU16; hide NextBlock;
    hide ReadBD; hide WriteBD; hide AndNot; hide IsPow2;
    assert BucketShown(w.pool.buckets[b], h, b);
    BucketIndexRange(w.pool, |h.free| - b);
    NextBlockIs(w, h);
  }

  /** What appending a block changes for the record of bucket a. */
  lemma AppendBucket(h: Heap, b: nat, live: bool, actual: nat, link: nat, a: nat)
    requires ValidHeap(h) && a < |h.free| && b < |h.free|
    ensures var h' := Append(h, b, live, actual, link);
      && |BlocksIn(h'.blocks, a)| == |BlocksIn(h.blocks, a)| + (if a == b then 1 else 0)
      && LinkTo(h', a, 0) == (if a == b && !live then NextOff(h) else LinkTo(h, a, 0))
      && |h'.free[a]| == |h.free[a]| + (if a == b && !live then 1 else 0)
  {
    var h' := Append(h, b, live, actual, link);
    BlocksInAppend(h.blocks, h'.blocks[|h.blocks|], a);
    if h.free[a] != [] { assert OnStack(h, a, 0); }
  }

  lemma AppendOneBucket(p: Pool, h: Heap, b: nat, live: bool, actual: nat, link: nat, a: nat)
    requires ValidHeap(h) && |p.buckets| == |h.free| == |h.cfg.sizes| && b < |h.free| && a < |h.free|
    requires NextOff(h) < SIZE_T
    requires BucketShown(p.buckets[a], h, a)
    ensures BucketShown(AdoptRecord(p, FoundBlock(NextOff(h), b, !live)).buckets[a],
                        Append(h, b, live, actual, link), a)
  {
    hide BlocksIn; hide LinkTo; hide NextOff; hide FreeStacks; hide Chained; hide ValidConfig;
    AppendBucket(h, b, live, actual, link, a);
    BucketStep(p.buckets[a], AdoptRecord(p, FoundBlock(NextOff(h), b, !live)).buckets[a], h,
               Append(h, b, live, actual, link), a, if a == b then 1 else 0, if a == b && !live then 1 else 0, 0);
  }

  lemma NextCount(n: nat)
    ensures ToU32(ToU32(n) + 1) == ToU32(n + 1)
  {}

  /** The record after a block has been laid out. */
  lemma AppendRecord(w: World, h: Heap, b: nat, live: bool, actual: nat, link: nat)
    requires Represents(w, h) && b < |h.free| && actual <= h.cfg.sizes[b] && NextOff(h) < SIZE_T
    requires NextOff(h) + h.cfg.sizes[b] <= h.cfg.maxOffset
    ensures RecordShows(AdoptRecord(w.pool, FoundBlock(NextOff(h), b, !live)), Append(h, b, live, actual, link))
  {
    hide MemShows; hide Chained; hide FreeStacks; hide NextOff; hide LinkTo; hide BlocksIn;
    AppendValid(h, b, live, actual, link);
    assert BucketShown(w.pool.buckets[b], h, b);
    NextCount(|h.blocks|);
    hide BucketShown; hide ValidConfig; hide IsPow2; hide ToU32; hide ToU16; hide AndNot;
    var p', h' := AdoptRecord(w.pool, FoundBlock(NextOff(h), b, !live)), Append(h, b, live, actual, link);
    forall a | 0 <= a < |h'.free| ensures BucketShown(p'.buckets[a], h', a) {
      assert BucketShown(w.pool.buckets[a], h, a);
      AppendOneBucket(w.pool, h, b, live, actual, link, a);
    }
  }

  lemma CreateRefines(w: World, h: Heap, b: nat, req: size_t)
    requires Represents(w, h) && b < |h.free| && req <= h.cfg.sizes[b]
    ensures var o := Create(w, |h.free| - b, req);
            if NextOff(h) + h.cfg.sizes[b] > h.cfg.maxOffset then o == Outcome(w, MemBlockSize, 0)
            else o.status == Success && o.value == NextOff(h) && Represents(o.world, Append(h, b, true, req, 0))
  {
    hide ReadBD; hide WriteBD; hide AndNot; hide IsPow2; hide Create; hide FreeStacks; hide Chained;
    NextBlockIs(w, h);
    CreateComputes(w, h, b, req);
    if NextOff(h) + h.cfg.sizes[b] <= h.cfg.maxOffset {
      AppendValid(h, b, true, req, 0);
      AppendRecord(w, h, b, true, req, 0);
      AppendShows(w, h, b, true, req, 0, Carved(ReadBD(w.mem, DescAt(NextOff(h))), |h.free| - b, req));
    }
  }

  lemma GetRefines(w: World, h: Heap, req: size_t)
    requires Represents(w, h)
    ensures var o, a := GetBlock(w, req), Get(h, req);
            o.status == a.status && o.value == a.value && Represents(o.world, a.heap)
  {
    hide ReadBD; hide WriteBD; hide AndNot; hide IsPow2; hide Recycle; hide Create;
    var b := Fit(h.cfg.sizes, req);
    FitIsFirstFit(w, h, req);
    if b < |h.cfg.sizes| {
      if ToU32(|h.free[b]|) != 0 {
        RecycleRefines(w, h, b, req);
      } else {
        RecycleRefuses(w, h, b, req);
        CreateRefines(w, h, b, req);
      }
    }
  }

  lemma FitIsFirstFit(w: World, h: Heap, req: size_t)
    requires Represents(w, h)
    ensures FirstFit(w.pool.buckets, req) == Fit(h.cfg.sizes, req)
  {
    forall b | 0 <= b < |h.free| ensures w.pool.buckets[b].blockSize == h.cfg.sizes[b] {
      assert BucketShown(w.pool.buckets[b], h, b);
    }
  }

  // Putting a block back

  /** The mark of a descriptor tells which bucket the block is in and whether it is in use. */
  lemma MarkMeans(p: Pool, bd: BD, block: Block)
    requires Shows(bd, block, |p.buckets|) && block.bucket < |p.buckets| <= MAX_BUCKETS
    ensures BucketIndex(p, ToU16(bd.mark - MEMORY_ALLOCATED)) == if block.live then Some(block.bucket) else None
    ensures BucketIndex(p, ToU16(bd.mark - MEMORY_DEALLOCATED)) == if block.live then None else Some(block.bucket)
  {
    BucketIndexRange(p, ToU16(bd.mark - MEMORY_ALLOCATED));
    BucketIndexRange(p, ToU16(bd.mark - MEMORY_DEALLOCATED));
  }

  /** The bytes before a block look in use exactly when the block is, with a nonzero size. */
  lemma UsedBucketOf(w: World, h: Heap, i: nat)
    requires Represents(w, h) && i < |h.blocks|
    ensures h.blocks[i].off < SIZE_T
    ensures UsedBucket(w, h.blocks[i].off)
         == if h.blocks[i].live && h.blocks[i].actual > 0 then Some(h.blocks[i].bucket) else None
  {
    hide ReadBD; hide AndNot; hide IsPow2; hide BucketIndex; hide FreeStacks; hide Chained;
    DescInside(w, h, i);
    assert BlockShown(w.mem, h, i);
    assert BucketShown(w.pool.buckets[h.blocks[i].bucket], h, h.blocks[i].bucket);
    MarkMeans(w.pool, ReadBD(w.mem, DescAt(h.blocks[i].off)), h.blocks[i]);
  }

  /** What releasing a block changes for the record of bucket a. */
  lemma PushBucket(h: Heap, i: nat, a: nat)
    requires ValidHeap(h) && a < |h.free| && i < |h.blocks| && h.blocks[i].bucket < |h.free|
    ensures var h', b := Push(h, i), h.blocks[i].bucket;
      && |BlocksIn(h'.blocks, a)| == |BlocksIn(h.blocks, a)|
      && LinkTo(h', a, 0) == (if a == b then h.blocks[i].off else LinkTo(h, a, 0))
      && |h'.free[a]| == |h.free[a]| + (if a == b then 1 else 0)
  {
    BlocksInSame(h.blocks, Push(h, i).blocks, a);
  }

  function Released(bd: BD, id: uint16, next: size_t): BD {
    bd.(mark := ToU16(MEMORY_DEALLOCATED + id), nextOffset := next)
  }

  lemma PutComputes(w: World, h: Heap, i: nat)
    requires Represents(w, h) && i < |h.blocks|
    ensures h.blocks[i].off < SIZE_T && h.blocks[i].bucket < |h.free| == |w.pool.buckets|
    ensures LinkTo(h, h.blocks[i].bucket, 0) < SIZE_T
    ensures var b, at := h.blocks[i].bucket, DescAt(h.blocks[i].off);
            var bucket := w.pool.buckets[b];
            var bucket' := bucket.(firstOffset := h.blocks[i].off, releaseCount := ToU32(bucket.releaseCount + 1));
            PutBlock(w, h.blocks[i].off)
            == if h.blocks[i].live && h.blocks[i].actual > 0 then
                 Outcome(World(SetBucket(w.pool, b, bucket'),
                               WriteBD(w.mem, at, Released(ReadBD(w.mem, at), |h.free| - b, LinkTo(h, b, 0)))),
                         Success, ReadBD(w.mem, at).actualSize)
               else
                 Outcome(w.(pool := w.pool.(validationErrors := ToU32(w.pool.validationErrors + 1))), BlockInvalid, 0)
  {
    hide ReadBD; hide WriteBD; hide AndNot; hide IsPow2;
    UsedBucketOf(w, h, i);
    DescInside(w, h, i);
    assert BlockShown(w.mem, h, i) && BucketShown(w.pool.buckets[h.blocks[i].bucket], h, h.blocks[i].bucket);
  }

  lemma PutRefines(w: World, h: Heap, i: nat)
    requires Represents(w, h) && i < |h.blocks|
    ensures h.blocks[i].off < SIZE_T
    ensures var o, a := PutBlock(w, h.blocks[i].off), Put(h, i);
            o.status == a.status && o.value == a.value && Represents(o.world, a.heap)
  {
    PutComputes(w, h, i);
    if h.blocks[i].live && h.blocks[i].actual > 0 {
      ReleaseRefines(w, h, i);
    } else {
      hide ReadBD; hide AndNot; hide IsPow2; hide PutBlock;
      RecordFrame(w, PutBlock(w, h.blocks[i].off).world.pool, h);
    }
  }

  /** The record after block i has been released. */
  lemma PushRecord(w: World, h: Heap, i: nat)
    requires Represents(w, h) && i < |h.blocks| && h.blocks[i].live
    ensures h.blocks[i].off < SIZE_T && h.blocks[i].bucket < |h.free| == |w.pool.buckets|
    ensures var b := h.blocks[i].bucket;
            var bucket := w.pool.buckets[b];
            RecordShows(SetBucket(w.pool, b, bucket.(firstOffset := h.blocks[i].off,
                                                     releaseCount := ToU32(bucket.releaseCount + 1))),
                        Push(h, i))
  {
    hide MemShows; hide LinkTo; hide BlocksIn; hide FreeStacks; hide Chained;
    PushValid(h, i);
    DescInside(w, h, i);
    var h', b := Push(h, i), h.blocks[i].bucket;
    var bucket := w.pool.buckets[b];
    var p' := SetBucket(w.pool, b, bucket.(firstOffset := h.blocks[i].off,
                                           releaseCount := ToU32(bucket.releaseCount + 1)));
    forall a | 0 <= a < |h'.free| ensures BucketShown(p'.buckets[a], h', a) {
      assert BucketShown(w.pool.buckets[a], h, a);
      PushOneBucket(w.pool.buckets[a], p'.buckets[a], h, i, a);
    }
  }

  lemma PushOneBucket(bucket: Bucket, bucket': Bucket, h: Heap, i: nat, a: nat)
    requires ValidHeap(h) && a < |h.free| == |h.cfg.sizes| && i < |h.blocks| && h.blocks[i].bucket < |h.free|
    requires BucketShown(bucket, h, a) && h.blocks[i].off < SIZE_T
    requires bucket' == if a != h.blocks[i].bucket then bucket
                        else bucket.(firstOffset := h.blocks[i].off, releaseCount := ToU32(bucket.releaseCount + 1))
    ensures BucketShown(bucket', Push(h, i), a)
  {
    hide BlocksIn; hide LinkTo; hide FreeStacks; hide Chained; hide ValidConfig;
    PushBucket(h, i, a);
    BucketStep(bucket, bucket', h, Push(h, i), a, 0, if a == h.blocks[i].bucket then 1 else 0, 0);
  }

  lemma ReleaseRefines(w: World, h: Heap, i: nat)
    requires Represents(w, h) && i < |h.blocks| && h.blocks[i].live && h.blocks[i].actual > 0
    ensures h.blocks[i].off < SIZE_T && h.blocks[i].bucket < |h.free|
    ensures var o := PutBlock(w, h.blocks[i].off);
            o.status == Success && o.value == h.blocks[i].actual && Represents(o.world, Push(h, i))
  {
    hide ReadBD; hide WriteBD; hide PutBlock; hide RecordShows; hide Chained;
    PutComputes(w, h, i);
    PushValid(h, i);
    PushRecord(w, h, i);
    var b := h.blocks[i].bucket;
    assert BlockShown(w.mem, h, i);
    RewriteShows(w, h, Push(h, i), i,
                 Released(ReadBD(w.mem, DescAt(h.blocks[i].off)), |h.free| - b, LinkTo(h, b, 0)));
  }

  /** The validation counter is not part of what a record represents. */
  lemma RecordFrame(w: World, p: Pool, h: Heap)
    requires Represents(w, h) && p == w.pool.(validationErrors := p.validationErrors)
    ensures Represents(World(p, w.mem), h)
  {
    forall b | 0 <= b < |h.free| ensures BucketShown(p.buckets[b], h, b) {
      assert BucketShown(w.pool.buckets[b], h, b);
    }
  }

  // A new pool

  function Fresh(c: Config): Heap { Heap(c, [], seq(|c.sizes|, i => [])) }

  lemma FreshRepresented(p: Pool, mem: seq<byte>, c: Config)
    requires ValidConfig(c) && c.maxOffset <= |mem|
    requires p.maxOffset == c.maxOffset && p.alignMask == c.mask && p.tail == c.start && p.allocationCount == 0
    requires |p.buckets| == |c.sizes|
    requires forall b :: 0 <= b < |c.sizes| ==> p.buckets[b] == Bucket(c.sizes[b], 0, 0, 0, 0)
    ensures Represents(World(p, mem), Fresh(c))
  {
    hide IsPow2;
    forall b | 0 <= b < |Fresh(c).free| ensures BucketShown(p.buckets[b], Fresh(c), b) {
      assert BlocksIn([], b) == {};
    }
  }

  /** An empty pool is one over any memory. */
  lemma FreshAnywhere(w: World, c: Config, mem: seq<byte>)
    requires Represents(w, Fresh(c)) && c.maxOffset <= |mem|
    ensures Represents(World(w.pool, mem), Fresh(c))
  {
    hide ValidHeap; hide RecordShows; hide ReadBD;
  }

  lemma SortedSizesConfig(c: Config, sizes: seq<size_t>)
    requires 1 <= |sizes| <= MAX_BUCKETS && c.sizes == SortSizes(sizes)
    requires IsPow2(c.mask + 1) && c.start <= c.maxOffset
    requires forall s :: s in sizes ==> c.maxOffset + s + DESC + c.mask < SIZE_T
    requires c.sizes != [] ==> c.sizes[0] != 0
    ensures ValidConfig(c)
  {
    hide IsPow2; hide SortSizes;
    SortSizesSorts(sizes);
    assert |multiset(c.sizes)| == |c.sizes| && |multiset(sizes)| == |sizes| by {
      assert multiset(c.sizes) == multiset(SortSizes(sizes));
    }
    forall b | 0 <= b < |c.sizes| ensures 0 < c.sizes[b] && c.maxOffset + c.sizes[b] + DESC + c.mask < SIZE_T {
      assert SortSizes(sizes)[b] in multiset(SortSizes(sizes));
      assert SortSizes(sizes)[b] in sizes;
    }
  }

  lemma AlignMaskIs(alignSize: size_t)
    ensures var mask := if alignSize <= 1 then 0 else alignSize - 1;
            And(mask, alignSize) == 0 <==> IsPow2(mask + 1)
  {
    if alignSize > 1 { PowerOfTwoTest(alignSize); }
  }

  lemma InitializeComputes(was: Pool, start: size_t, poolSize: size_t, alignSize: size_t, sizes: seq<size_t>)
    requires Initialize(was, start, poolSize, alignSize, sizes).1 == Success
    ensures sizes != []
    ensures var p := Initialize(was, start, poolSize, alignSize, sizes).0;
      && p.maxOffset == ToSize(poolSize + start) && p.tail == start && p.allocationCount == 0
      && p.alignMask == (if alignSize <= 1 then 0 else alignSize - 1) && IsPow2(p.alignMask + 1)
      && p.buckets == EmptyBuckets(SortSizes(sizes))
      && (SortSizes(sizes) != [] ==> SortSizes(sizes)[0] != 0)
  {
    hide IsPow2; hide And; hide SortSizes; hide EmptyBuckets;
    AlignMaskIs(alignSize);
  }

  /** No block that starts within the pool can end beyond the range of size_t. */
  predicate Ample(start: size_t, poolSize: size_t, alignSize: size_t, sizes: seq<size_t>) {
    forall s :: s in sizes ==> start + poolSize + s + DESC + alignSize < SIZE_T
  }

  /** A successful initialization gives an allocator without blocks, its sizes sorted. */
  lemma InitializeRefines(was: Pool, mem: seq<byte>, start: size_t, poolSize: size_t, alignSize: size_t,
                          sizes: seq<size_t>)
    requires Initialize(was, start, poolSize, alignSize, sizes).1 == Success
    requires start + poolSize <= |mem| && |sizes| <= MAX_BUCKETS
    requires Ample(start, poolSize, alignSize, sizes)
    ensures var p := Initialize(was, start, poolSize, alignSize, sizes).0;
            Represents(World(p, mem), Fresh(Config(start, start + poolSize, p.alignMask, SortSizes(sizes))))
  {
    hide IsPow2; hide Initialize; hide SortSizes; hide Represents; hide ValidConfig;
    InitializeComputes(was, start, poolSize, alignSize, sizes);
    var p := Initialize(was, start, poolSize, alignSize, sizes).0;
    var c := Config(start, start + poolSize, p.alignMask, SortSizes(sizes));
    assert sizes[0] in sizes;
    SortedSizesConfig(c, sizes);
    FreshRepresented(p, mem, c);
  }

  /** Free blocks and the end of the pool lie in a store of a size. */
  predicate InReach(p: Pool, size: nat) {
    && p.maxOffset <= size
    && forall b :: 0 <= b < |p.buckets| ==> p.buckets[b].firstOffset == 0 || DESC <= p.buckets[b].firstOffset <= size
  }

  lemma FirstInside(w: World, h: Heap, b: nat)
    requires Represents(w, h) && b < |h.free| && LinkTo(h, b, 0) != 0
    ensures DESC <= LinkTo(h, b, 0) <= |w.mem|
  {
    hide ReadBD; hide Chained; hide AlignUp;
    assert OnStack(h, b, 0);
    DescInside(w, h, h.free[b][0]);
  }

  lemma RepresentsInReach(w: World, h: Heap)
    requires Represents(w, h)
    ensures InReach(w.pool, |w.mem|)
  {
    hide ReadBD; hide FreeStacks; hide Chained; hide AlignUp;
    var p := w.pool;
    forall b | 0 <= b < |p.buckets|
      ensures p.buckets[b].firstOffset == 0 || DESC <= p.buckets[b].firstOffset <= |w.mem|
    {
      assert BucketShown(p.buckets[b], h, b);
      if LinkTo(h, b, 0) != 0 { FirstInside(w, h, b); }
    }
  }
}
