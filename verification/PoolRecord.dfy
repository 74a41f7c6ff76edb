/**
  The pool record as the code keeps it: fields and a bucket table updated in place, over a store it reaches
  by retrieving and committing descriptors. Every method is proved against the pool on values.
 */
module PoolRecord {
  import opened Bits
  import opened Descriptor
  import opened Options
  import opened PoolModel
  import opened Heap
  import opened PoolRefinement
  import opened PoolRebuild
  import PoolRuns
  import opened PoolAnswers
  import Store
  import opened BucketSort

  lemma HeapOf(w: World, h: Heap)
    requires Represents(w, h)
    ensures ValidHeap(h) && w.pool.tail <= |w.mem| && w.pool.maxOffset <= |w.mem|
  {}

  lemma RepresentsBuckets(w: World, h: Heap)
    requires Represents(w, h)
    ensures |w.pool.buckets| <= MAX_BUCKETS
  {}

  lemma PutOutcome(w: World, h: Heap, offset: size_t)
    requires Represents(w, h)
    ensures PoolRuns.IsBlock(h, offset) ==>
      Represents(PoolModel.PutBlock(w, offset).world, Put(h, PoolRuns.BlockAt(h.blocks, offset)).heap)
    ensures !PoolRuns.IsBlock(h, offset) && PoolModel.PutBlock(w, offset).status != Success ==>
      Represents(PoolModel.PutBlock(w, offset).world, h)
  {
    RepresentsBuckets(w, h);
    PutAnswers(w, offset);
    hide Represents; hide ReadBD; hide PoolModel.PutBlock; hide LooksUsed;
    if PoolRuns.IsBlock(h, offset) {
      PutRefines(w, h, PoolRuns.BlockAt(h.blocks, offset));
    } else if PoolModel.PutBlock(w, offset).status != Success {
      PoolRuns.TurnedDown(w, h, offset);
    }
  }

  class GenPool {
    const store: Store.IndirectBuffer
    const buckets: array<Bucket>
    var totalSize: size_t
    var maxOffset: size_t
    var alignMask: size_t
    var tail: size_t
    var allocationCount: uint32
    var validationErrors: uint32
    var numBuckets: uint16

    /** The allocator this pool implements. */
    ghost var heap: Heap

    ghost predicate Shape()
      reads this
    {
      buckets.Length == MAX_BUCKETS && numBuckets <= MAX_BUCKETS
    }

    ghost function Record(): Pool
      reads this, buckets
      requires Shape()
    {
      Pool(totalSize, maxOffset, alignMask, tail, allocationCount, validationErrors, buckets[..numBuckets])
    }

    ghost function Whole(): World
      reads this, buckets, store.data
      requires Shape()
    {
      World(Record(), store.data[..])
    }

    ghost predicate Valid()
      reads this, buckets, store.data
    {
      Shape() && Represents(Whole(), heap)
    }

    ghost predicate Reachable()
      reads this, buckets, store.data
    {
      Shape() && InReach(Record(), store.data.Length)
    }

    constructor (store: Store.IndirectBuffer)
      ensures Shape() && this.store == store && fresh(buckets) && Record() == ZERO_POOL
    {
      this.store := store;
      buckets := new Bucket[MAX_BUCKETS];
      totalSize, maxOffset, alignMask, tail := 0, 0, 0, 0;
      allocationCount, validationErrors, numBuckets := 0, 0, 0;
    }

    method FindBucket(req: size_t) returns (id: uint16)
      requires Shape()
      ensures id == PoolModel.FindBucket(Record(), req)
    {
      var index: uint16 := 0;
      while index < numBuckets
        invariant index <= numBuckets
        invariant forall j :: 0 <= j < index ==> buckets[j].blockSize < req
      {
        if req <= buckets[index].blockSize {
          break;
        }
        index := index + 1;
      }
      id := numBuckets - index;
    }

    method BucketState(id: uint16) returns (index: Option<nat>)
      requires Shape()
      ensures index == BucketIndex(Record(), id)
    {
      var i := ToU16(numBuckets - id);
      index := if i >= numBuckets then None else Some(i);
    }

    method RecyclePoolBlock(id: uint16, newSize: size_t) returns (status: Status, offset: size_t)
      requires Reachable()
      modifies buckets, store, store.data
      ensures Shape()
      ensures var o := PoolModel.Recycle(old(Whole()), id, newSize);
              Whole() == o.world && status == o.status && (status == Success ==> offset == o.value)
    {
      hide ReadBD; hide WriteBD;
      offset := 0;
      var index := BucketState(id);
      if index.None? { return BufferNotInPool, 0; }
      var bucket := buckets[index.value];
      if bucket.recycleCount == bucket.releaseCount || bucket.firstOffset == 0 { return BufferNotInPool, 0; }
      offset := bucket.firstOffset;
      var at := offset - DESC;
      assert at == DescOf(offset);
      store.Retrieve(at);
      var recycleId := ToU16(store.bd.mark - MEMORY_DEALLOCATED);
      if store.bd.checkBits != CHECK_PATTERN || recycleId != id {
        status := BufferNotInPool;
      } else {
        var next := store.bd.nextOffset;
        store.bd := store.bd.(mark := ToU16(MEMORY_ALLOCATED + id), actualSize := newSize, nextOffset := 0);
        store.Commit(at);
        buckets[index.value] := bucket.(firstOffset := next, recycleCount := ToU32(bucket.recycleCount + 1));
        status := Success;
      }
    }

    /** The offset of the next block, in three steps as it is computed for a new block and in the scan. */
    method NextOffset() returns (offset: size_t)
      requires Shape()
      ensures offset == NextBlock(Record())
    {
      hide AndNot;
      offset := ToSize(tail + DESC);
      offset := ToSize(offset + alignMask);
      offset := AndNot(offset, alignMask);
    }

    method CreatePoolBlock(id: uint16, newSize: size_t) returns (status: Status, offset: size_t)
      requires Reachable() && IsPow2(alignMask + 1) && !EndWraps(Record(), id)
      modifies this, buckets, store, store.data
      ensures Shape() && heap == old(heap)
      ensures var o := PoolModel.Create(old(Whole()), id, newSize);
              Whole() == o.world && status == o.status && (status == Success ==> offset == o.value)
    {
      hide ReadBD; hide WriteBD; hide AndNot; hide BucketIndex; hide IsPow2; hide Represents; hide ToU16; hide ToU32;
      hide Place; hide AlignUp; hide Roomy;
      var index := BucketState(id);
      if index.None? { return BufferNotInPool, 0; }
      var bucket := buckets[index.value];
      offset := NextOffset();
      var at := ToSize(offset - DESC);
      assert at == DescOf(offset);
      var nextTail := ToSize(offset + bucket.blockSize);
      if nextTail > maxOffset { return MemBlockSize, offset; }
      CarveInside(Record(), id);
      hide DescOf; hide NextBlock; hide ToSize; hide EndWraps; hide InReach;
      store.Retrieve(at);
      store.bd := store.bd.(checkBits := CHECK_PATTERN, mark := ToU16(MEMORY_ALLOCATED + id),
                            actualSize := newSize, nextOffset := 0);
      store.Commit(at);
      tail := nextTail;
      buckets[index.value] := bucket.(allocationCount := ToU32(bucket.allocationCount + 1));
      assert buckets[..numBuckets] == old(buckets[..numBuckets])[index.value := buckets[index.value]];
      allocationCount := ToU32(allocationCount + 1);
      status := Success;
    }

    /** A request changes the pool the way it changes the allocator. */
    method GetBlock(req: size_t) returns (status: Status, offset: size_t)
      requires Valid()
      modifies this, buckets, store, store.data
      ensures Valid() && heap == Get(old(heap), req).heap
      ensures Whole() == PoolModel.GetBlock(old(Whole()), req).world
      ensures status == Get(old(heap), req).status
      ensures status == Success ==> offset == Get(old(heap), req).value
    {
      hide PoolModel.Recycle; hide PoolModel.Create; hide Represents; hide Roomy;
      ghost var w, h := Whole(), heap;
      ReachableIfValid();
      GetRefines(w, h, req);
      HeapOf(w, h);
      heap := Get(h, req).heap;
      var id := FindBucket(req);
      if id == 0 { return MemBlockSize, 0; }
      status, offset := RecyclePoolBlock(id, req);
      if status != Success {
        assert Whole() == w;
        RoomyEnds(Record(), id);
        status, offset := CreatePoolBlock(id, req);
      }
    }

    lemma ReachableIfValid()
      requires Valid()
      ensures Reachable() && Roomy(Record()) && tail <= maxOffset
    {
      RepresentsInReach(Whole(), heap);
      NextBlockIs(Whole(), heap);
      hide ReadBD; hide FreeStacks; hide Chained; hide AlignUp; hide InReach; hide Roomy;
    }

    method BlockSizeOf(offset: size_t) returns (status: Status, size: size_t)
      requires Valid()
      modifies store
      ensures Valid() && Whole() == old(Whole())
      ensures var o := PoolModel.GetBlockSize(Whole(), offset);
              status == o.status && (status == Success ==> size == o.value)
    {
      hide ReadBD; hide Represents;
      if offset >= tail || offset < DESC { return BufferNotInPool, 0; }
      HeapOf(Whole(), heap);
      store.Retrieve(offset - DESC);
      assert offset - DESC == DescOf(offset);
      var id := ToU16(store.bd.mark - MEMORY_ALLOCATED);
      var index := BucketState(id);
      if store.bd.checkBits != CHECK_PATTERN || index.None? || store.bd.actualSize == 0
         || buckets[index.value].blockSize < store.bd.actualSize {
        return BlockInvalid, 0;
      }
      return Success, store.bd.actualSize;
    }

    /**
      A release of a block changes the pool the way it changes the allocator; any other offset is either
      turned down, or taken for a block in use as its bytes suggest.
     */
    method PutBlock(offset: size_t) returns (status: Status, size: size_t)
      requires Valid()
      modifies this, buckets, store, store.data
      ensures Shape()
      ensures var o := PoolModel.PutBlock(old(Whole()), offset);
              Whole() == o.world && status == o.status && (status == Success ==> size == o.value)
      ensures heap == if PoolRuns.IsBlock(old(heap), offset)
                      then Put(old(heap), PoolRuns.BlockAt(old(heap.blocks), offset)).heap else old(heap)
      ensures PoolRuns.IsBlock(old(heap), offset) || status != Success ==> Valid()
    {
      hide ReadBD; hide WriteBD; hide Represents; hide BucketIndex; hide IsPow2; hide ToU16; hide ToU32;
      ghost var w, h := Whole(), heap;
      HeapOf(w, h);
      PutOutcome(w, h, offset);
      hide PoolRuns.IsBlock; hide PoolRuns.BlockAt; hide Put;
      if PoolRuns.IsBlock(h, offset) { heap := Put(h, PoolRuns.BlockAt(h.blocks, offset)).heap; }
      if offset >= tail || offset < DESC { return BufferNotInPool, 0; }
      var at := offset - DESC;
      store.Retrieve(at);
      assert at == DescOf(offset);
      var id := ToU16(store.bd.mark - MEMORY_ALLOCATED);
      var index := BucketState(id);
      if store.bd.checkBits != CHECK_PATTERN || index.None? || store.bd.actualSize == 0
         || buckets[index.value].blockSize < store.bd.actualSize {
        validationErrors := ToU32(validationErrors + 1);
        return BlockInvalid, 0;
      }
      var bucket := buckets[index.value];
      store.bd := store.bd.(mark := ToU16(MEMORY_DEALLOCATED + id), nextOffset := bucket.firstOffset);
      size := store.bd.actualSize;
      store.Commit(at);
      buckets[index.value] := bucket.(firstOffset := offset, releaseCount := ToU32(bucket.releaseCount + 1));
      status := Success;
    }

    /** Sets the record up; with bad arguments it may be left cleared. Pool memory is not touched. */
    method Initialize(start: size_t, poolSize: size_t, alignSize: size_t, sizes: seq<size_t>)
      returns (status: Status)
      requires Shape() && |sizes| <= MAX_BUCKETS
      modifies this, buckets
      ensures Shape()
      ensures (Record(), status) == PoolModel.Initialize(old(Record()), start, poolSize, alignSize, sizes)
      ensures status == Success && start + poolSize <= store.data.Length && Ample(start, poolSize, alignSize, sizes)
              ==> Valid() && heap == Fresh(Config(start, start + poolSize, alignMask, SortSizes(sizes)))
    {
      hide And; hide SortSizes; hide IsPow2; hide Represents; hide Ascending; hide Ample;
      if |sizes| == 0 { return BadArgument; }
      ghost var was := Record();
      totalSize, maxOffset, alignMask, tail, allocationCount, validationErrors, numBuckets := 0, 0, 0, 0, 0, 0, 0;
      var mask: size_t := if alignSize <= 1 then 0 else alignSize - 1;
      if And(mask, alignSize) != 0 { return BadArgument; }
      alignMask, totalSize, maxOffset, numBuckets, tail := mask, poolSize, ToSize(poolSize + start), |sizes|, start;
      LoadBuckets(buckets, sizes);
      status := if buckets[0].blockSize == 0 then MemBlockSize else Success;
      heap := Fresh(Config(start, start + poolSize, alignMask, SortSizes(sizes)));
      if status == Success && start + poolSize <= store.data.Length && Ample(start, poolSize, alignSize, sizes) {
        InitializeRefines(was, store.data[..], start, poolSize, alignSize, sizes);
      }
    }

    /** Looks for a block at the tail, and leaves its descriptor in the store's buffer. */
    method ScanAtTail() returns (s: Scan)
      requires Shape() && Roomy(Record()) && maxOffset <= store.data.Length
      modifies store
      ensures s == ScanTail(Whole()) && Whole() == old(Whole())
      ensures s.FoundBlock? ==> DESC <= s.offset && store.bd == ReadBD(store.data[..], s.offset - DESC)
    {
      hide ReadBD; hide AndNot; hide IsPow2; hide BucketIndex;
      NextBlockBounds(Record());
      var offset := NextOffset();
      if offset > maxOffset { return NoBlock; }
      assert offset - DESC == DescOf(offset);
      store.Retrieve(offset - DESC);
      var isFree, index := false, None;
      if store.bd.checkBits == CHECK_PATTERN {
        index := BucketState(ToU16(store.bd.mark - MEMORY_DEALLOCATED));
        if index.Some? {
          isFree := true;
        } else {
          index := BucketState(ToU16(store.bd.mark - MEMORY_ALLOCATED));
        }
      }
      if index.None? || buckets[index.value].blockSize < store.bd.actualSize { return NoBlock; }
      return FoundBlock(offset, index.value, isFree);
    }

    /** The scan over pool memory: takes in every block it finds, and stops at the first place without one. */
    method Rebuild() returns (status: Status)
      requires Shape() && Roomy(Record()) && maxOffset <= store.data.Length
      modifies this, buckets, store, store.data
      ensures Shape() && heap == old(heap) && status == Success
      ensures Whole() == PoolModel.Rebuild(old(Whole()))
    {
      hide ReadBD; hide ScanTail; hide Roomy; hide AdoptRecord;
      status := Success;
      while true
        invariant Shape() && Roomy(Record()) && heap == old(heap) && maxOffset == old(maxOffset)
        invariant PoolModel.Rebuild(Whole()) == PoolModel.Rebuild(old(Whole()))
        decreases if tail <= maxOffset then maxOffset - tail else 0
      {
        ghost var w := Whole();
        var s := ScanAtTail();
        if s.NoBlock? { break; }
        AdoptRoomy(w.pool, s);
        TakeIn(s.offset, s.bucket, s.free);
        assert Whole() == Adopt(w, s);
      }
    }

    /** The rest of a scan round: counters, the new tail, and the link of a free block. */
    method TakeIn(offset: size_t, index: nat, isFree: bool)
      requires Shape() && index < numBuckets && DESC <= offset <= store.data.Length
      requires store.bd == ReadBD(store.data[..], offset - DESC)
      modifies this, buckets, store, store.data
      ensures Shape() && heap == old(heap)
      ensures Whole() == Adopt(old(Whole()), FoundBlock(offset, index, isFree))
    {
      hide ReadBD; hide WriteBD;
      assert offset - DESC == DescOf(offset);
      tail := ToSize(offset + buckets[index].blockSize);
      buckets[index] := buckets[index].(allocationCount := ToU32(buckets[index].allocationCount + 1));
      allocationCount := ToU32(allocationCount + 1);
      if isFree {
        buckets[index] := buckets[index].(releaseCount := ToU32(buckets[index].releaseCount + 1));
        store.bd := store.bd.(nextOffset := buckets[index].firstOffset);
        buckets[index] := buckets[index].(firstOffset := offset);
        store.Commit(offset - DESC);
      }
    }

    /**
      A record set up anew over the memory of a pool `lost` that implements the allocator `h`: the tail is
      recovered exactly when no block seems to follow the last one, and with it the whole allocator.
     */
    method Recover(start: size_t, poolSize: size_t, alignSize: size_t, sizes: seq<size_t>,
                   ghost lost: World, ghost h: Heap)
      returns (status: Status)
      requires Shape() && |sizes| <= MAX_BUCKETS && start + poolSize <= store.data.Length
      requires Ample(start, poolSize, alignSize, sizes)
      requires Represents(lost, h) && lost.mem == store.data[..]
      requires h.cfg == Config(start, start + poolSize, lost.pool.alignMask, SortSizes(sizes))
      requires lost.pool.alignMask == if alignSize <= 1 then 0 else alignSize - 1
      modifies this, buckets, store, store.data
      ensures Shape()
      ensures status == Success ==>
                && (tail == lost.pool.tail <==> ScanTail(lost).NoBlock?)
                && (ScanTail(lost).NoBlock? ==> Valid() && heap == Rebuilt(h))
    {
      hide ReadBD; hide SortSizes; hide Represents; hide PoolModel.Initialize; hide PoolModel.Rebuild; hide ScanTail;
      ghost var was := Record();
      status := Initialize(start, poolSize, alignSize, sizes);
      if status == Success {
        InitializeComputes(was, start, poolSize, alignSize, sizes);
        PoolRuns.InitializeCounters(was, start, poolSize, alignSize, sizes);
        RebuildRecovers(lost, h, Record());
        HeapOf(lost, h);
        status := Rebuild();
        heap := Rebuilt(h);
      }
    }

    /** What telemetry reports of the pool, and of a bucket. */
    method Usage() returns (freeSize: size_t, total: size_t)
      requires Valid()
      ensures freeSize == heap.cfg.maxOffset - End(heap) && total == totalSize
    {
      return maxOffset - tail, totalSize;
    }

    method BucketUsage(id: uint16) returns (created: uint32, size: size_t, free: uint32)
      requires Valid()
      ensures 1 <= id <= |heap.cfg.sizes| ==>
                var b := |heap.cfg.sizes| - id;
                && b < |heap.free|
                && created == ToU32(|LiveIn(heap.blocks, b)| + |heap.free[b]|)
                && size == heap.cfg.sizes[b] && free == ToU32(|heap.free[b]|)
      ensures !(1 <= id <= |heap.cfg.sizes|) ==> created == 0 && size == 0 && free == 0
    {
      hide ReadBD; hide MemShows; hide Chained; hide BlocksIn; hide LiveIn; hide LinkTo;
      BucketIndexRange(Record(), id);
      var index := BucketState(id);
      if index.None? { return 0, 0, 0; }
      var bucket := buckets[index.value];
      assert BucketShown(Record().buckets[index.value], heap, index.value);
      Accounting(heap, index.value);
      return bucket.allocationCount, bucket.blockSize, ToU32(bucket.releaseCount - bucket.recycleCount);
    }
  }

  /** The sizes go into unused buckets, which are then sorted. */
  method LoadBuckets(buckets: array<Bucket>, sizes: seq<size_t>)
    requires 1 <= |sizes| <= buckets.Length
    modifies buckets
    ensures buckets[..|sizes|] == EmptyBuckets(SortSizes(sizes))
  {
    for i := 0 to |sizes|
      invariant forall k :: 0 <= k < i ==> buckets[k] == Bucket(sizes[k], 0, 0, 0, 0)
    {
      buckets[i] := Bucket(sizes[i], 0, 0, 0, 0);
    }
    assert SizesOf(buckets[..|sizes|]) == sizes;
    BucketSort.Sort(buckets, |sizes|);
    SortedBuckets(buckets[..|sizes|], sizes);
  }

  /** The table after sorting is the sorted list of sizes. */
  lemma SortedBuckets(table: seq<Bucket>, sizes: seq<size_t>)
    requires Unused(table) && Ascending(SizesOf(table)) && multiset(SizesOf(table)) == multiset(sizes)
    ensures table == EmptyBuckets(SortSizes(sizes)) && |table| == |sizes|
  {
    SortSizesSorts(sizes);
    SortedUnique(SizesOf(table), SortSizes(sizes));
    assert |multiset(SizesOf(table))| == |SizesOf(table)| && |multiset(sizes)| == |sizes|;
  }
}
