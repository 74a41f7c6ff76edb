/**
  What the pool answers, and when, for every record and all bytes: stated from the descriptor that is read and the
  arguments that are given, and not through the tests the operations make.
 */
module PoolAnswers {
  import opened Bits
  import opened Descriptor
  import opened Options
  import opened PoolModel

  predicate Inside(p: Pool, offset: size_t) { DESC <= offset < p.tail }

  /**
    A release succeeds exactly for an offset below the tail with the descriptor of a block in use in front of it,
    and answers with the size in that descriptor. It changes nothing outside the pool, and counts other failures.
   */
  lemma PutAnswers(w: World, offset: size_t)
    requires |w.pool.buckets| <= MAX_BUCKETS
    ensures var o := PutBlock(w, offset);
      && (o.status == BufferNotInPool <==> !Inside(w.pool, offset))
      && (o.status == Success <==> Inside(w.pool, offset) && LooksUsed(w.pool, ReadBD(w.mem, offset - DESC)))
      && (o.status == Success ==> o.value == ReadBD(w.mem, offset - DESC).actualSize)
      && (o.status != Success ==> o.status in {BufferNotInPool, BlockInvalid})
      && (o.status == BufferNotInPool ==> o.world == w)
      && (o.status == BlockInvalid ==>
            o.world == w.(pool := w.pool.(validationErrors := ToU32(w.pool.validationErrors + 1))))
  {
    hide ReadBD; hide WriteBD; hide UsedBucket;
    if offset >= DESC { UsedBucketMeans(w, offset); }
  }

  /** The query for a size answers as a release would, and changes nothing. */
  lemma SizeAnswers(w: World, offset: size_t)
    requires |w.pool.buckets| <= MAX_BUCKETS
    ensures var o := GetBlockSize(w, offset);
      && o.world == w && o.status == PutBlock(w, offset).status
      && (o.status == BufferNotInPool <==> !Inside(w.pool, offset))
      && (o.status == Success <==> Inside(w.pool, offset) && LooksUsed(w.pool, ReadBD(w.mem, offset - DESC)))
      && (o.status == Success ==> o.value == ReadBD(w.mem, offset - DESC).actualSize)
  {
    hide ReadBD; hide WriteBD; hide UsedBucket;
    if offset >= DESC { UsedBucketMeans(w, offset); }
  }

  /**
    A block is reissued exactly if its bucket's counters differ and its first free block has the descriptor of a
    released block of that bucket in front of it.
   */
  lemma RecycleAnswers(w: World, id: uint16, req: size_t)
    requires |w.pool.buckets| <= MAX_BUCKETS
    ensures var o := Recycle(w, id, req);
      && (o.status == Success <==>
            1 <= id <= |w.pool.buckets| &&
            var bucket := w.pool.buckets[|w.pool.buckets| - id];
            && bucket.releaseCount != bucket.recycleCount && bucket.firstOffset != 0
            && var bd := ReadBD(w.mem, DescOf(bucket.firstOffset));
               bd.checkBits == CHECK_PATTERN && bd.mark == MEMORY_DEALLOCATED + id)
      && (o.status == Success ==> o.value == w.pool.buckets[|w.pool.buckets| - id].firstOffset)
      && (o.status != Success ==> o == Outcome(w, BufferNotInPool, 0))
  {
    hide ReadBD; hide WriteBD;
    BucketIndexRange(w.pool, id);
    if 1 <= id <= |w.pool.buckets| {
      var bd := ReadBD(w.mem, DescOf(w.pool.buckets[|w.pool.buckets| - id].firstOffset));
      if ToU16(bd.mark - MEMORY_DEALLOCATED) == id { MarkOf(bd.mark, MEMORY_DEALLOCATED, id); }
    }
    hide BucketIndex;
  }

  /** A round of the scan finds a block exactly if it starts within the pool and has a descriptor for its bucket. */
  lemma ScanAnswers(w: World, bucket: nat, free: bool)
    requires |w.pool.buckets| <= MAX_BUCKETS && bucket < |w.pool.buckets|
    ensures var offset := NextBlock(w.pool);
            ScanTail(w) == FoundBlock(offset, bucket, free) <==>
              && offset <= w.pool.maxOffset
              && Carries(w.pool, ReadBD(w.mem, DescOf(offset)),
                         if free then MEMORY_DEALLOCATED else MEMORY_ALLOCATED, |w.pool.buckets| - bucket)
  {
    hide ReadBD; hide BucketIndex; hide NextBlock; hide ToU16; hide DescOf;
    var bd := ReadBD(w.mem, DescOf(NextBlock(w.pool)));
    IndexMeans(w.pool, bd.mark, MEMORY_ALLOCATED);
    IndexMeans(w.pool, bd.mark, MEMORY_DEALLOCATED);
  }

  /** No alignment, or a power of two; at least one block size, and none of zero. */
  predicate GoodAlignment(alignSize: size_t) { alignSize == 0 || IsPow2(alignSize) }

  predicate GoodArguments(alignSize: size_t, sizes: seq<size_t>) {
    sizes != [] && GoodAlignment(alignSize) && 0 !in sizes
  }

  /** When an initialization succeeds, which error it gives otherwise, and the record that it leaves. */
  lemma InitializeAnswers(was: Pool, start: size_t, poolSize: size_t, alignSize: size_t, sizes: seq<size_t>)
    ensures var (p, status) := Initialize(was, start, poolSize, alignSize, sizes);
      && (status == Success <==> GoodArguments(alignSize, sizes))
      && (status == BadArgument <==> sizes == [] || !GoodAlignment(alignSize))
      && (status == MemBlockSize <==> sizes != [] && GoodAlignment(alignSize) && 0 in sizes)
      && (status in {Success, BadArgument, MemBlockSize})
      && (status != BadArgument ==>
            && p.totalSize == poolSize && p.maxOffset == ToSize(start + poolSize) && p.tail == start
            && p.alignMask == (if alignSize <= 1 then 0 else alignSize - 1)
            && p.allocationCount == 0 && p.validationErrors == 0
            && |p.buckets| == |sizes|
            && multiset(seq(|sizes|, i requires 0 <= i < |p.buckets| => p.buckets[i].blockSize)) == multiset(sizes)
            && (forall i, j :: 0 <= i < j < |p.buckets| ==> p.buckets[i].blockSize <= p.buckets[j].blockSize)
            && forall i :: 0 <= i < |p.buckets| ==> p.buckets[i] == Bucket(p.buckets[i].blockSize, 0, 0, 0, 0))
  {
    hide IsPow2; hide SortSizes; hide EmptyBuckets; hide And;
    AlignmentTest(alignSize);
    SortedSizes(sizes);
    var sorted := SortSizes(sizes);
    if sizes != [] && GoodAlignment(alignSize) {
      var p := Initialize(was, start, poolSize, alignSize, sizes).0;
      assert p.buckets == EmptyBuckets(sorted);
      assert seq(|sizes|, i requires 0 <= i < |p.buckets| => p.buckets[i].blockSize) == sorted;
    }
  }

  lemma AlignmentTest(alignSize: size_t)
    ensures And(if alignSize <= 1 then 0 else alignSize - 1, alignSize) == 0 <==> GoodAlignment(alignSize)
  {
    if alignSize > 1 { PowerOfTwoTest(alignSize); }
  }

  lemma SortedSizes(sizes: seq<size_t>)
    ensures var sorted := SortSizes(sizes);
      && |sorted| == |sizes| && Ascending(sorted) && multiset(sorted) == multiset(sizes)
      && (sizes != [] ==> (sorted[0] == 0 <==> 0 in sizes))
  {
    SortSizesSorts(sizes);
    var sorted := SortSizes(sizes);
    assert |multiset(sorted)| == |sorted| && |multiset(sizes)| == |sizes|;
    if 0 in sizes {
      assert 0 in multiset(sorted);
      var i :| 0 <= i < |sorted| && sorted[i] == 0;
    }
    if sorted != [] {
      assert sorted[0] in multiset(sizes);
    }
  }
}
