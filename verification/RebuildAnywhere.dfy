/**
  What a rebuild makes of memory that holds anything at all. The scan compares where a block starts with the end
  of the pool, not where it ends; when it has gone past the end, and only then, the result is no pool.
 */
module RebuildAnywhere {
  import opened Bits
  import opened Descriptor
  import opened Options
  import opened PoolModel
  import opened PoolAnswers
  import opened Heap
  import opened PoolRefinement

  /** The allocator with the block that the scan has found behind the last one. */
  function Found(w: World, h: Heap, s: Scan): Heap
    requires s.FoundBlock? && s.bucket < |h.free|
  {
    var bd := ReadBD(w.mem, DescAt(NextOff(h)));
    Append(h, s.bucket, !s.free, bd.actualSize, bd.nextOffset)
  }

  /** What it takes for the scan to find a block, in terms of the descriptor. */
  lemma FoundShows(w: World, h: Heap, s: Scan)
    requires Represents(w, h) && s == ScanTail(w) && s.FoundBlock?
    ensures s.bucket < |h.free| == |w.pool.buckets| == |h.cfg.sizes| && s.offset == NextOff(h) <= h.cfg.maxOffset
    ensures var bd := ReadBD(w.mem, DescAt(NextOff(h)));
      && bd.checkBits == CHECK_PATTERN && bd.actualSize <= h.cfg.sizes[s.bucket]
      && bd.mark == (if s.free then MEMORY_DEALLOCATED else MEMORY_ALLOCATED) + |h.free| - s.bucket
  {
    hide ReadBD; hide NextBlock; hide AlignUp; hide MemShows; hide FreeStacks; hide Chained; hide BlocksIn; hide LinkTo;
    hide Roomy; hide IsPow2;
    NextBlockIs(w, h);
    var bd := ReadBD(w.mem, DescAt(NextOff(h)));
    var live, freed := ToU16(bd.mark - MEMORY_ALLOCATED), ToU16(bd.mark - MEMORY_DEALLOCATED);
    BucketIndexRange(w.pool, live);
    BucketIndexRange(w.pool, freed);
    assert BucketShown(w.pool.buckets[s.bucket], h, s.bucket);
    MarkOf(bd.mark, if s.free then MEMORY_DEALLOCATED else MEMORY_ALLOCATED, |h.free| - s.bucket);
    hide BucketIndex; hide ToU16; hide ToU32; hide ValidHeap;
  }

  /** A block found that ends within the pool belongs to an allocator. */
  lemma AdoptRepresents(w: World, h: Heap, s: Scan)
    requires Represents(w, h) && s == ScanTail(w) && s.FoundBlock?
    requires s.bucket < |h.free| == |h.cfg.sizes| && NextOff(h) + h.cfg.sizes[s.bucket] <= h.cfg.maxOffset
    ensures Represents(Adopt(w, s), Found(w, h, s))
  {
    hide ReadBD; hide WriteBD; hide ScanTail; hide AdoptRecord; hide AlignUp; hide FreeStacks; hide Chained;
    hide BlocksIn; hide IsPow2; hide BlockShown; hide AndNot; hide Roomy;
    FoundShows(w, h, s);
    NextBlockIs(w, h);
    var at := DescAt(NextOff(h));
    var bd := ReadBD(w.mem, at);
    AppendValid(h, s.bucket, !s.free, bd.actualSize, bd.nextOffset);
    AppendRecord(w, h, s.bucket, !s.free, bd.actualSize, bd.nextOffset);
    assert BucketShown(w.pool.buckets[s.bucket], h, s.bucket);
    var kept := if s.free then bd.(nextOffset := w.pool.buckets[s.bucket].firstOffset) else bd;
    AppendShows(w, h, s.bucket, !s.free, bd.actualSize, bd.nextOffset, kept);
    WriteRead(w.mem, at);
    hide MemShows; hide RecordShows; hide ValidHeap;
  }

  /** A block found that ends past the pool is the last one. */
  lemma AdoptPastEnd(w: World, h: Heap, s: Scan)
    requires Represents(w, h) && s == ScanTail(w) && s.FoundBlock?
    requires s.bucket < |h.free| == |h.cfg.sizes| && NextOff(h) + h.cfg.sizes[s.bucket] > h.cfg.maxOffset
    ensures Roomy(w.pool) && Roomy(Adopt(w, s).pool)
    ensures var r := Adopt(w, s); r.pool.tail > r.pool.maxOffset == h.cfg.maxOffset && Rebuild(r) == r
  {
    hide ReadBD; hide AlignUp; hide FreeStacks; hide Chained; hide MemShows; hide BlocksIn; hide IsPow2; hide AndNot;
    hide NextBlock; hide BucketIndex; hide ToU16; hide ToU32;
    NextBlockIs(w, h);
    assert BucketShown(w.pool.buckets[s.bucket], h, s.bucket);
    AdoptRoomy(w.pool, s);
    var r := Adopt(w, s);
    NextBlockBounds(r.pool);
    assert ScanTail(r).NoBlock?;
  }

  /**
    The rebuild of a record over any memory yields a pool that represents an allocator if and only if the tail it
    arrives at lies within the pool.
   */
  lemma {:induction false} RebuildAny(w: World, h: Heap)
    requires Represents(w, h)
    ensures Roomy(w.pool) && Rebuild(w).pool.maxOffset == h.cfg.maxOffset
    ensures (exists h' :: Represents(Rebuild(w), h') && h'.cfg == h.cfg) <==> Rebuild(w).pool.tail <= h.cfg.maxOffset
    decreases h.cfg.maxOffset - w.pool.tail
  {
    NextBlockIs(w, h);
    TailInside(w, h);
    hide Represents; hide Roomy; hide ScanTail; hide AdoptRecord; hide NextBlock; hide ReadBD; hide NextOff;
    var s := ScanTail(w);
    if s.NoBlock? {
      assert Rebuild(w) == w;
    } else {
      FoundShows(w, h, s);
      AdoptRoomy(w.pool, s);
      if NextOff(h) + h.cfg.sizes[s.bucket] <= h.cfg.maxOffset {
        AdoptRepresents(w, h, s);
        TailInside(Adopt(w, s), Found(w, h, s));
        RebuildAny(Adopt(w, s), Found(w, h, s));
      } else {
        AdoptPastEnd(w, h, s);
        if h' :| Represents(Rebuild(w), h') {
          TailInside(Rebuild(w), h');
          assert false;
        }
      }
    }
  }

  lemma TailInside(w: World, h: Heap)
    requires Represents(w, h)
    ensures w.pool.tail <= h.cfg.maxOffset == w.pool.maxOffset
  {
    hide ReadBD; hide FreeStacks; hide Chained; hide AlignUp;
  }

  /** For a record just initialized, over whatever memory it is given. */
  lemma RebuildFresh(was: Pool, mem: seq<byte>, start: size_t, poolSize: size_t, alignSize: size_t, sizes: seq<size_t>)
    requires GoodArguments(alignSize, sizes)
    requires start + poolSize <= |mem| && |sizes| <= MAX_BUCKETS && Ample(start, poolSize, alignSize, sizes)
    ensures var p := Initialize(was, start, poolSize, alignSize, sizes).0;
      && Roomy(p)
      && ((exists h :: Represents(Rebuild(World(p, mem)), h)
                       && h.cfg == Config(start, start + poolSize, p.alignMask, SortSizes(sizes)))
          <==> Rebuild(World(p, mem)).pool.tail <= start + poolSize)
  {
    InitializeAnswers(was, start, poolSize, alignSize, sizes);
    InitializeRefines(was, mem, start, poolSize, alignSize, sizes);
    hide Initialize; hide Represents; hide Rebuild; hide SortSizes; hide Roomy; hide Ample;
    var p := Initialize(was, start, poolSize, alignSize, sizes).0;
    RebuildAny(World(p, mem), Fresh(Config(start, start + poolSize, p.alignMask, SortSizes(sizes))));
  }

  /** A used pool of 100 bytes with blocks of 8, set up again with blocks of 96, is rebuilt to a tail of 120. */
  lemma RebuildOverruns(mem: seq<byte>)
    requires |mem| == 100
    ensures var (before, first) := Initialize(ZERO_POOL, 0, 100, 0, [8]);
      && first == Success && |before.buckets| == 1
      && var used := GetBlock(World(before, mem), 8);
      && var (p, second) := Initialize(ZERO_POOL, 0, 100, 0, [96]);
      used.status == Success && second == Success && Roomy(p) && Rebuild(World(p, used.world.mem)).pool.tail == 120
  {
    var before := OneBucket(mem, 8);
    var p := OneBucket(mem, 96);
    var c := Config(0, 100, 0, [96]);
    var used := OneBlockOf8(World(before, mem));
    var w := World(p, used.mem);
    FreshAnywhere(World(p, mem), c, used.mem);
    OneBlockFound(w, c);
    hide Represents; hide ScanTail; hide GetBlock; hide Initialize; hide ReadBD; hide AdoptRecord;
    AdoptPastEnd(w, Fresh(c), ScanTail(w));
    Overrun(w, c);
  }

  /** A pool of 100 bytes with one bucket. */
  lemma OneBucket(mem: seq<byte>, size: size_t) returns (p: Pool)
    requires |mem| == 100 && 0 < size < 100
    ensures Initialize(ZERO_POOL, 0, 100, 0, [size]) == (p, Success) && |p.buckets| == 1
    ensures Represents(World(p, mem), Fresh(Config(0, 100, 0, [size])))
  {
    var sizes := [size];
    assert SortSizes(sizes) == sizes by { assert sizes[1..] == []; }
    p := Initialize(ZERO_POOL, 0, 100, 0, sizes).0;
    InitializeRefines(ZERO_POOL, mem, 0, 100, 0, sizes);
  }

  lemma OneBlockOf8(w: World) returns (used: World)
    requires Represents(w, Fresh(Config(0, 100, 0, [8])))
    ensures |w.pool.buckets| == 1 && GetBlock(w, 8) == Outcome(used, Success, DESC)
    ensures |used.mem| >= 100
    ensures var bd := ReadBD(used.mem, 0);
            bd.checkBits == CHECK_PATTERN && bd.mark == MEMORY_ALLOCATED + 1 && bd.actualSize == 8
  {
    var h := Fresh(Config(0, 100, 0, [8]));
    GetRefines(w, h, 8);
    AndNotZero(DESC);
    used := GetBlock(w, 8).world;
    var h1 := Get(h, 8).heap;
    assert Fit([8], 8) == 0;
    hide ReadBD; hide GetBlock;
    assert h1.blocks == [Block(DESC, 0, true, 8, 0)];
    assert BlockShown(used.mem, h1, 0);
  }

  lemma OneBlockFound(w: World, c: Config)
    requires c == Config(0, 100, 0, [96]) && Represents(w, Fresh(c))
    requires ReadBD(w.mem, 0).checkBits == CHECK_PATTERN && ReadBD(w.mem, 0).mark == MEMORY_ALLOCATED + 1
    requires ReadBD(w.mem, 0).actualSize == 8
    ensures ScanTail(w) == FoundBlock(DESC, 0, false) && NextOff(Fresh(c)) == DESC
  {
    hide ReadBD; hide IsPow2; hide Roomy;
    AndNotZero(DESC);
    NextBlockIs(w, Fresh(c));
    assert BucketShown(w.pool.buckets[0], Fresh(c), 0);
    BucketIndexRange(w.pool, 1);
    BucketIndexRange(w.pool, ToU16(MEMORY_ALLOCATED + 1 - MEMORY_DEALLOCATED));
    hide BucketIndex;
  }

  lemma Overrun(w: World, c: Config)
    requires c == Config(0, 100, 0, [96]) && Represents(w, Fresh(c)) && ScanTail(w) == FoundBlock(DESC, 0, false)
    ensures |w.pool.buckets| == 1 && Adopt(w, ScanTail(w)).pool.tail == 120
    ensures Roomy(w.pool) && Rebuild(w) == Rebuild(Adopt(w, ScanTail(w)))
  {
    NextBlockIs(w, Fresh(c));
    assert BucketShown(w.pool.buckets[0], Fresh(c), 0);
    hide ReadBD; hide ScanTail; hide Roomy; hide IsPow2;
  }
}
