/**
  Rebuilding: when the pool record is lost, the scan over pool memory recovers the allocator, exactly
  when the bytes after the last block do not look like one more block.
 */
module PoolRebuild {
  import opened Bits
  import opened Descriptor
  import opened Options
  import opened PoolModel
  import opened Heap
  import opened PoolRefinement

  /** The allocator after the scan has taken in the first k blocks. */
  function RebuiltTo(h: Heap, k: nat): (r: Heap)
    requires ValidHeap(h) && k <= |h.blocks|
    ensures r.cfg == h.cfg && |r.free| == |h.cfg.sizes| && |r.blocks| == k
  {
    if k == 0 then Fresh(h.cfg)
    else
      assert InChain(h.cfg, h.blocks, k - 1);
      var block := h.blocks[k - 1];
      Append(RebuiltTo(h, k - 1), block.bucket, block.live, block.actual, block.next)
  }

  /** What the scan recovers from memory. */
  function Rebuilt(h: Heap): Heap
    requires ValidHeap(h)
  {
    RebuiltTo(h, |h.blocks|)
  }

  /** The links between free blocks are rewritten; nothing else about a block changes. */
  predicate SameBlock(a: Block, b: Block) {
    a.off == b.off && a.bucket == b.bucket && a.live == b.live && a.actual == b.actual
  }

  lemma {:induction false} RebuiltLayout(h: Heap, k: nat)
    requires ValidHeap(h) && k <= |h.blocks|
    ensures ValidHeap(RebuiltTo(h, k)) && End(RebuiltTo(h, k)) == EndAt(h.cfg, h.blocks, k)
    ensures forall i :: 0 <= i < k ==> SameBlock(RebuiltTo(h, k).blocks[i], h.blocks[i])
  {
    hide AlignUp; hide Chained; hide FreeStacks; hide LinkTo; hide ValidConfig;
    if k > 0 {
      RebuiltLayout(h, k - 1);
      NextRebuilt(h, k - 1);
      var block := h.blocks[k - 1];
      AppendValid(RebuiltTo(h, k - 1), block.bucket, block.live, block.actual, block.next);
    } else {
      FreshValid(h.cfg);
    }
  }

  lemma FreshValid(c: Config)
    requires ValidConfig(c)
    ensures ValidHeap(Fresh(c))
  {}

  lemma ChainAt(h: Heap, k: nat)
    requires ValidHeap(h) && k < |h.blocks|
    ensures h.blocks[k].off == AlignUp(EndAt(h.cfg, h.blocks, k) + DESC, h.cfg.mask)
    ensures h.blocks[k].bucket < |h.cfg.sizes| && h.blocks[k].actual <= h.cfg.sizes[h.blocks[k].bucket]
    ensures h.blocks[k].off + h.cfg.sizes[h.blocks[k].bucket] <= End(h) <= h.cfg.maxOffset
  {
    hide AlignUp; hide FreeStacks; hide IsPow2;
    assert InChain(h.cfg, h.blocks, k);
    BlockWithin(h.cfg, h.blocks, k);
  }

  /** After k blocks the scan looks where block k is. */
  lemma NextRebuilt(h: Heap, k: nat)
    requires ValidHeap(h) && k < |h.blocks| && End(RebuiltTo(h, k)) == EndAt(h.cfg, h.blocks, k)
    ensures NextOff(RebuiltTo(h, k)) == h.blocks[k].off
    ensures h.blocks[k].bucket < |h.cfg.sizes| && h.blocks[k].actual <= h.cfg.sizes[h.blocks[k].bucket]
    ensures h.blocks[k].off + h.cfg.sizes[h.blocks[k].bucket] <= End(h) <= h.cfg.maxOffset
  {
    hide AlignUp; hide RebuiltTo; hide ValidHeap; hide End; hide EndAt;
    ChainAt(h, k);
  }

  /** The blocks the scan has not reached still have their descriptors. */
  predicate Pending(mem: seq<byte>, h: Heap, k: nat) {
    forall j {:trigger BlockShown(mem, h, j)} :: k <= j < |h.blocks| ==> BlockShown(mem, h, j)
  }

  predicate NoneRecycled(p: Pool) { forall b :: 0 <= b < |p.buckets| ==> p.buckets[b].recycleCount == 0 }

  /** The state of the scan after k blocks. */
  predicate Scanned(w: World, h: Heap, k: nat)
    requires ValidHeap(h) && k <= |h.blocks|
  {
    Represents(w, RebuiltTo(h, k)) && Pending(w.mem, h, k) && NoneRecycled(w.pool)
  }

  lemma ScanReads(w: World, bd: BD, bucket: nat, released: bool)
    requires NextBlock(w.pool) <= w.pool.maxOffset && bd == ReadBD(w.mem, DescOf(NextBlock(w.pool)))
    requires bd.checkBits == CHECK_PATTERN && bucket < |w.pool.buckets|
    requires bd.actualSize <= w.pool.buckets[bucket].blockSize
    requires BucketIndex(w.pool, ToU16(bd.mark - MEMORY_DEALLOCATED)) == if released then Some(bucket) else None
    requires !released ==> BucketIndex(w.pool, ToU16(bd.mark - MEMORY_ALLOCATED)) == Some(bucket)
    ensures ScanTail(w) == FoundBlock(NextBlock(w.pool), bucket, released)
  {
    hide ReadBD; hide NextBlock; hide BucketIndex; hide ToU16; hide DescOf;
  }

  lemma ScanFinds(w: World, h: Heap, k: nat)
    requires ValidHeap(h) && k < |h.blocks| && Scanned(w, h, k)
    ensures h.blocks[k].off < SIZE_T && NextOff(RebuiltTo(h, k)) == h.blocks[k].off
    ensures h.blocks[k].bucket < |w.pool.buckets| == |h.cfg.sizes|
    ensures ScanTail(w) == FoundBlock(h.blocks[k].off, h.blocks[k].bucket, !h.blocks[k].live)
  {
    hide ReadBD; hide AndNot; hide IsPow2; hide RebuiltTo; hide Chained; hide FreeStacks; hide MemShows;
    hide BucketIndex; hide Roomy; hide LinkTo; hide BlocksIn; hide AlignUp; hide NextBlock;
    var r, block := RebuiltTo(h, k), h.blocks[k];
    RebuiltLayout(h, k);
    assert |w.pool.buckets| <= MAX_BUCKETS;
    hide ValidHeap; hide NextOff; hide ValidConfig;
    NextRebuilt(h, k);
    NextBlockIs(w, r);
    assert BlockShown(w.mem, h, k);
    assert BucketShown(w.pool.buckets[block.bucket], r, block.bucket);
    var bd := ReadBD(w.mem, DescAt(block.off));
    MarkMeans(w.pool, bd, block);
    hide ScanTail;
    ScanReads(w, bd, block.bucket, !block.live);
  }

  /** The descriptor written for block k is the scanned one with its link renewed. */
  function Linked(w: World, h: Heap, k: nat): BD
    requires ValidHeap(h) && k < |h.blocks| && Scanned(w, h, k)
  {
    ScanFinds(w, h, k);
    var bd := ReadBD(w.mem, DescAt(h.blocks[k].off));
    if h.blocks[k].live then bd else bd.(nextOffset := w.pool.buckets[h.blocks[k].bucket].firstOffset)
  }

  lemma AdoptMemory(w: World, h: Heap, k: nat)
    requires ValidHeap(h) && k < |h.blocks| && Scanned(w, h, k)
    ensures ScanTail(w).FoundBlock?
    ensures Adopt(w, ScanTail(w)).mem == WriteBD(w.mem, DescAt(h.blocks[k].off), Linked(w, h, k))
  {
    hide ReadBD; hide WriteBD; hide ScanTail; hide RebuiltTo; hide Represents; hide Pending; hide AdoptRecord;
    hide Chained; hide FreeStacks; hide ValidConfig;
    ScanFinds(w, h, k);
    BlockWithin(h.cfg, h.blocks, k);
    WriteRead(w.mem, DescAt(h.blocks[k].off));
  }

  lemma AdoptShows(w: World, h: Heap, k: nat)
    requires ValidHeap(h) && k < |h.blocks| && Scanned(w, h, k)
    ensures ScanTail(w).FoundBlock?
    ensures MemShows(Adopt(w, ScanTail(w)).mem, RebuiltTo(h, k + 1))
    ensures Pending(Adopt(w, ScanTail(w)).mem, h, k + 1)
  {
    hide ReadBD; hide WriteBD; hide AndNot; hide IsPow2; hide Adopt; hide ScanTail;
    ScanFinds(w, h, k);
    AdoptMemory(w, h, k);
    var r, block, bd := RebuiltTo(h, k), h.blocks[k], Linked(w, h, k);
    assert BlockShown(w.mem, h, k);
    assert BucketShown(w.pool.buckets[block.bucket], r, block.bucket);
    RebuiltLayout(h, k);
    NextRebuilt(h, k);
    AppendShows(w, r, block.bucket, block.live, block.actual, block.next, bd);
    StillPending(w, h, k, bd);
  }

  lemma StillPending(w: World, h: Heap, k: nat, bd: BD)
    requires ValidHeap(h) && k < |h.blocks| && Scanned(w, h, k)
    ensures Pending(WriteBD(w.mem, DescAt(h.blocks[k].off), bd), h, k + 1)
  {
    hide ReadBD; hide AndNot; hide IsPow2; hide RebuiltTo; hide Represents;
    BlockWithin(h.cfg, h.blocks, k);
    forall j | k + 1 <= j < |h.blocks|
      ensures BlockShown(WriteBD(w.mem, DescAt(h.blocks[k].off), bd), h, j)
    {
      assert BlockShown(w.mem, h, j);
      BlocksOrdered(h.cfg, h.blocks, k, j);
      ReadElsewhere(w.mem, DescAt(h.blocks[k].off), Encode(bd), DescAt(h.blocks[j].off));
    }
  }

  lemma ScanStep(w: World, h: Heap, k: nat)
    requires ValidHeap(h) && k < |h.blocks| && Scanned(w, h, k)
    ensures ScanTail(w).FoundBlock? && Scanned(Adopt(w, ScanTail(w)), h, k + 1)
    ensures SameBeyond(w.mem, Adopt(w, ScanTail(w)).mem, End(h))
  {
    hide ReadBD; hide WriteBD; hide AndNot; hide IsPow2; hide ScanTail; hide MemShows; hide FreeStacks;
    ScanFinds(w, h, k);
    var r, block := RebuiltTo(h, k), h.blocks[k];
    RebuiltLayout(h, k);
    NextRebuilt(h, k);
    RebuiltLayout(h, k + 1);
    AppendRecord(w, r, block.bucket, block.live, block.actual, block.next);
    AdoptShows(w, h, k);
    AdoptMemory(w, h, k);
    BlockWithin(h.cfg, h.blocks, k);
    BeyondWrite(w.mem, DescAt(block.off), Linked(w, h, k), End(h));
  }

  predicate SameBeyond(mem: seq<byte>, mem': seq<byte>, from: nat) {
    |mem'| == |mem| && forall i :: from <= i < |mem| ==> mem'[i] == mem[i]
  }

  lemma BeyondWrite(mem: seq<byte>, at: nat, bd: BD, from: nat)
    requires at + DESC <= from
    ensures SameBeyond(mem, WriteBD(mem, at, bd), from)
  {}

  /** The scan runs through all blocks. */
  lemma {:induction false} ScanAll(w: World, h: Heap, k: nat) returns (w': World)
    requires ValidHeap(h) && k <= |h.blocks| && Scanned(w, h, k)
    ensures Scanned(w', h, |h.blocks|) && SameBeyond(w.mem, w'.mem, End(h))
    ensures Roomy(w.pool) && Roomy(w'.pool) && Rebuild(w) == Rebuild(w')
    decreases |h.blocks| - k
  {
    hide ReadBD; hide AndNot; hide IsPow2; hide Scanned; hide ScanTail; hide Adopt;
    ScannedRoomy(w, h, k);
    if k == |h.blocks| {
      w' := w;
    } else {
      ScanStep(w, h, k);
      w' := ScanAll(Adopt(w, ScanTail(w)), h, k + 1);
    }
  }

  lemma ScannedRoomy(w: World, h: Heap, k: nat)
    requires ValidHeap(h) && k <= |h.blocks| && Scanned(w, h, k)
    ensures Roomy(w.pool)
  {
    NextBlockIs(w, RebuiltTo(h, k));
  }

  /** The scan's view past the last block does not depend on the bytes before it. */
  lemma ScanPastEnd(w: World, h: Heap, w': World, h': Heap)
    requires Represents(w, h) && Represents(w', h') && h'.cfg == h.cfg && End(h') == End(h)
    requires SameBeyond(w.mem, w'.mem, End(h))
    ensures ScanTail(w') == ScanTail(w)
  {
    hide ReadBD; hide AndNot; hide IsPow2; hide MemShows; hide FreeStacks; hide Chained; hide Roomy;
    hide LinkTo; hide BlocksIn; hide AlignUp; hide ValidConfig; hide NextBlock; hide ToU16;
    NextBlockIs(w, h);
    NextBlockIs(w', h');
    ReadSameBytes(w.mem, w'.mem, DescAt(NextOff(h)));
    forall b | 0 <= b < |h.free| ensures w.pool.buckets[b].blockSize == w'.pool.buckets[b].blockSize {
      assert BucketShown(w.pool.buckets[b], h, b) && BucketShown(w'.pool.buckets[b], h', b);
    }
  }

  lemma {:induction false} RebuildGrows(w: World)
    requires Roomy(w.pool)
    ensures Rebuild(w).pool.tail >= w.pool.tail
    ensures ScanTail(w).FoundBlock? ==> Rebuild(w).pool.tail > w.pool.tail
    decreases if w.pool.tail <= w.pool.maxOffset then w.pool.maxOffset - w.pool.tail else 0
  {
    hide ReadBD; hide AndNot; hide IsPow2; hide Roomy; hide ScanTail; hide AdoptRecord;
    var s := ScanTail(w);
    if s.FoundBlock? {
      AdoptRoomy(w.pool, s);
      RebuildGrows(Adopt(w, s));
    }
  }

  // The recovered allocator against the lost one

  function FreeIn(blocks: seq<Block>, b: nat): set<nat> {
    set i | 0 <= i < |blocks| && blocks[i].bucket == b && !blocks[i].live
  }

  lemma StackElements(h: Heap, b: nat)
    requires ValidHeap(h) && b < |h.free|
    ensures Elements(h.free[b]) == FreeIn(h.blocks, b)
    ensures |h.free[b]| == |FreeIn(h.blocks, b)|
  {
    hide Chained; hide ValidConfig;
    DistinctSize(h.free[b]);
    forall i | i in Elements(h.free[b]) ensures i in FreeIn(h.blocks, b) {
      var k :| 0 <= k < |h.free[b]| && h.free[b][k] == i;
      assert OnStack(h, b, k);
    }
  }

  /** The same blocks are recovered, in use and free, each in its bucket. */
  lemma RebuiltSame(h: Heap, b: nat)
    requires ValidHeap(h) && b < |h.free|
    ensures ValidHeap(Rebuilt(h)) && Rebuilt(h).cfg == h.cfg && End(Rebuilt(h)) == End(h)
    ensures |Rebuilt(h).blocks| == |h.blocks| && |Rebuilt(h).free| == |h.free|
    ensures forall i :: 0 <= i < |h.blocks| ==> SameBlock(Rebuilt(h).blocks[i], h.blocks[i])
    ensures BlocksIn(Rebuilt(h).blocks, b) == BlocksIn(h.blocks, b)
    ensures Elements(Rebuilt(h).free[b]) == Elements(h.free[b]) && |Rebuilt(h).free[b]| == |h.free[b]|
  {
    hide Chained; hide ValidConfig; hide RebuiltTo;
    RebuiltLayout(h, |h.blocks|);
    StackElements(h, b);
    StackElements(Rebuilt(h), b);
    assert FreeIn(Rebuilt(h).blocks, b) == FreeIn(h.blocks, b);
  }

  /** Freed blocks come back highest address first. */
  lemma {:induction false} RebuiltStackOrder(h: Heap, k: nat, b: nat)
    requires ValidHeap(h) && k <= |h.blocks| && b < |h.free|
    ensures forall j :: 0 <= j < |RebuiltTo(h, k).free[b]| ==> RebuiltTo(h, k).free[b][j] < k
    ensures forall i, j :: 0 <= i < j < |RebuiltTo(h, k).free[b]|
              ==> RebuiltTo(h, k).free[b][i] > RebuiltTo(h, k).free[b][j]
  {
    hide Chained; hide ValidConfig;
    if k > 0 { RebuiltStackOrder(h, k - 1, b); }
  }

  /** The counters of one bucket before the loss and after the rebuild. */
  predicate CountersRecovered(was: Bucket, now: Bucket) {
    && now.blockSize == was.blockSize
    && now.allocationCount == was.allocationCount
    && now.releaseCount == ToU32(was.releaseCount - was.recycleCount)
    && now.recycleCount == 0
  }

  /**
    The rebuild of a lost record recovers the tail exactly when no block seems to follow the last one.
    It then recovers the allocator: the same blocks with the same sizes, the same free blocks, and every counter.
   */
  lemma RebuildRecovers(w: World, h: Heap, lost: Pool)
    requires Represents(w, h)
    requires Represents(World(lost, w.mem), Fresh(h.cfg)) && NoneRecycled(lost)
    ensures Roomy(lost)
    ensures var r := Rebuild(World(lost, w.mem));
      && (r.pool.tail == w.pool.tail <==> ScanTail(w).NoBlock?)
      && (ScanTail(w).NoBlock? ==>
            && Represents(r, Rebuilt(h))
            && r.pool.allocationCount == w.pool.allocationCount
            && |r.pool.buckets| == |w.pool.buckets|
            && forall b :: 0 <= b < |r.pool.buckets| ==> CountersRecovered(w.pool.buckets[b], r.pool.buckets[b]))
  {
    var w' := ScanToEnd(w, h, lost);
    hide ReadBD; hide ScanTail; hide Roomy; hide Represents; hide CountersRecovered; hide NoneRecycled; hide ValidHeap;
    RebuildGrows(w');
    if ScanTail(w).NoBlock? { assert Rebuild(w') == w'; }
  }

  /** After the last block, the scan stands where the lost record stood. */
  lemma ScanToEnd(w: World, h: Heap, lost: Pool) returns (w': World)
    requires Represents(w, h)
    requires Represents(World(lost, w.mem), Fresh(h.cfg)) && NoneRecycled(lost)
    ensures Roomy(lost) && Roomy(w'.pool) && Rebuild(World(lost, w.mem)) == Rebuild(w')
    ensures Represents(w', Rebuilt(h)) && ScanTail(w') == ScanTail(w)
    ensures w'.pool.tail == w.pool.tail && w'.pool.allocationCount == w.pool.allocationCount
    ensures |w'.pool.buckets| == |w.pool.buckets|
    ensures forall b :: 0 <= b < |w'.pool.buckets| ==> CountersRecovered(w.pool.buckets[b], w'.pool.buckets[b])
  {
    hide ReadBD; hide AndNot; hide IsPow2; hide ScanTail; hide Roomy; hide FreeStacks; hide Chained; hide Rebuild;
    var w0 := World(lost, w.mem);
    assert Scanned(w0, h, 0);
    w' := ScanAll(w0, h, 0);
    RebuiltLayout(h, |h.blocks|);
    ScanPastEnd(w, h, w', Rebuilt(h));
    forall b | 0 <= b < |w'.pool.buckets| ensures CountersRecovered(w.pool.buckets[b], w'.pool.buckets[b]) {
      RebuiltSame(h, b);
      assert BucketShown(w.pool.buckets[b], h, b) && BucketShown(w'.pool.buckets[b], Rebuilt(h), b);
    }
  }

  // Memory that was a pool before

  /**
    A record set up again over the memory of a pool, and lost before it is used, is not recovered: the scan
    takes in all blocks of the old pool, and if none seems to follow, it brings the old pool back.
   */
  lemma OldBlocksReturn(w: World, h: Heap, again: Pool)
    requires Represents(w, h) && h.blocks != []
    requires Represents(World(again, w.mem), Fresh(h.cfg)) && NoneRecycled(again)
    ensures ScanTail(World(again, w.mem)).FoundBlock?
    ensures Roomy(again)
    ensures var r := Rebuild(World(again, w.mem));
      && again.tail < w.pool.tail <= r.pool.tail
      && (ScanTail(w).NoBlock? ==> r.pool.tail == w.pool.tail && Represents(r, Rebuilt(h)))
  {
    hide ReadBD; hide AndNot; hide IsPow2; hide ScanTail; hide Roomy; hide FreeStacks; hide Chained;
    var w0 := World(again, w.mem);
    assert Scanned(w0, h, 0);
    ScanFinds(w0, h, 0);
    RebuildRecovers(w, h, again);
    var w' := ScanAll(w0, h, 0);
    RebuiltLayout(h, |h.blocks|);
    RebuildGrows(w');
    BlockWithin(h.cfg, h.blocks, 0);
  }

  /**
    Nor is it after its first block, where that is the block the old pool began with: the old pool's second
    block is still marked behind the tail.
   */
  lemma OldBlockFollows(w: World, h: Heap, again: Pool, req: size_t)
    requires OldPool(w, h, again, req)
    ensures var o := GetBlock(World(again, w.mem), req);
      && o.status == Success && o.value == h.blocks[0].off
      && Represents(o.world, Get(Fresh(h.cfg), req).heap) && ScanTail(o.world).FoundBlock?
      && Roomy(again) && Rebuild(World(again, o.world.mem)).pool.tail != o.world.pool.tail
  {
    var o, h' := GetBlock(World(again, w.mem), req), Unlinked(h);
    FirstAgain(w, h, again, req);
    hide OldPool; hide GetBlock; hide RebuiltTo; hide ReadBD; hide ScanTail; hide AndNot; hide Unlinked;
    ScanFinds(o.world, h', 1);
    RebuiltLayout(h', 1);
    RebuildRecovers(o.world, RebuiltTo(h', 1), again);
  }

  /** `again` is set up anew over a pool whose first block is in use with the size of the request. */
  predicate OldPool(w: World, h: Heap, again: Pool, req: size_t) {
    && Represents(w, h) && |h.blocks| >= 2 && h.blocks[0].live && h.blocks[0].actual == req
    && Fit(h.cfg.sizes, req) == h.blocks[0].bucket
    && Represents(World(again, w.mem), Fresh(h.cfg)) && NoneRecycled(again)
  }

  /** The first block with its link cleared. */
  function Unlinked(h: Heap): Heap
    requires h.blocks != []
  {
    h.(blocks := h.blocks[0 := h.blocks[0].(next := 0)])
  }

  lemma UnlinkedValid(h: Heap)
    requires ValidHeap(h) && h.blocks != [] && h.blocks[0].live
    ensures ValidHeap(Unlinked(h))
  {
    var h' := Unlinked(h);
    ChainedFrame(h, h');
    forall b, k | 0 <= b < |h'.free| && 0 <= k < |h'.free[b]| ensures OnStack(h', b, k) {
      assert OnStack(h, b, k);
      assert LinkTo(h', b, k + 1) == LinkTo(h, b, k + 1);
    }
  }

  lemma FirstAgain(w: World, h: Heap, again: Pool, req: size_t)
    requires OldPool(w, h, again, req)
    ensures var (o, h') := (GetBlock(World(again, w.mem), req), Unlinked(h));
      && o.status == Success && o.value == h.blocks[0].off
      && ValidHeap(h') && RebuiltTo(h', 1) == Get(Fresh(h.cfg), req).heap
      && Scanned(o.world, h', 1) && Represents(World(again, o.world.mem), Fresh(h.cfg))
  {
    hide ReadBD; hide WriteBD; hide AndNot; hide IsPow2; hide FreeStacks; hide Chained; hide Create; hide Recycle;
    hide AlignUp;
    var w0, c, b := World(again, w.mem), Fresh(h.cfg), h.blocks[0].bucket;
    UnlinkedValid(h);
    assert Scanned(w0, h, 0);
    RebuiltLayout(h, 0);
    NextRebuilt(h, 0);
    GetRefines(w0, c, req);
    assert RebuiltTo(Unlinked(h), 0) == c;
    assert RebuiltTo(Unlinked(h), 1) == Append(c, b, true, req, 0);
    FitIsFirstFit(w0, c, req);
    RecycleRefuses(w0, c, b, req);
    CreateComputes(w0, c, b, req);
    var bd := Carved(ReadBD(w0.mem, DescAt(NextOff(c))), |c.free| - b, req);
    StillPending(w0, h, 0, bd);
    PendingUnlinked(WriteBD(w0.mem, DescAt(NextOff(c)), bd), h);
  }

  lemma PendingUnlinked(mem: seq<byte>, h: Heap)
    requires h.blocks != [] && Pending(mem, h, 1)
    ensures Pending(mem, Unlinked(h), 1)
  {
    hide ReadBD;
    forall j | 1 <= j < |h.blocks| ensures BlockShown(mem, Unlinked(h), j) { assert BlockShown(mem, h, j); }
  }
}
