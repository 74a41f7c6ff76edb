/**
  The generic pool on values: a pool record together with the bytes it manages. Each function does what
  the routine of the same name does, including the modular arithmetic of size_t, uint16 and uint32.
 */
module PoolModel {
  import opened Bits
  import opened Descriptor
  import opened Options

  /** Capacity of the bucket table in a pool record. */
  const MAX_BUCKETS := 17

  datatype Status = Success | BadArgument | MemBlockSize | BufferNotInPool | BlockInvalid

  datatype Bucket = Bucket(blockSize: size_t, firstOffset: size_t,
                           allocationCount: uint32, releaseCount: uint32, recycleCount: uint32)

  /** The first NumBuckets entries of the bucket table are `buckets`. */
  datatype Pool = Pool(totalSize: size_t, maxOffset: size_t, alignMask: size_t, tail: size_t,
                       allocationCount: uint32, validationErrors: uint32, buckets: seq<Bucket>)

  datatype World = World(pool: Pool, mem: seq<byte>)

  /** `value` is the output argument, meaningful on success only. */
  datatype Outcome = Outcome(world: World, status: Status, value: size_t)

  /** The loop over the buckets: the first one large enough, or their number. */
  function FirstFit(buckets: seq<Bucket>, req: size_t): (i: nat)
    ensures i <= |buckets|
    ensures forall j :: 0 <= j < i ==> buckets[j].blockSize < req
    ensures i < |buckets| ==> req <= buckets[i].blockSize
  {
    if buckets == [] || req <= buckets[0].blockSize then 0 else 1 + FirstFit(buckets[1..], req)
  }

  /** Bucket IDs count down from the number of buckets; zero means that no bucket fits. */
  function FindBucket(p: Pool, req: size_t): uint16
    requires |p.buckets| <= MAX_BUCKETS
  {
    |p.buckets| - FirstFit(p.buckets, req)
  }

  /** Index of a bucket ID, computed in 16 bits. */
  function BucketIndex(p: Pool, id: uint16): (r: Option<nat>)
    ensures r.Some? ==> r.value < |p.buckets|
  {
    var index := ToU16(|p.buckets| - id);
    if index >= |p.buckets| then None else Some(index)
  }

  /** An ID is accepted exactly when it is in 1..NumBuckets, in spite of the wrap-around. */
  lemma BucketIndexRange(p: Pool, id: uint16)
    requires |p.buckets| <= MAX_BUCKETS
    ensures BucketIndex(p, id).Some? <==> 1 <= id <= |p.buckets|
    ensures BucketIndex(p, id).Some? ==> BucketIndex(p, id).value == |p.buckets| - id
  {}

  /** Offset of the next block to carve: past a descriptor, rounded up by the alignment mask. */
  function NextBlock(p: Pool): size_t {
    AndNot(ToSize(p.tail + DESC + p.alignMask), p.alignMask)
  }

  function DescOf(blockOffset: size_t): size_t { ToSize(blockOffset - DESC) }

  function SetBucket(p: Pool, b: nat, bucket: Bucket): Pool
    requires b < |p.buckets|
  {
    p.(buckets := p.buckets[b := bucket])
  }

  function Recycle(w: World, id: uint16, newSize: size_t): (o: Outcome)
    ensures o.status != Success ==> o.world == w
  {
    var p := w.pool;
    var index := BucketIndex(p, id);
    if index.None? || p.buckets[index.value].recycleCount == p.buckets[index.value].releaseCount
       || p.buckets[index.value].firstOffset == 0 then
      Outcome(w, BufferNotInPool, 0)
    else
      var bucket := p.buckets[index.value];
      var at := DescOf(bucket.firstOffset);
      var bd := ReadBD(w.mem, at);
      if bd.checkBits != CHECK_PATTERN || ToU16(bd.mark - MEMORY_DEALLOCATED) != id then
        Outcome(w, BufferNotInPool, 0)
      else
        var bd' := bd.(mark := ToU16(MEMORY_ALLOCATED + id), actualSize := newSize, nextOffset := 0);
        var bucket' := bucket.(firstOffset := bd.nextOffset, recycleCount := ToU32(bucket.recycleCount + 1));
        Outcome(World(SetBucket(p, index.value, bucket'), WriteBD(w.mem, at, bd')), Success, bucket.firstOffset)
  }

  function Create(w: World, id: uint16, newSize: size_t): (o: Outcome)
    ensures o.status != Success ==> o.world == w
  {
    var p := w.pool;
    var index := BucketIndex(p, id);
    if index.None? then Outcome(w, BufferNotInPool, 0)
    else
      var bucket := p.buckets[index.value];
      var offset := NextBlock(p);
      var nextTail := ToSize(offset + bucket.blockSize);
      if nextTail > p.maxOffset then Outcome(w, MemBlockSize, 0)
      else
        var at := DescOf(offset);
        var bd' := ReadBD(w.mem, at).(checkBits := CHECK_PATTERN, mark := ToU16(MEMORY_ALLOCATED + id),
                                      actualSize := newSize, nextOffset := 0);
        var bucket' := bucket.(allocationCount := ToU32(bucket.allocationCount + 1));
        var p' := SetBucket(p, index.value, bucket')
                  .(tail := nextTail, allocationCount := ToU32(p.allocationCount + 1));
        Outcome(World(p', WriteBD(w.mem, at, bd')), Success, offset)
  }

  function GetBlock(w: World, req: size_t): Outcome
    requires |w.pool.buckets| <= MAX_BUCKETS
  {
    var id := FindBucket(w.pool, req);
    if id == 0 then Outcome(w, MemBlockSize, 0)
    else
      var recycled := Recycle(w, id, req);
      if recycled.status.Success? then recycled else Create(w, id, req)
  }

  /** Whether the bytes before `offset` look like the descriptor of a block in use; its bucket if so. */
  function UsedBucket(w: World, offset: size_t): (r: Option<nat>)
    ensures r.Some? ==> r.value < |w.pool.buckets|
  {
    var bd := ReadBD(w.mem, DescOf(offset));
    var index := BucketIndex(w.pool, ToU16(bd.mark - MEMORY_ALLOCATED));
    if bd.checkBits != CHECK_PATTERN || index.None? || bd.actualSize == 0
       || w.pool.buckets[index.value].blockSize < bd.actualSize then None
    else index
  }

  /** A descriptor with a mark above a base by the number of a bucket that its size fits. */
  predicate Carries(p: Pool, bd: BD, base: uint16, id: nat) {
    && 1 <= id <= |p.buckets| && bd.checkBits == CHECK_PATTERN && bd.mark == base + id
    && bd.actualSize <= p.buckets[|p.buckets| - id].blockSize
  }

  /** What a descriptor says of a block in use. */
  predicate LooksUsed(p: Pool, bd: BD) {
    bd.actualSize > 0 && exists id {:trigger Carries(p, bd, MEMORY_ALLOCATED, id)} ::
      1 <= id <= |p.buckets| && Carries(p, bd, MEMORY_ALLOCATED, id)
  }

  lemma MarkOf(mark: uint16, base: uint16, id: nat)
    requires base + id < UINT16_T && ToU16(mark - base) == id
    ensures mark == base + id
  {}

  /** An index found from a mark means that the mark carries the number of that bucket. */
  lemma IndexMeans(p: Pool, mark: uint16, base: uint16)
    requires |p.buckets| <= MAX_BUCKETS && base + MAX_BUCKETS < UINT16_T
    ensures var index := BucketIndex(p, ToU16(mark - base));
      && (index.Some? <==> base + 1 <= mark <= base + |p.buckets|)
      && (index.Some? ==> index.value == |p.buckets| - (mark - base))
  {
    var id := ToU16(mark - base);
    BucketIndexRange(p, id);
    if BucketIndex(p, id).Some? { MarkOf(mark, base, id); }
    hide BucketIndex;
  }

  lemma UsedBucketMeans(w: World, offset: size_t)
    requires |w.pool.buckets| <= MAX_BUCKETS && offset >= DESC
    ensures UsedBucket(w, offset).Some? <==> LooksUsed(w.pool, ReadBD(w.mem, offset - DESC))
  {
    hide BucketIndex; hide ReadBD; hide ToU16;
    var p, bd := w.pool, ReadBD(w.mem, offset - DESC);
    assert DescOf(offset) == offset - DESC;
    IndexMeans(p, bd.mark, MEMORY_ALLOCATED);
    if UsedBucket(w, offset).Some? {
      assert Carries(p, bd, MEMORY_ALLOCATED, bd.mark - MEMORY_ALLOCATED);
    }
  }

  function GetBlockSize(w: World, offset: size_t): Outcome {
    if offset >= w.pool.tail || offset < DESC then Outcome(w, BufferNotInPool, 0)
    else if UsedBucket(w, offset).None? then Outcome(w, BlockInvalid, 0)
    else Outcome(w, Success, ReadBD(w.mem, DescOf(offset)).actualSize)
  }

  function PutBlock(w: World, offset: size_t): Outcome {
    var p := w.pool;
    if offset >= p.tail || offset < DESC then Outcome(w, BufferNotInPool, 0)
    else
      var index := UsedBucket(w, offset);
      if index.None? then
        Outcome(w.(pool := p.(validationErrors := ToU32(p.validationErrors + 1))), BlockInvalid, 0)
      else
        var bucket := p.buckets[index.value];
        var at := DescOf(offset);
        var bd := ReadBD(w.mem, at);
        var id := ToU16(bd.mark - MEMORY_ALLOCATED);
        var bd' := bd.(mark := ToU16(MEMORY_DEALLOCATED + id), nextOffset := bucket.firstOffset);
        var bucket' := bucket.(firstOffset := offset, releaseCount := ToU32(bucket.releaseCount + 1));
        Outcome(World(SetBucket(p, index.value, bucket'), WriteBD(w.mem, at, bd')), Success, bd.actualSize)
  }

  datatype Scan = NoBlock | FoundBlock(offset: size_t, bucket: nat, free: bool)

  /** What one round of the rebuild scan finds at the current tail. */
  function ScanTail(w: World): (r: Scan)
    ensures r.FoundBlock? ==> r.bucket < |w.pool.buckets| && r.offset == NextBlock(w.pool)
    ensures r.FoundBlock? ==> r.offset <= w.pool.maxOffset
  {
    var p := w.pool;
    var offset := NextBlock(p);
    if offset > p.maxOffset then NoBlock
    else
      var bd := ReadBD(w.mem, DescOf(offset));
      if bd.checkBits != CHECK_PATTERN then NoBlock
      else
        var released := BucketIndex(p, ToU16(bd.mark - MEMORY_DEALLOCATED));
        var index := if released.Some? then released else BucketIndex(p, ToU16(bd.mark - MEMORY_ALLOCATED));
        if index.None? || p.buckets[index.value].blockSize < bd.actualSize then NoBlock
        else FoundBlock(offset, index.value, released.Some?)
  }

  /** Takes the scanned block into the pool record. */
  function AdoptRecord(p: Pool, s: Scan): Pool
    requires s.FoundBlock? && s.bucket < |p.buckets|
  {
    var bucket := p.buckets[s.bucket];
    var counted := bucket.(allocationCount := ToU32(bucket.allocationCount + 1));
    var bucket' := if s.free
      then counted.(releaseCount := ToU32(bucket.releaseCount + 1), firstOffset := s.offset)
      else counted;
    SetBucket(p, s.bucket, bucket')
    .(tail := ToSize(s.offset + bucket.blockSize), allocationCount := ToU32(p.allocationCount + 1))
  }

  /** Takes the scanned block into the pool, relinking its descriptor when it is free. */
  function Adopt(w: World, s: Scan): World
    requires s.FoundBlock? && s.bucket < |w.pool.buckets|
  {
    var at := DescOf(s.offset);
    var linked := ReadBD(w.mem, at).(nextOffset := w.pool.buckets[s.bucket].firstOffset);
    World(AdoptRecord(w.pool, s), if s.free then WriteBD(w.mem, at, linked) else w.mem)
  }

  /** No addition to an offset inside the pool leaves the range of size_t. */
  predicate Roomy(p: Pool) {
    && IsPow2(p.alignMask + 1)
    && p.tail + DESC + p.alignMask < SIZE_T
    && forall b :: 0 <= b < |p.buckets| ==>
         0 < p.buckets[b].blockSize && p.maxOffset + p.buckets[b].blockSize + DESC + p.alignMask < SIZE_T
  }

  /** Where the next block belongs, without the limits of a word. */
  function Place(p: Pool): nat { AlignUp(p.tail + DESC, p.alignMask) }

  /** The computed offset is the place reduced to a word. */
  lemma NextBlockWraps(p: Pool)
    requires IsPow2(p.alignMask + 1)
    ensures NextBlock(p) == Place(p) % SIZE_T
    ensures p.tail + DESC <= Place(p) <= p.tail + DESC + p.alignMask && Place(p) % (p.alignMask + 1) == 0
  {
    hide IsPow2; hide AndNot;
    AlignUpBounds(p.tail + DESC, p.alignMask);
    AndNotWord(p.tail + DESC + p.alignMask, p.alignMask);
  }

  /** It is the place itself when the sum it is computed from fits a word. */
  lemma NextBlockBounds(p: Pool)
    requires IsPow2(p.alignMask + 1) && p.tail + DESC + p.alignMask < SIZE_T
    ensures NextBlock(p) == AlignUp(p.tail + DESC, p.alignMask)
    ensures p.tail + DESC <= NextBlock(p) <= p.tail + DESC + p.alignMask
  {
    hide IsPow2; hide AndNot;
    AlignUpBounds(p.tail + DESC, p.alignMask);
  }

  /** The end of the block to carve for a bucket leaves the range of size_t and comes to lie within the pool. */
  predicate EndWraps(p: Pool, id: uint16) {
    1 <= id <= |p.buckets| &&
    var end := Place(p) + p.buckets[|p.buckets| - id].blockSize;
    SIZE_T <= end && end % SIZE_T <= p.maxOffset
  }

  lemma RoomyEnds(p: Pool, id: uint16)
    requires Roomy(p) && p.tail <= p.maxOffset
    ensures IsPow2(p.alignMask + 1) && !EndWraps(p, id)
  {
    hide IsPow2; hide AndNot;
    AlignUpBounds(p.tail + DESC, p.alignMask);
  }

  lemma ModSum(a: nat, b: nat)
    ensures (a % SIZE_T + b) % SIZE_T == (a + b) % SIZE_T
  {}

  /** A block that passes the test against the end of the pool has its descriptor within the pool. */
  lemma CarveInside(p: Pool, id: uint16)
    requires |p.buckets| <= MAX_BUCKETS && BucketIndex(p, id).Some? && IsPow2(p.alignMask + 1) && !EndWraps(p, id)
    requires ToSize(NextBlock(p) + p.buckets[BucketIndex(p, id).value].blockSize) <= p.maxOffset
    ensures DescOf(NextBlock(p)) + DESC <= p.maxOffset
  {
    hide IsPow2; hide AndNot; hide Place; hide NextBlock;
    BucketIndexRange(p, id);
    NextBlockWraps(p);
    hide BucketIndex;
    WordEnd(Place(p), p.buckets[|p.buckets| - id].blockSize, p.maxOffset);
    hide ToSize;
  }

  lemma WordEnd(place: nat, size: nat, max: size_t)
    requires place >= DESC && !(SIZE_T <= place + size && (place + size) % SIZE_T <= max)
    requires ToSize(place % SIZE_T + size) <= max
    ensures place % SIZE_T == place && place <= max && DescOf(place) + DESC == place
  {
    ModSum(place, size);
  }

  lemma AdoptRoomy(p: Pool, s: Scan)
    requires Roomy(p)
    requires s.FoundBlock? && s.bucket < |p.buckets| && s.offset == NextBlock(p) <= p.maxOffset
    ensures Roomy(AdoptRecord(p, s))
    ensures p.tail < AdoptRecord(p, s).tail && p.tail < p.maxOffset == AdoptRecord(p, s).maxOffset
  {
    NextBlockBounds(p);
    hide NextBlock; hide AlignUp; hide IsPow2; hide ToU32;
    var p' := AdoptRecord(p, s);
    assert p'.tail == s.offset + p.buckets[s.bucket].blockSize;
    assert forall b :: 0 <= b < |p.buckets| ==> p'.buckets[b].blockSize == p.buckets[b].blockSize;
  }

  /** The rebuild loop. */
  function Rebuild(w: World): World
    requires Roomy(w.pool)
    decreases if w.pool.tail <= w.pool.maxOffset then w.pool.maxOffset - w.pool.tail else 0
  {
    var s := ScanTail(w);
    if s.NoBlock? then w
    else
      AdoptRoomy(w.pool, s);
      Rebuild(Adopt(w, s))
  }

  function Insert(x: size_t, s: seq<size_t>): seq<size_t> {
    if s == [] || x <= s[0] then [x] + s else [s[0]] + Insert(x, s[1..])
  }

  /** The sorted arrangement of a list of block sizes. */
  function SortSizes(s: seq<size_t>): (r: seq<size_t>) {
    if s == [] then [] else Insert(s[0], SortSizes(s[1..]))
  }

  predicate Ascending(s: seq<size_t>) { forall i, j :: 0 <= i < j < |s| ==> s[i] <= s[j] }

  function EmptyBuckets(sizes: seq<size_t>): (r: seq<Bucket>)
    ensures |r| == |sizes|
    ensures forall i :: 0 <= i < |sizes| ==> r[i] == Bucket(sizes[i], 0, 0, 0, 0)
  {
    seq(|sizes|, i requires 0 <= i < |sizes| => Bucket(sizes[i], 0, 0, 0, 0))
  }

  const ZERO_POOL := Pool(0, 0, 0, 0, 0, 0, [])

  /** `was` is the record before the call; a request for no block sizes leaves it alone. */
  function Initialize(was: Pool, start: size_t, poolSize: size_t, alignSize: size_t, sizes: seq<size_t>)
    : (Pool, Status)
  {
    var mask: size_t := if alignSize <= 1 then 0 else alignSize - 1;
    if sizes == [] then (was, BadArgument)
    else if And(mask, alignSize) != 0 then (ZERO_POOL, BadArgument)
    else
      var sorted := SortSizes(sizes);
      var p := Pool(poolSize, ToSize(poolSize + start), mask, start, 0, 0, EmptyBuckets(sorted));
      (p, if sorted != [] && sorted[0] == 0 then MemBlockSize else Success)
  }

  lemma {:induction false} InsertKeeps(x: size_t, s: seq<size_t>)
    ensures multiset(Insert(x, s)) == multiset(s) + multiset{x}
  {
    if s != [] && s[0] < x {
      InsertKeeps(x, s[1..]);
      assert s == [s[0]] + s[1..];
    }
  }

  lemma {:induction false} InsertSorted(x: size_t, s: seq<size_t>)
    requires Ascending(s)
    ensures Ascending(Insert(x, s))
  {
    if s != [] && s[0] < x {
      InsertSorted(x, s[1..]);
      var r := Insert(x, s[1..]);
      InsertKeeps(x, s[1..]);
      forall i | 0 <= i < |r| ensures s[0] <= r[i] {
        assert r[i] in multiset(r);
        assert r[i] == x || r[i] in s[1..];
      }
    }
  }

  lemma {:induction false} SortSizesSorts(s: seq<size_t>)
    ensures Ascending(SortSizes(s)) && multiset(SortSizes(s)) == multiset(s)
  {
    if s != [] {
      SortSizesSorts(s[1..]);
      InsertSorted(s[0], SortSizes(s[1..]));
      InsertKeeps(s[0], SortSizes(s[1..]));
      assert s == [s[0]] + s[1..];
    }
  }

  lemma DropFirst(s: seq<size_t>)
    requires s != []
    ensures multiset(s[1..]) == multiset(s) - multiset{s[0]}
    ensures s == [s[0]] + s[1..]
  {
    assert s == [s[0]] + s[1..];
  }

  /** There is one sorted arrangement of a multiset. */
  lemma {:induction false} SortedUnique(a: seq<size_t>, b: seq<size_t>)
    requires Ascending(a) && Ascending(b) && multiset(a) == multiset(b)
    ensures a == b
    decreases |a|
  {
    assert |multiset(a)| == |a| && |multiset(b)| == |b|;
    if a != [] {
      assert a[0] in multiset(b) && b[0] in multiset(a);
      assert a[0] == b[0];
      DropFirst(a);
      DropFirst(b);
      SortedUnique(a[1..], b[1..]);
    }
  }
}
