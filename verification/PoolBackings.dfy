/**
  A pool over a direct store, where descriptors are read and changed in place through a pointer, against a pool
  over an indirect one. Each operation uses a descriptor once, so that records, answers and bytes are the same.
 */
module PoolBackings {
  import opened Bits
  import opened Descriptor
  import opened Options
  import opened PoolModel
  import opened Heap
  import opened PoolRefinement
  import PoolRuns
  import opened Store

  datatype Backing = Direct | Indirect

  /** The bytes after a descriptor has been retrieved, assigned to, and committed. */
  function Use(backing: Backing, mem: seq<byte>, at: nat, assigns: seq<Assign>): (r: seq<byte>)
    ensures |r| == |mem|
  {
    match backing
    case Direct => DirectRun(mem, [Triple(at, assigns)])
    case Indirect => IndirectRun(mem, [Triple(at, assigns)])
  }

  function Reuse(id: uint16, newSize: size_t): seq<Assign> {
    [Assign(Mark, MEMORY_ALLOCATED + id), Assign(ActualSize, newSize), Assign(NextOffset, 0)]
  }

  function Carve(id: uint16, newSize: size_t): seq<Assign> {
    [Assign(CheckBits, CHECK_PATTERN), Assign(Mark, MEMORY_ALLOCATED + id), Assign(ActualSize, newSize),
     Assign(NextOffset, 0)]
  }

  function Release(id: uint16, first: size_t): seq<Assign> {
    [Assign(Mark, MEMORY_DEALLOCATED + id), Assign(NextOffset, first)]
  }

  /** The next free block is read before the descriptor is changed. */
  function RecycleOn(backing: Backing, w: World, id: uint16, newSize: size_t): Outcome {
    var p := w.pool;
    var index := BucketIndex(p, id);
    if index.None? || p.buckets[index.value].recycleCount == p.buckets[index.value].releaseCount
       || p.buckets[index.value].firstOffset == 0 then
      Outcome(w, BufferNotInPool, 0)
    else
      var bucket := p.buckets[index.value];
      var at := DescOf(bucket.firstOffset);
      var bd := ReadBD(w.mem, at);
      if bd.checkBits != CHECK_PATTERN || ToU16(bd.mark - MEMORY_DEALLOCATED) != id then
        Outcome(w, BufferNotInPool, 0)
      else
        var bucket' := bucket.(firstOffset := bd.nextOffset, recycleCount := ToU32(bucket.recycleCount + 1));
        Outcome(World(SetBucket(p, index.value, bucket'), Use(backing, w.mem, at, Reuse(id, newSize))), Success,
                bucket.firstOffset)
  }

  function CreateOn(backing: Backing, w: World, id: uint16, newSize: size_t): Outcome {
    var p := w.pool;
    var index := BucketIndex(p, id);
    if index.None? then Outcome(w, BufferNotInPool, 0)
    else
      var bucket := p.buckets[index.value];
      var offset := NextBlock(p);
      var nextTail := ToSize(offset + bucket.blockSize);
      if nextTail > p.maxOffset then Outcome(w, MemBlockSize, 0)
      else
        var bucket' := bucket.(allocationCount := ToU32(bucket.allocationCount + 1));
        var p' := SetBucket(p, index.value, bucket')
                  .(tail := nextTail, allocationCount := ToU32(p.allocationCount + 1));
        Outcome(World(p', Use(backing, w.mem, DescOf(offset), Carve(id, newSize))), Success, offset)
  }

  function GetOn(backing: Backing, w: World, req: size_t): Outcome
    requires |w.pool.buckets| <= MAX_BUCKETS
  {
    var id := FindBucket(w.pool, req);
    if id == 0 then Outcome(w, MemBlockSize, 0)
    else
      var recycled := RecycleOn(backing, w, id, req);
      if recycled.status.Success? then recycled else CreateOn(backing, w, id, req)
  }

  /** The size answered is read after the descriptor has been changed. */
  function PutOn(backing: Backing, w: World, offset: size_t): Outcome {
    var p := w.pool;
    if offset >= p.tail || offset < DESC then Outcome(w, BufferNotInPool, 0)
    else
      var index := UsedBucket(w, offset);
      if index.None? then
        Outcome(w.(pool := p.(validationErrors := ToU32(p.validationErrors + 1))), BlockInvalid, 0)
      else
        var bucket := p.buckets[index.value];
        var at := DescOf(offset);
        var id := ToU16(ReadBD(w.mem, at).mark - MEMORY_ALLOCATED);
        var mem := Use(backing, w.mem, at, Release(id, bucket.firstOffset));
        var bucket' := bucket.(firstOffset := offset, releaseCount := ToU32(bucket.releaseCount + 1));
        Outcome(World(SetBucket(p, index.value, bucket'), mem), Success, ReadBD(mem, at).actualSize)
  }

  function StepOn(backing: Backing, w: World, op: PoolRuns.Op): World
    requires |w.pool.buckets| <= MAX_BUCKETS
  {
    match op
    case GetOp(req) => GetOn(backing, w, req).world
    case PutOp(offset) => PutOn(backing, w, offset).world
    case WriteOp(at, bytes) => w.(mem := Splice(w.mem, at, bytes))
  }

  function AdoptOn(backing: Backing, w: World, s: Scan): World
    requires s.FoundBlock? && s.bucket < |w.pool.buckets|
  {
    var link := [Assign(NextOffset, w.pool.buckets[s.bucket].firstOffset)];
    World(AdoptRecord(w.pool, s), if s.free then Use(backing, w.mem, DescOf(s.offset), link) else w.mem)
  }

  function RebuildOn(backing: Backing, w: World): World
    requires Roomy(w.pool)
    decreases if w.pool.tail <= w.pool.maxOffset then w.pool.maxOffset - w.pool.tail else 0
  {
    var s := ScanTail(w);
    if s.NoBlock? then w
    else
      AdoptRoomy(w.pool, s);
      RebuildOn(backing, AdoptOn(backing, w, s))
  }

  // The two backings agree

  lemma UseIs(backing: Backing, mem: seq<byte>, at: nat, assigns: seq<Assign>)
    requires at + DESC <= |mem|
    ensures Use(backing, mem, at, assigns) == WriteBD(mem, at, SetFields(ReadBD(mem, at), assigns))
  {
    hide ReadBD; hide WriteBD; hide Pokes; hide SetFields;
    PokesAreSetFields(mem, at, assigns);
    var one := [Triple(at, assigns)];
    assert one[1..] == [];
    assert DirectRun(Pokes(mem, at, assigns), []) == Pokes(mem, at, assigns);
    assert DirectRun(mem, one) == DirectRun(Pokes(mem, at, assigns), one[1..]);
    var written := WriteBD(mem, at, SetFields(ReadBD(mem, at), assigns));
    assert IndirectRun(written, []) == written;
    assert IndirectRun(mem, one) == IndirectRun(written, one[1..]);
  }

  lemma Fields(bd: BD, id: uint16, size: size_t, first: size_t)
    ensures SetFields(bd, Reuse(id, size))
         == bd.(mark := ToU16(MEMORY_ALLOCATED + id), actualSize := size, nextOffset := 0)
    ensures SetFields(bd, Carve(id, size))
         == bd.(checkBits := CHECK_PATTERN, mark := ToU16(MEMORY_ALLOCATED + id), actualSize := size, nextOffset := 0)
    ensures SetFields(bd, Release(id, first)) == bd.(mark := ToU16(MEMORY_DEALLOCATED + id), nextOffset := first)
    ensures SetFields(bd, [Assign(NextOffset, first)]) == bd.(nextOffset := first)
  {
    Unfold(bd, Reuse(id, size));
    Unfold(bd, Carve(id, size));
    Unfold(bd, Release(id, first));
    Unfold(bd, [Assign(NextOffset, first)]);
  }

  lemma Unfold(bd: BD, s: seq<Assign>)
    ensures |s| == 1 ==> SetFields(bd, s) == SetField(bd, s[0])
    ensures |s| == 2 ==> SetFields(bd, s) == SetField(SetField(bd, s[0]), s[1])
    ensures |s| == 3 ==> SetFields(bd, s) == SetField(SetField(SetField(bd, s[0]), s[1]), s[2])
    ensures |s| == 4 ==> SetFields(bd, s) == SetField(SetField(SetField(SetField(bd, s[0]), s[1]), s[2]), s[3])
    decreases |s|
  {
    if |s| > 1 {
      Unfold(SetField(bd, s[0]), s[1..]);
    }
    hide SetField;
  }

  /** Room above the pool, and a tail within it. */
  predicate Bounded(p: Pool) { |p.buckets| <= MAX_BUCKETS && Roomy(p) && p.tail <= p.maxOffset }

  lemma GetSame(backing: Backing, w: World, req: size_t)
    requires Bounded(w.pool) && InReach(w.pool, |w.mem|)
    ensures GetOn(backing, w, req) == GetBlock(w, req)
  {
    assert w.pool.maxOffset <= |w.mem|;
    hide Recycle; hide Create; hide RecycleOn; hide CreateOn; hide InReach; hide Roomy;
    var id := FindBucket(w.pool, req);
    RecycleSame(backing, w, id, req);
    RoomyEnds(w.pool, id);
    CreateSame(backing, w, id, req);
  }

  lemma RecycleSame(backing: Backing, w: World, id: uint16, newSize: size_t)
    requires InReach(w.pool, |w.mem|)
    ensures RecycleOn(backing, w, id, newSize) == Recycle(w, id, newSize)
  {
    hide ReadBD; hide WriteBD; hide Use; hide SetFields; hide BucketIndex;
    var index := BucketIndex(w.pool, id);
    if index.Some? && w.pool.buckets[index.value].firstOffset != 0 {
      var at := DescOf(w.pool.buckets[index.value].firstOffset);
      UseIs(backing, w.mem, at, Reuse(id, newSize));
      Fields(ReadBD(w.mem, at), id, newSize, 0);
    }
  }

  lemma CreateSame(backing: Backing, w: World, id: uint16, newSize: size_t)
    requires |w.pool.buckets| <= MAX_BUCKETS && w.pool.maxOffset <= |w.mem|
    requires IsPow2(w.pool.alignMask + 1) && !EndWraps(w.pool, id)
    ensures CreateOn(backing, w, id, newSize) == Create(w, id, newSize)
  {
    hide ReadBD; hide WriteBD; hide Use; hide SetFields; hide BucketIndex; hide NextBlock; hide IsPow2; hide EndWraps;
    var p, index := w.pool, BucketIndex(w.pool, id);
    if index.Some? && ToSize(NextBlock(p) + p.buckets[index.value].blockSize) <= p.maxOffset {
      CarveInside(p, id);
      var at := DescOf(NextBlock(p));
      UseIs(backing, w.mem, at, Carve(id, newSize));
      Fields(ReadBD(w.mem, at), id, newSize, 0);
    }
  }

  lemma PutSame(backing: Backing, w: World, offset: size_t)
    requires w.pool.tail <= |w.mem|
    ensures PutOn(backing, w, offset) == PutBlock(w, offset)
  {
    hide ReadBD; hide WriteBD; hide Use; hide SetFields; hide UsedBucket;
    var index := UsedBucket(w, offset);
    if DESC <= offset < w.pool.tail && index.Some? {
      var at := DescOf(offset);
      var bd := ReadBD(w.mem, at);
      var id := ToU16(bd.mark - MEMORY_ALLOCATED);
      var first := w.pool.buckets[index.value].firstOffset;
      UseIs(backing, w.mem, at, Release(id, first));
      Fields(bd, id, 0, first);
      ReadBack(w.mem, at, SetFields(bd, Release(id, first)));
    }
  }

  lemma StepSame(backing: Backing, w: World, op: PoolRuns.Op)
    requires Bounded(w.pool) && InReach(w.pool, |w.mem|)
    ensures StepOn(backing, w, op) == PoolRuns.Step(w, op)
  {
    hide GetOn; hide PutOn; hide GetBlock; hide PutBlock; hide ReadBD; hide Splice; hide Roomy;
    match op
    case GetOp(req) => GetSame(backing, w, req);
    case PutOp(offset) => PutSame(backing, w, offset);
    case WriteOp(_, _) =>
  }

  /** The sizes of the buckets stay, and so do the bounds of the pool. */
  lemma StepBounded(w: World, op: PoolRuns.Op)
    requires Bounded(w.pool)
    ensures Bounded(PoolRuns.Step(w, op).pool)
  {
    hide ReadBD; hide WriteBD; hide Splice; hide NextBlock; hide BucketIndex; hide UsedBucket; hide IsPow2;
    match op
    case GetOp(req) =>
      var id := FindBucket(w.pool, req);
      SizesStay(w.pool, Recycle(w, id, req).world.pool);
      SizesStay(w.pool, Create(w, id, req).world.pool);
      hide Recycle; hide Create; hide Bounded;
    case PutOp(offset) =>
      SizesStay(w.pool, PutBlock(w, offset).world.pool);
      hide PutBlock; hide Bounded;
    case WriteOp(_, _) =>
  }

  lemma SizesStay(p: Pool, q: Pool)
    requires Bounded(p)
    ensures |q.buckets| == |p.buckets| && q.maxOffset == p.maxOffset && q.alignMask == p.alignMask
            && q.tail <= q.maxOffset && (q.tail == p.tail || p.buckets != [])
            && (forall b :: 0 <= b < |p.buckets| ==> q.buckets[b].blockSize == p.buckets[b].blockSize)
            ==> Bounded(q)
  {
    hide IsPow2;
    if p.buckets != [] { assert p.maxOffset + p.buckets[0].blockSize + DESC + p.alignMask < SIZE_T; }
  }

  /** A pool over a backing comes from `w` to `r` by the operations. */
  predicate OnRun(backing: Backing, w: World, ops: seq<PoolRuns.Op>, r: World)
    decreases |ops|
  {
    if ops == [] then w == r
    else |w.pool.buckets| <= MAX_BUCKETS && OnRun(backing, StepOn(backing, w, ops[0]), ops[1..], r)
  }

  /** The records of a run have their free blocks within memory. */
  predicate ReachRun(w: World, ops: seq<PoolRuns.Op>)
    decreases |ops|
  {
    && |w.pool.buckets| <= MAX_BUCKETS && InReach(w.pool, |w.mem|)
    && (ops != [] ==> ReachRun(PoolRuns.Step(w, ops[0]), ops[1..]))
  }

  function Steps(w: World, ops: seq<PoolRuns.Op>): World
    requires ReachRun(w, ops)
    decreases |ops|
  {
    if ops == [] then w else Steps(PoolRuns.Step(w, ops[0]), ops[1..])
  }

  /**
    Over either backing, a pool comes to the same record and the same bytes, in every run whose records have their
    free blocks within memory, even after it has accepted an offset that was no block's.
   */
  lemma {:induction false} StepsSame(backing: Backing, w: World, ops: seq<PoolRuns.Op>)
    requires Bounded(w.pool) && ReachRun(w, ops)
    ensures OnRun(backing, w, ops, Steps(w, ops))
    decreases |ops|
  {
    hide Bounded; hide InReach;
    if ops != [] {
      StepSame(backing, w, ops[0]);
      StepBounded(w, ops[0]);
      StepsSame(backing, PoolRuns.Step(w, ops[0]), ops[1..]);
    }
  }

  /** That holds of all permitted runs. */
  lemma RunSame(backing: Backing, w: World, h: Heap, ops: seq<PoolRuns.Op>)
    requires Represents(w, h) && PoolRuns.PermittedRun(w, h, ops)
    ensures OnRun(backing, w, ops, PoolRuns.Run(w, h, ops))
  {
    RepresentsBounded(w, h);
    PermittedReach(w, h, ops);
    hide Represents; hide Bounded;
    StepsSame(backing, w, ops);
  }

  lemma RepresentsBounded(w: World, h: Heap)
    requires Represents(w, h)
    ensures Bounded(w.pool) && InReach(w.pool, |w.mem|)
  {
    NextBlockIs(w, h);
    RepresentsInReach(w, h);
    hide InReach; hide Roomy; hide ReadBD; hide AlignUp;
  }

  lemma {:induction false} PermittedReach(w: World, h: Heap, ops: seq<PoolRuns.Op>)
    requires Represents(w, h) && PoolRuns.PermittedRun(w, h, ops)
    ensures ReachRun(w, ops) && Steps(w, ops) == PoolRuns.Run(w, h, ops)
    decreases |ops|
  {
    RepresentsBounded(w, h);
    assert ValidHeap(h) && |w.pool.buckets| <= MAX_BUCKETS;
    hide Represents; hide ValidHeap; hide InReach; hide Bounded;
    if ops != [] {
      PoolRuns.StepRepresents(w, h, ops[0]);
      PermittedReach(PoolRuns.Step(w, ops[0]), PoolRuns.HeapStep(h, ops[0]), ops[1..]);
    }
  }

  /** A rebuild, too. */
  lemma {:induction false} RebuildSame(backing: Backing, w: World)
    requires Roomy(w.pool) && w.pool.maxOffset <= |w.mem|
    ensures RebuildOn(backing, w) == Rebuild(w)
    decreases if w.pool.tail <= w.pool.maxOffset then w.pool.maxOffset - w.pool.tail else 0
  {
    hide ReadBD; hide WriteBD; hide Use; hide SetFields; hide ScanTail; hide AdoptRecord;
    var s := ScanTail(w);
    if s.FoundBlock? {
      AdoptRoomy(w.pool, s);
      NextBlockBounds(w.pool);
      hide Roomy; hide NextBlock;
      var at, first := DescOf(s.offset), w.pool.buckets[s.bucket].firstOffset;
      UseIs(backing, w.mem, at, [Assign(NextOffset, first)]);
      Fields(ReadBD(w.mem, at), 0, 0, first);
      RebuildSame(backing, Adopt(w, s));
    }
  }
}
