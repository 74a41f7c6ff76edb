/**
  Whole runs of a pool: requests, releases and writes to user data in any order. Every state a run reaches
  represents an allocator, and from every one of them the pool can be rebuilt.
 */
module PoolRuns {
  import opened Bits
  import opened Descriptor
  import opened PoolModel
  import opened Heap
  import opened PoolRefinement
  import opened PoolRebuild
  import opened PoolAnswers

  datatype Op = GetOp(req: size_t) | PutOp(offset: size_t) | WriteOp(at: nat, bytes: seq<byte>)

  function Step(w: World, op: Op): World
    requires |w.pool.buckets| <= MAX_BUCKETS
  {
    match op
    case GetOp(req) => GetBlock(w, req).world
    case PutOp(offset) => PutBlock(w, offset).world
    case WriteOp(at, bytes) => w.(mem := Splice(w.mem, at, bytes))
  }

  /** Index of the block at an offset; the number of blocks if there is none. */
  function BlockAt(blocks: seq<Block>, offset: nat): (i: nat)
    ensures i <= |blocks|
    ensures i < |blocks| ==> blocks[i].off == offset
    ensures i == |blocks| ==> forall j :: 0 <= j < |blocks| ==> blocks[j].off != offset
  {
    if blocks == [] then 0
    else if blocks[0].off == offset then 0
    else 1 + BlockAt(blocks[1..], offset)
  }

  predicate IsBlock(h: Heap, offset: nat) { BlockAt(h.blocks, offset) < |h.blocks| }

  predicate InsideBlock(h: Heap, i: nat, at: nat, size: nat) {
    && i < |h.blocks| && h.blocks[i].bucket < |h.cfg.sizes|
    && h.blocks[i].off <= at && at + size <= h.blocks[i].off + h.cfg.sizes[h.blocks[i].bucket]
  }

  /** The bytes before an offset below the tail look like the descriptor of a block in use. */
  predicate PutAccepted(w: World, offset: size_t) {
    DESC <= offset < w.pool.tail && LooksUsed(w.pool, ReadBD(w.mem, offset - DESC))
  }

  /**
    What users of a pool have to keep to: they write inside their blocks, and what they release is a block,
    or something the pool turns down.
   */
  ghost predicate Permitted(w: World, h: Heap, op: Op) {
    match op
    case GetOp(_) => true
    case PutOp(offset) => IsBlock(h, offset) || !PutAccepted(w, offset)
    case WriteOp(at, bytes) => exists i :: InsideBlock(h, i, at, |bytes|)
  }

  /** The same step of the allocator. */
  function HeapStep(h: Heap, op: Op): Heap
    requires ValidHeap(h)
  {
    match op
    case GetOp(req) => Get(h, req).heap
    case PutOp(offset) => if IsBlock(h, offset) then Put(h, BlockAt(h.blocks, offset)).heap else h
    case WriteOp(_, _) => h
  }

  /** Blocks stay where they are, in the buckets they are in. */
  predicate Extends(h: Heap, h': Heap) {
    && h'.cfg == h.cfg && |h.blocks| <= |h'.blocks| && End(h) <= End(h')
    && forall i :: 0 <= i < |h.blocks| ==>
         h'.blocks[i].off == h.blocks[i].off && h'.blocks[i].bucket == h.blocks[i].bucket
  }

  lemma GetExtends(h: Heap, req: nat)
    requires ValidHeap(h)
    ensures ValidHeap(Get(h, req).heap) && Extends(h, Get(h, req).heap)
  {
    hide AlignUp; hide Chained; hide LinkTo; hide FreeStacks; hide ValidConfig; hide Fit;
    GetValid(h, req);
    var b := Fit(h.cfg.sizes, req);
    if b < |h.cfg.sizes| {
      FreeStackCount(h);
      if ToU32(|h.free[b]|) != 0 {
        PopValid(h, b, req);
      } else if NextOff(h) + h.cfg.sizes[b] <= h.cfg.maxOffset {
        AppendValid(h, b, true, req, 0);
        NextOffAfter(h);
      }
    }
  }

  lemma FreeStackCount(h: Heap)
    requires ValidHeap(h)
    ensures |h.free| == |h.cfg.sizes|
  {}

  lemma HeapStepValid(h: Heap, op: Op)
    requires ValidHeap(h)
    ensures ValidHeap(HeapStep(h, op)) && Extends(h, HeapStep(h, op))
  {
    hide AlignUp; hide Chained; hide LinkTo; hide FreeStacks; hide ValidConfig; hide Get;
    match op
    case GetOp(req) => GetExtends(h, req);
    case PutOp(offset) =>
      if IsBlock(h, offset) {
        var i := BlockAt(h.blocks, offset);
        if h.blocks[i].live { PushValid(h, i); }
      }
    case WriteOp(_, _) =>
  }

  lemma NextOffAfter(h: Heap)
    requires ValidHeap(h)
    ensures End(h) + DESC <= NextOff(h)
  {
    AlignUpBounds(End(h) + DESC, h.cfg.mask);
  }

  lemma WriteKeeps(w: World, h: Heap, i: nat, at: nat, bytes: seq<byte>)
    requires Represents(w, h) && InsideBlock(h, i, at, |bytes|)
    ensures Represents(w.(mem := Splice(w.mem, at, bytes)), h)
  {
    hide ReadBD; hide AlignUp; hide FreeStacks; hide Chained; hide IsPow2; hide BucketShown;
    forall j | 0 <= j < |h.blocks|
      ensures ReadBD(Splice(w.mem, at, bytes), DescAt(h.blocks[j].off)) == ReadBD(w.mem, DescAt(h.blocks[j].off))
    {
      DescInside(w, h, j);
      if j != i { LayoutSafety(h, i, j); }
      ReadElsewhere(w.mem, at, bytes, DescAt(h.blocks[j].off));
    }
    MemFrame(w.mem, Splice(w.mem, at, bytes), h);
  }

  /** Every permitted step keeps pool and allocator together. */
  lemma StepRepresents(w: World, h: Heap, op: Op)
    requires Represents(w, h) && Permitted(w, h, op)
    ensures Represents(Step(w, op), HeapStep(h, op))
  {
    hide ReadBD; hide Represents; hide GetBlock; hide Splice; hide ValidHeap;
    match op
    case GetOp(req) => GetRefines(w, h, req);
    case PutOp(offset) =>
      if IsBlock(h, offset) {
        PutRefines(w, h, BlockAt(h.blocks, offset));
      } else {
        TurnedDown(w, h, offset);
      }
    case WriteOp(at, bytes) =>
      var i :| InsideBlock(h, i, at, |bytes|);
      WriteKeeps(w, h, i, at, bytes);
  }

  lemma TurnedDown(w: World, h: Heap, offset: size_t)
    requires Represents(w, h) && !PutAccepted(w, offset)
    ensures Represents(PutBlock(w, offset).world, h) && PutBlock(w, offset).world.mem == w.mem
    ensures PutBlock(w, offset).status != Success
  {
    assert |w.pool.buckets| <= MAX_BUCKETS;
    PutAnswers(w, offset);
    hide ReadBD; hide ValidHeap; hide MemShows; hide PutBlock; hide LooksUsed;
    RecordFrame(w, PutBlock(w, offset).world.pool, h);
  }

  // Runs

  function RunHeap(h: Heap, ops: seq<Op>): (r: Heap)
    requires ValidHeap(h)
    ensures ValidHeap(r) && r.cfg == h.cfg
    decreases |ops|
  {
    if ops == [] then h
    else
      HeapStepValid(h, ops[0]);
      RunHeap(HeapStep(h, ops[0]), ops[1..])
  }

  function Run(w: World, h: Heap, ops: seq<Op>): (r: World)
    requires Represents(w, h) && PermittedRun(w, h, ops)
    ensures Represents(r, RunHeap(h, ops))
    decreases |ops|
  {
    if ops == [] then w
    else
      StepRepresents(w, h, ops[0]);
      Run(Step(w, ops[0]), HeapStep(h, ops[0]), ops[1..])
  }

  ghost predicate PermittedRun(w: World, h: Heap, ops: seq<Op>)
    requires Represents(w, h)
    decreases |ops|
  {
    ops != [] ==>
      && Permitted(w, h, ops[0])
      && (StepRepresents(w, h, ops[0]); PermittedRun(Step(w, ops[0]), HeapStep(h, ops[0]), ops[1..]))
  }

  /** Any two blocks of a reachable state, with their descriptors, lie apart, in the pool, and aligned. */
  lemma RunSafety(w: World, h: Heap, ops: seq<Op>, i: nat, j: nat)
    requires Represents(w, h) && PermittedRun(w, h, ops)
    requires i < |RunHeap(h, ops).blocks| && j < |RunHeap(h, ops).blocks| && i != j
    ensures var (r, p) := (RunHeap(h, ops), Run(w, h, ops).pool);
      && r.blocks[i].bucket < |r.cfg.sizes| && r.blocks[j].bucket < |r.cfg.sizes|
      && (|| r.blocks[i].off + r.cfg.sizes[r.blocks[i].bucket] <= r.blocks[j].off - DESC
          || r.blocks[j].off + r.cfg.sizes[r.blocks[j].bucket] <= r.blocks[i].off - DESC)
      && h.cfg.start <= r.blocks[i].off - DESC
      && r.blocks[i].off + r.cfg.sizes[r.blocks[i].bucket] <= p.tail <= p.maxOffset == h.cfg.maxOffset
      && r.blocks[i].off % (p.alignMask + 1) == 0
  {
    hide ReadBD; hide Run; hide PermittedRun; hide RunHeap; hide FreeStacks; hide Chained; hide AlignUp;
    var r := RunHeap(h, ops);
    assert Represents(Run(w, h, ops), r);
    LayoutSafety(r, i, j);
    BlockWithin(r.cfg, r.blocks, i);
  }

  /** In every reachable state and for every bucket, the counters account for all blocks. */
  lemma RunAccounting(w: World, h: Heap, ops: seq<Op>, b: nat)
    requires Represents(w, h) && PermittedRun(w, h, ops) && b < |h.cfg.sizes|
    ensures var r := RunHeap(h, ops);
      && b < |Run(w, h, ops).pool.buckets| && b < |r.free|
      && var bucket := Run(w, h, ops).pool.buckets[b];
      && bucket.allocationCount == ToU32(|LiveIn(r.blocks, b)| + |r.free[b]|)
      && ToU32(bucket.releaseCount - bucket.recycleCount) == ToU32(|r.free[b]|)
  {
    hide ReadBD; hide Run; hide PermittedRun; hide RunHeap; hide FreeStacks; hide Chained; hide AlignUp;
    var r := RunHeap(h, ops);
    assert Represents(Run(w, h, ops), r);
    assert BucketShown(Run(w, h, ops).pool.buckets[b], r, b);
    Accounting(r, b);
  }

  // User data

  /** Outside the bytes a user writes, a step changes only descriptors. */
  lemma StepKeepsData(w: World, h: Heap, op: Op, i: nat, x: nat)
    requires Represents(w, h) && Permitted(w, h, op) && InsideBlock(h, i, x, 1)
    requires op.WriteOp? ==> !(op.at <= x < op.at + |op.bytes|)
    ensures x < |w.mem| && Step(w, op).mem[x] == w.mem[x] && |Step(w, op).mem| == |w.mem|
  {
    hide ReadBD; hide Recycle; hide Create; hide UsedBucket; hide FreeStacks; hide Chained; hide AlignUp; hide Encode;
    DescInside(w, h, i);
    BlockWithin(h.cfg, h.blocks, i);
    match op
    case GetOp(req) => GetKeepsData(w, h, req, i, x);
    case PutOp(offset) =>
      if IsBlock(h, offset) {
        PutKeepsData(w, h, BlockAt(h.blocks, offset), i, x);
      } else {
        TurnedDown(w, h, offset);
      }
    case WriteOp(at, bytes) =>
  }

  /** Byte x is in no descriptor. */
  lemma DataByte(w: World, h: Heap, i: nat, j: nat, x: nat, bd: BD)
    requires Represents(w, h) && InsideBlock(h, i, x, 1) && j < |h.blocks|
    ensures x < |w.mem| && WriteBD(w.mem, DescAt(h.blocks[j].off), bd)[x] == w.mem[x]
  {
    hide ReadBD; hide FreeStacks; hide Chained; hide AlignUp; hide ToLE; hide Encode;
    DescInside(w, h, j);
    BlockWithin(h.cfg, h.blocks, i);
    if i != j { LayoutSafety(h, i, j); }
  }

  lemma GetKeepsData(w: World, h: Heap, req: size_t, i: nat, x: nat)
    requires Represents(w, h) && InsideBlock(h, i, x, 1)
    ensures x < |w.mem| && GetBlock(w, req).world.mem[x] == w.mem[x] && |GetBlock(w, req).world.mem| == |w.mem|
  {
    hide ReadBD; hide Recycle; hide Create; hide FreeStacks; hide Chained; hide AlignUp; hide Encode; hide BucketShown;
    FitIsFirstFit(w, h, req);
    DescInside(w, h, i);
    BlockWithin(h.cfg, h.blocks, i);
    var b := Fit(h.cfg.sizes, req);
    if b < |h.cfg.sizes| {
      if ToU32(|h.free[b]|) != 0 {
        RecycleRefines(w, h, b, req);
        RecycleComputes(w, h, b, req);
        var at := DescAt(h.blocks[h.free[b][0]].off);
        DataByte(w, h, i, h.free[b][0], x, Reused(ReadBD(w.mem, at), |h.free| - b, req));
      } else {
        RecycleRefuses(w, h, b, req);
        NextBlockIs(w, h);
        CreateComputes(w, h, b, req);
      }
    }
  }

  lemma PutKeepsData(w: World, h: Heap, j: nat, i: nat, x: nat)
    requires Represents(w, h) && InsideBlock(h, i, x, 1) && j < |h.blocks|
    ensures h.blocks[j].off < SIZE_T && x < |w.mem|
    ensures var m := PutBlock(w, h.blocks[j].off).world.mem; |m| == |w.mem| && m[x] == w.mem[x]
  {
    hide ReadBD; hide PutBlock; hide FreeStacks; hide Chained; hide AlignUp; hide Encode; hide BucketShown;
    PutComputes(w, h, j);
    var b, at := h.blocks[j].bucket, DescAt(h.blocks[j].off);
    DataByte(w, h, i, j, x, Released(ReadBD(w.mem, at), |h.free| - b, LinkTo(h, b, 0)));
  }

  /** A byte of a block keeps its value through any run in which no user writes that byte. */
  lemma {:induction false} RunKeepsData(w: World, h: Heap, ops: seq<Op>, i: nat, x: nat)
    requires Represents(w, h) && PermittedRun(w, h, ops) && InsideBlock(h, i, x, 1)
    requires forall op :: op in ops && op.WriteOp? ==> !(op.at <= x < op.at + |op.bytes|)
    ensures x < |w.mem| && x < |Run(w, h, ops).mem| && Run(w, h, ops).mem[x] == w.mem[x]
    decreases |ops|
  {
    hide ReadBD; hide Step; hide HeapStep; hide FreeStacks; hide Chained; hide AlignUp; hide Permitted;
    DescInside(w, h, i);
    BlockWithin(h.cfg, h.blocks, i);
    if ops != [] {
      StepRepresents(w, h, ops[0]);
      StepKeepsData(w, h, ops[0], i, x);
      HeapStepValid(h, ops[0]);
      RunKeepsData(Step(w, ops[0]), HeapStep(h, ops[0]), ops[1..], i, x);
    }
  }

  // Rebuilding after a run

  /** The check pattern occurs nowhere from an offset on. */
  predicate PatternFree(mem: seq<byte>, from: nat) {
    forall i :: from <= i < |mem| - 1 ==> !(mem[i] == 0x5a && mem[i + 1] == 0x5a)
  }

  lemma PatternFreeStops(w: World, h: Heap)
    requires Represents(w, h) && PatternFree(w.mem, End(h))
    ensures ScanTail(w).NoBlock?
  {
    hide AlignUp; hide FreeStacks; hide Chained; hide BucketShown; hide BucketIndex; hide ReadBD; hide Roomy;
    hide BlockShown; hide ValidConfig; hide IsPow2; hide AndNot;
    NextBlockIs(w, h);
    var at := DescAt(NextOff(h));
    if NextOff(h) <= h.cfg.maxOffset {
      CheckBitsAre(w.mem, at);
    }
  }

  lemma CheckBitsAre(mem: seq<byte>, at: nat)
    requires at + DESC <= |mem|
    ensures ReadBD(mem, at).checkBits == mem[at] as int + 256 * (mem[at + 1] as int)
  {
    var s := mem[at..at + DESC][0..2];
    assert s == [mem[at], mem[at + 1]];
    assert FromLE(s[1..]) == s[1] + 256 * FromLE(s[2..]);
  }

  /** A step leaves the memory past the blocks alone. */
  lemma StepBeyond(w: World, h: Heap, op: Op)
    requires Represents(w, h) && Permitted(w, h, op)
    ensures SameBeyond(w.mem, Step(w, op).mem, End(HeapStep(h, op)))
  {
    hide ReadBD; hide AlignUp; hide FreeStacks; hide Chained; hide BucketShown; hide Recycle; hide Create;
    hide PutBlock; hide Encode; hide LinkTo;
    HeapStepValid(h, op);
    match op
    case GetOp(req) => GetBeyond(w, h, req);
    case PutOp(offset) =>
      if IsBlock(h, offset) {
        var j := BlockAt(h.blocks, offset);
        PutComputes(w, h, j);
        DescInside(w, h, j);
      } else {
        TurnedDown(w, h, offset);
      }
    case WriteOp(at, bytes) =>
      var i :| InsideBlock(h, i, at, |bytes|);
      BlockWithin(h.cfg, h.blocks, i);
  }

  lemma GetBeyond(w: World, h: Heap, req: size_t)
    requires Represents(w, h)
    ensures SameBeyond(w.mem, GetBlock(w, req).world.mem, End(Get(h, req).heap))
  {
    hide ReadBD; hide Recycle; hide Create; hide FreeStacks; hide Chained; hide AlignUp; hide WriteBD; hide BucketShown;
    hide BlockShown; hide LinkTo; hide IsPow2; hide Fit; hide FirstFit; hide BlocksIn;
    FitIsFirstFit(w, h, req);
    var b := Fit(h.cfg.sizes, req);
    if b < |h.cfg.sizes| {
      FreeStackCount(h);
      if ToU32(|h.free[b]|) != 0 {
        RecycleRefines(w, h, b, req);
        RecycleComputes(w, h, b, req);
        PopValid(h, b, req);
        var i := h.free[b][0];
        DescInside(w, h, i);
        BeyondWrite(w.mem, DescAt(h.blocks[i].off),
                    Reused(ReadBD(w.mem, DescAt(h.blocks[i].off)), |h.free| - b, req), End(h));
      } else {
        RecycleRefuses(w, h, b, req);
        NextBlockIs(w, h);
        CreateComputes(w, h, b, req);
        if NextOff(h) + h.cfg.sizes[b] <= h.cfg.maxOffset {
          AppendValid(h, b, true, req, 0);
          BeyondWrite(w.mem, DescAt(NextOff(h)), Carved(ReadBD(w.mem, DescAt(NextOff(h))), |h.free| - b, req),
                      NextOff(h) + h.cfg.sizes[b]);
        }
      }
    }
  }

  lemma {:induction false} RunBeyond(w: World, h: Heap, ops: seq<Op>)
    requires Represents(w, h) && PermittedRun(w, h, ops)
    ensures SameBeyond(w.mem, Run(w, h, ops).mem, End(RunHeap(h, ops)))
    ensures End(h) <= End(RunHeap(h, ops))
    decreases |ops|
  {
    hide ReadBD; hide Step; hide HeapStep; hide FreeStacks; hide Chained; hide Permitted; hide MemShows; hide IsPow2;
    if ops != [] {
      StepRepresents(w, h, ops[0]);
      StepBeyond(w, h, ops[0]);
      HeapStepValid(h, ops[0]);
      RunBeyond(Step(w, ops[0]), HeapStep(h, ops[0]), ops[1..]);
    }
  }

  /**
    A pool used in any permitted way, over any memory, and lost: initializing a record again and rebuilding
    recovers the tail exactly when the bytes that memory held at first do not look like a block behind that tail,
    and with the tail the blocks and counters. Memory without the check pattern never looks so.
   */
  lemma RunThenRebuild(was: Pool, mem: seq<byte>, start: size_t, poolSize: size_t, alignSize: size_t,
                       sizes: seq<size_t>, ops: seq<Op>)
    requires GoodArguments(alignSize, sizes) && |sizes| <= MAX_BUCKETS
    requires start + poolSize <= |mem| && Ample(start, poolSize, alignSize, sizes)
    requires var p := Initialize(was, start, poolSize, alignSize, sizes).0;
             var h := Fresh(Config(start, start + poolSize, p.alignMask, SortSizes(sizes)));
             Represents(World(p, mem), h) ==> PermittedRun(World(p, mem), h, ops)
    ensures Initialize(was, start, poolSize, alignSize, sizes).1 == Success
    ensures var p := Initialize(was, start, poolSize, alignSize, sizes).0;
            var h := Fresh(Config(start, start + poolSize, p.alignMask, SortSizes(sizes)));
            && Represents(World(p, mem), h)
            && Roomy(p)
            && var w := Run(World(p, mem), h, ops);
            var r := Rebuild(World(p, w.mem));
            && (r.pool.tail == w.pool.tail <==> ScanTail(World(w.pool, mem)).NoBlock?)
            && (r.pool.tail == w.pool.tail ==> RecoveredTo(w, r, RunHeap(h, ops)))
            && (PatternFree(mem, start) ==> r.pool.tail == w.pool.tail)
  {
    hide Initialize; hide SortSizes; hide MemShows; hide RecordShows; hide ReadBD; hide Run; hide PermittedRun;
    hide RunHeap; hide Rebuild; hide Roomy; hide Rebuilt; hide FreeStacks; hide Chained; hide ValidConfig;
    hide ScanTail; hide PatternFree;
    InitializeAnswers(was, start, poolSize, alignSize, sizes);
    InitializeRefines(was, mem, start, poolSize, alignSize, sizes);
    var p := Initialize(was, start, poolSize, alignSize, sizes).0;
    var h := Fresh(Config(start, start + poolSize, p.alignMask, SortSizes(sizes)));
    var w := Run(World(p, mem), h, ops);
    FreshOver(World(p, mem), h, w, ops);
    if PatternFree(mem, start) { PatternFreeStops(w, RunHeap(h, ops)); }
    InitializeCounters(was, start, poolSize, alignSize, sizes);
    RebuildRecovers(w, RunHeap(h, ops), p);
  }

  /** `r` is the pool `w` over the allocator `h`, recovered: the same blocks and every counter. */
  predicate RecoveredTo(w: World, r: World, h: Heap) {
    && ValidHeap(h) && Represents(r, Rebuilt(h))
    && r.pool.allocationCount == w.pool.allocationCount
    && |r.pool.buckets| == |w.pool.buckets|
    && forall b :: 0 <= b < |r.pool.buckets| ==> CountersRecovered(w.pool.buckets[b], r.pool.buckets[b])
  }

  /** The first record also represents an empty pool over the memory the run has left, which behind the tail is
      what it was. */
  lemma FreshOver(w0: World, h: Heap, w: World, ops: seq<Op>)
    requires Represents(w0, h) && h == Fresh(h.cfg) && PermittedRun(w0, h, ops) && w == Run(w0, h, ops)
    ensures Represents(World(w0.pool, w.mem), h)
    ensures ScanTail(World(w.pool, w0.mem)) == ScanTail(w)
    ensures PatternFree(w0.mem, h.cfg.start) ==> PatternFree(w.mem, End(RunHeap(h, ops)))
  {
    hide ReadBD; hide Run; hide PermittedRun; hide RunHeap; hide FreeStacks; hide Chained; hide BucketShown;
    hide AlignUp;
    hide ScanTail;
    RunBeyond(w0, h, ops);
    assert End(h) == h.cfg.start;
    ScanReadsBeyond(w, RunHeap(h, ops), w0.mem);
  }

  /** What the scan finds past the last block depends only on the bytes from there on. */
  lemma ScanReadsBeyond(w: World, h: Heap, mem: seq<byte>)
    requires Represents(w, h) && SameBeyond(mem, w.mem, End(h))
    ensures ScanTail(World(w.pool, mem)) == ScanTail(w)
  {
    hide ReadBD; hide NextBlock; hide BucketIndex; hide ValidHeap; hide AlignUp; hide MemShows;
    NextBlockIs(w, h);
    ReadSameBytes(mem, w.mem, DescAt(NextOff(h)));
  }

  lemma InitializeCounters(was: Pool, start: size_t, poolSize: size_t, alignSize: size_t, sizes: seq<size_t>)
    requires Initialize(was, start, poolSize, alignSize, sizes).1 == Success
    ensures NoneRecycled(Initialize(was, start, poolSize, alignSize, sizes).0)
  {
    hide Initialize; hide SortSizes; hide IsPow2;
    InitializeComputes(was, start, poolSize, alignSize, sizes);
  }
}
