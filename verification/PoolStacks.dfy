/**
  The stacks of free blocks over whole runs: a block released is the next one issued for its bucket, whatever
  happens elsewhere; and a stack of 2^32 blocks, which the counters take for an empty one.
 */
module PoolStacks {
  import opened Bits
  import opened Descriptor
  import opened PoolModel
  import opened Heap
  import opened PoolRefinement
  import opened PoolRuns
  import opened PoolRules

  // Last in, first out

  /** No operation requests or releases a block of bucket b. */
  ghost predicate Quiet(h: Heap, ops: seq<Op>, b: nat)
    requires ValidHeap(h)
    decreases |ops|
  {
    ops != [] ==>
      && QuietStep(h, ops[0], b)
      && (HeapStepValid(h, ops[0]); Quiet(HeapStep(h, ops[0]), ops[1..], b))
  }

  predicate QuietStep(h: Heap, op: Op, b: nat) {
    match op
    case GetOp(req) => Fit(h.cfg.sizes, req) != b
    case PutOp(offset) => IsBlock(h, offset) ==> h.blocks[BlockAt(h.blocks, offset)].bucket != b
    case WriteOp(_, _) => true
  }

  lemma StackKept(h: Heap, op: Op, b: nat)
    requires ValidHeap(h) && b < |h.free| && QuietStep(h, op, b)
    ensures var r := HeapStep(h, op); b < |r.free| && r.free[b] == h.free[b]
  {
    hide AlignUp; hide Chained; hide ValidConfig; hide LinkTo;
    match op
    case GetOp(req) => FreeStackCount(h);
    case PutOp(offset) =>
      if IsBlock(h, offset) {
        var i := BlockAt(h.blocks, offset);
        if h.blocks[i].live { PushValid(h, i); }
      }
    case WriteOp(_, _) =>
  }

  lemma {:induction false} QuietRun(h: Heap, ops: seq<Op>, b: nat)
    requires ValidHeap(h) && b < |h.free| && Quiet(h, ops, b)
    ensures var r := RunHeap(h, ops); b < |r.free| && r.free[b] == h.free[b] && Extends(h, r)
    decreases |ops|
  {
    hide ValidHeap; hide HeapStep; hide QuietStep;
    if ops != [] {
      HeapStepValid(h, ops[0]);
      StackKept(h, ops[0], b);
      QuietRun(HeapStep(h, ops[0]), ops[1..], b);
    }
  }

  /**
    After a release, and anything permitted that does not touch the block's bucket, the next request for that
    bucket is given the block, exactly if the counters do not hide the stack.
   */
  lemma LastReleasedFirst(w: World, h: Heap, i: nat, ops: seq<Op>, req: size_t)
    requires Represents(w, h) && i < |h.blocks| && h.blocks[i].live && h.blocks[i].actual > 0
    requires Fit(h.cfg.sizes, req) == h.blocks[i].bucket
    requires h.blocks[i].off < SIZE_T && h.blocks[i].bucket < |h.free|
    requires var w1 := PutBlock(w, h.blocks[i].off).world;
             Represents(w1, Push(h, i)) ==>
               PermittedRun(w1, Push(h, i), ops) && Quiet(Push(h, i), ops, h.blocks[i].bucket)
    ensures var w1 := PutBlock(w, h.blocks[i].off).world;
      && Represents(w1, Push(h, i))
      && var r := Run(w1, Push(h, i), ops);
      && |r.pool.buckets| <= MAX_BUCKETS
      && var o := GetBlock(r, req);
         o.status == Success && o.value == h.blocks[i].off <==> ToU32(|h.free[h.blocks[i].bucket]| + 1) != 0
  {
    ReleaseRefines(w, h, i);
    var w1, h1, b := PutBlock(w, h.blocks[i].off).world, Push(h, i), h.blocks[i].bucket;
    QuietRun(h1, ops, b);
    var r, h2 := Run(w1, h1, ops), RunHeap(h1, ops);
    TopIssued(r, h2, b, i, req);
  }

  /** The top of a stack is issued exactly if the counters do not hide it. */
  lemma TopIssued(w: World, h: Heap, b: nat, i: nat, req: size_t)
    requires Represents(w, h) && b < |h.free| && Fit(h.cfg.sizes, req) == b && h.free[b] != [] && h.free[b][0] == i
    requires i < |h.blocks|
    ensures |w.pool.buckets| <= MAX_BUCKETS
    ensures var o := GetBlock(w, req);
            o.status == Success && o.value == h.blocks[i].off <==> ToU32(|h.free[b]|) != 0
  {
    GetRefines(w, h, req);
    hide Represents; hide AlignUp; hide Chained; hide FreeStacks; hide ValidConfig; hide GetBlock;
    BlockWithin(h.cfg, h.blocks, i);
    NextOffAfter(h);
  }

  // A stack that the counters hide

  /** Room for exactly 2^32 blocks of one byte. */
  const HUGE := Config(0, DESC * UINT32_T + UINT32_T, 0, [1])

  /** All blocks so far are in use. */
  predicate Filling(h: Heap, n: nat) {
    && ValidHeap(h) && h.cfg == HUGE && n <= UINT32_T && |h.blocks| == n && h.free == [[]] && End(h) == (DESC + 1) * n
    && forall i :: 0 <= i < n ==> h.blocks[i].live && h.blocks[i].bucket == 0 && h.blocks[i].actual == 1
  }

  /** There is no room left, and the first blocks are released. */
  predicate Emptying(h: Heap, n: nat) {
    && ValidHeap(h) && h.cfg == HUGE && n <= UINT32_T && |h.blocks| == UINT32_T && |h.free| == 1 && |h.free[0]| == n
    && End(h) == HUGE.maxOffset
    && forall i :: 0 <= i < UINT32_T ==>
         (h.blocks[i].live <==> n <= i) && h.blocks[i].bucket == 0 && h.blocks[i].actual == 1
  }

  lemma Fills(h: Heap, n: nat)
    requires Filling(h, n) && n < UINT32_T
    ensures Get(h, 1).status == Success && Filling(Get(h, 1).heap, n + 1)
  {
    hide FreeStacks; hide Chained; hide IsPow2; hide LinkTo;
    AndNotZero(End(h) + DESC);
    assert Fit(HUGE.sizes, 1) == 0;
    GetValid(h, 1);
  }

  lemma Empties(h: Heap, n: nat)
    requires Emptying(h, n) && n < UINT32_T
    ensures Put(h, n).status == Success && Emptying(Put(h, n).heap, n + 1)
  {
    hide FreeStacks; hide Chained; hide IsPow2; hide LinkTo;
    PushValid(h, n);
  }

  /** Nothing is in use, and yet a request fails. */
  predicate Hidden(w: World, h: Heap) {
    && |w.pool.buckets| == 1 && |h.blocks| == UINT32_T && |h.free| == 1 && |h.free[0]| == UINT32_T
    && (forall i :: 0 <= i < UINT32_T ==> !h.blocks[i].live)
    && GetBlock(w, 1) == Outcome(w, MemBlockSize, 0)
  }

  lemma IsHidden(w: World, h: Heap)
    requires Represents(w, h) && Emptying(h, UINT32_T)
    ensures Hidden(w, h)
  {
    hide ReadBD; hide FreeStacks; hide Chained; hide LinkTo; hide IsPow2; hide MemShows; hide BucketShown;
    hide GetBlock;
    assert Fit(HUGE.sizes, 1) == 0;
    GetFails(w, h, 1);
    NextOffAfter(h);
  }

  lemma {:induction false} FillAll(w: World, h: Heap, n: nat) returns (ops: seq<Op>)
    requires Represents(w, h) && Filling(h, n)
    ensures PermittedRun(w, h, ops) && Hidden(Run(w, h, ops), RunHeap(h, ops))
    decreases UINT32_T - n
  {
    assert ValidHeap(h) && n <= UINT32_T;
    hide Represents; hide Filling; hide Emptying; hide Hidden; hide ValidHeap; hide Step; hide Get;
    if n == UINT32_T {
      FullIsEmptying(h);
      ops := EmptyAll(w, h, 0);
    } else {
      Fills(h, n);
      StepRepresents(w, h, GetOp(1));
      var rest := FillAll(Step(w, GetOp(1)), HeapStep(h, GetOp(1)), n + 1);
      ops := OneMore(w, h, GetOp(1), rest);
    }
  }

  lemma FullIsEmptying(h: Heap)
    requires Filling(h, UINT32_T)
    ensures Emptying(h, 0)
  {
    hide FreeStacks; hide Chained; hide ValidConfig;
  }

  lemma {:induction false} EmptyAll(w: World, h: Heap, n: nat) returns (ops: seq<Op>)
    requires Represents(w, h) && Emptying(h, n)
    ensures PermittedRun(w, h, ops) && Hidden(Run(w, h, ops), RunHeap(h, ops))
    decreases UINT32_T - n
  {
    if n == UINT32_T {
      IsHidden(w, h);
      ops := [];
    } else {
      var op := ReleaseOf(w, h, n);
      hide Represents; hide Emptying; hide Hidden; hide ValidHeap; hide Step; hide Put;
      StepRepresents(w, h, op);
      var rest := EmptyAll(Step(w, op), HeapStep(h, op), n + 1);
      ops := OneMore(w, h, op, rest);
    }
  }

  lemma ReleaseOf(w: World, h: Heap, n: nat) returns (op: Op)
    requires Represents(w, h) && Emptying(h, n) && n < UINT32_T
    ensures Permitted(w, h, op) && Emptying(HeapStep(h, op), n + 1)
  {
    DescInside(w, h, n);
    var offset := h.blocks[n].off;
    op := PutOp(offset);
    OffsetsDistinct(h, n, BlockAt(h.blocks, offset));
    Empties(h, n);
    hide Emptying; hide ValidHeap; hide Represents; hide Put;
  }

  lemma OneMore(w: World, h: Heap, op: Op, rest: seq<Op>) returns (ops: seq<Op>)
    requires Represents(w, h) && Permitted(w, h, op) && Represents(Step(w, op), HeapStep(h, op))
    requires PermittedRun(Step(w, op), HeapStep(h, op), rest)
    ensures PermittedRun(w, h, ops)
    ensures Run(w, h, ops) == Run(Step(w, op), HeapStep(h, op), rest)
    ensures RunHeap(h, ops) == RunHeap(HeapStep(h, op), rest)
  {
    hide Represents; hide Permitted; hide Step; hide HeapStep; hide ValidHeap;
    ops := [op] + rest;
    assert ops[1..] == rest;
  }

  /**
    From an empty pool with room for them, 2^32 requests and their releases come to a pool that turns a request
    down although all its blocks are free.
   */
  lemma StackHides(mem: seq<byte>)
    requires |mem| >= HUGE.maxOffset
    ensures var (p, status) := Initialize(ZERO_POOL, 0, HUGE.maxOffset, 0, [1]);
      && status == Success && Represents(World(p, mem), Fresh(HUGE))
      && exists ops :: PermittedRun(World(p, mem), Fresh(HUGE), ops)
                       && Hidden(Run(World(p, mem), Fresh(HUGE), ops), RunHeap(Fresh(HUGE), ops))
  {
    var sizes: seq<size_t> := [1];
    assert SortSizes(sizes) == sizes by { assert sizes[1..] == []; }
    InitializeRefines(ZERO_POOL, mem, 0, HUGE.maxOffset, 0, sizes);
    var p := Initialize(ZERO_POOL, 0, HUGE.maxOffset, 0, sizes).0;
    assert Filling(Fresh(HUGE), 0);
    hide Represents; hide Filling; hide Hidden; hide Initialize;
    var ops := FillAll(World(p, mem), Fresh(HUGE), 0);
  }
}
