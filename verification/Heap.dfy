/**
  The allocator a pool implements, without its bytes: blocks laid out one after the other, and one stack
  of free blocks per bucket. This is the reference the byte-level pool is proved against.
 */
module Heap {
  import opened Bits
  import opened Descriptor
  import opened PoolModel

  datatype Config = Config(start: nat, maxOffset: nat, mask: nat, sizes: seq<nat>)

  /** `off` is the offset of the user data; `next` links free blocks of one bucket, and means nothing in others. */
  datatype Block = Block(off: nat, bucket: nat, live: bool, actual: nat, next: nat)

  /** `free[b]` holds indices into `blocks`, most recently released first. */
  datatype Heap = Heap(cfg: Config, blocks: seq<Block>, free: seq<seq<nat>>)

  predicate ValidConfig(c: Config) {
    && 1 <= |c.sizes| <= MAX_BUCKETS
    && IsPow2(c.mask + 1)
    && c.start <= c.maxOffset
    && (forall b :: 0 <= b < |c.sizes| ==> 0 < c.sizes[b])
    && (forall b :: 0 <= b < |c.sizes| ==> c.maxOffset + c.sizes[b] + DESC + c.mask < SIZE_T)
    && (forall a, b :: 0 <= a < b < |c.sizes| ==> c.sizes[a] <= c.sizes[b])
  }

  function SizeOf(c: Config, b: nat): nat { if b < |c.sizes| then c.sizes[b] else 0 }

  /** Where the first k blocks end. */
  function EndAt(c: Config, blocks: seq<Block>, k: nat): nat
    requires k <= |blocks|
  {
    if k == 0 then c.start else blocks[k - 1].off + SizeOf(c, blocks[k - 1].bucket)
  }

  function End(h: Heap): nat { EndAt(h.cfg, h.blocks, |h.blocks|) }

  /** Offset at which the next block would be laid out. */
  function NextOff(h: Heap): nat { AlignUp(End(h) + DESC, h.cfg.mask) }

  /** Block i follows the one before it, past room for its descriptor, at the next aligned offset. */
  predicate InChain(c: Config, blocks: seq<Block>, i: nat)
    requires i < |blocks|
  {
    && blocks[i].bucket < |c.sizes|
    && blocks[i].actual <= c.sizes[blocks[i].bucket]
    && blocks[i].off == AlignUp(EndAt(c, blocks, i) + DESC, c.mask)
  }

  predicate Chained(c: Config, blocks: seq<Block>) {
    forall i {:trigger InChain(c, blocks, i)} :: 0 <= i < |blocks| ==> InChain(c, blocks, i)
  }

  function OffOf(blocks: seq<Block>, i: nat): nat { if i < |blocks| then blocks[i].off else 0 }

  /** Offset of the k-th free block of bucket b, zero past the end of the stack. */
  function LinkTo(h: Heap, b: nat, k: nat): nat {
    if b < |h.free| && k < |h.free[b]| then OffOf(h.blocks, h.free[b][k]) else 0
  }

  predicate OnStack(h: Heap, b: nat, k: nat)
    requires b < |h.free| && k < |h.free[b]|
  {
    var i := h.free[b][k];
    i < |h.blocks| && h.blocks[i].bucket == b && !h.blocks[i].live && h.blocks[i].next == LinkTo(h, b, k + 1)
  }

  predicate Distinct(s: seq<nat>) { forall j, k :: 0 <= j < k < |s| ==> s[j] != s[k] }

  predicate FreeStacks(h: Heap) {
    && |h.free| == |h.cfg.sizes|
    && (forall b, k {:trigger OnStack(h, b, k)} :: 0 <= b < |h.free| && 0 <= k < |h.free[b]| ==> OnStack(h, b, k))
    && (forall b :: 0 <= b < |h.free| ==> Distinct(h.free[b]))
    && (forall i :: 0 <= i < |h.blocks| && !h.blocks[i].live ==>
          h.blocks[i].bucket < |h.free| && i in h.free[h.blocks[i].bucket])
  }

  predicate ValidHeap(h: Heap) {
    ValidConfig(h.cfg) && Chained(h.cfg, h.blocks) && End(h) <= h.cfg.maxOffset && FreeStacks(h)
  }

  /** The blocks of one bucket, those in use and those not. */
  function BlocksIn(blocks: seq<Block>, b: nat): set<nat> {
    set i | 0 <= i < |blocks| && blocks[i].bucket == b
  }

  function LiveIn(blocks: seq<Block>, b: nat): set<nat> {
    set i | 0 <= i < |blocks| && blocks[i].bucket == b && blocks[i].live
  }

  // The three ways an allocator changes

  /** The top of bucket b's stack is put to use for a request. */
  function Pop(h: Heap, b: nat, req: nat): Heap
    requires b < |h.free| && h.free[b] != [] && h.free[b][0] < |h.blocks|
  {
    var i := h.free[b][0];
    h.(blocks := h.blocks[i := h.blocks[i].(live := true, actual := req, next := 0)],
       free := h.free[b := h.free[b][1..]])
  }

  /** Block i is released onto its bucket's stack. */
  function Push(h: Heap, i: nat): Heap
    requires i < |h.blocks| && h.blocks[i].bucket < |h.free|
  {
    var b := h.blocks[i].bucket;
    h.(blocks := h.blocks[i := h.blocks[i].(live := false, next := LinkTo(h, b, 0))],
       free := h.free[b := [i] + h.free[b]])
  }

  /** A block is laid out after the last one, in use or already released; `link` is what a block in use holds. */
  function Append(h: Heap, b: nat, live: bool, actual: nat, link: nat): Heap
    requires b < |h.free|
  {
    var block := Block(NextOff(h), b, live, actual, if live then link else LinkTo(h, b, 0));
    h.(blocks := h.blocks + [block], free := if live then h.free else h.free[b := [|h.blocks|] + h.free[b]])
  }

  // Layout

  lemma BlockAfter(c: Config, blocks: seq<Block>, i: nat)
    requires ValidConfig(c) && Chained(c, blocks) && i < |blocks|
    ensures EndAt(c, blocks, i) + DESC <= blocks[i].off
    ensures blocks[i].off % (c.mask + 1) == 0
    ensures blocks[i].bucket < |c.sizes| && blocks[i].actual <= c.sizes[blocks[i].bucket]
  {
    assert InChain(c, blocks, i);
    AlignUpBounds(EndAt(c, blocks, i) + DESC, c.mask);
  }

  lemma {:induction false} BlocksOrdered(c: Config, blocks: seq<Block>, i: nat, j: nat)
    requires ValidConfig(c) && Chained(c, blocks) && i < j < |blocks|
    ensures blocks[i].off + SizeOf(c, blocks[i].bucket) + DESC <= blocks[j].off
    decreases j
  {
    BlockAfter(c, blocks, j);
    if i < j - 1 { BlocksOrdered(c, blocks, i, j - 1); }
  }

  lemma {:induction false} BlockWithin(c: Config, blocks: seq<Block>, i: nat)
    requires ValidConfig(c) && Chained(c, blocks) && i < |blocks|
    ensures c.start + DESC <= blocks[i].off
    ensures blocks[i].off + SizeOf(c, blocks[i].bucket) <= EndAt(c, blocks, |blocks|)
    ensures blocks[i].bucket < |c.sizes| && blocks[i].actual <= c.sizes[blocks[i].bucket]
  {
    BlockAfter(c, blocks, i);
    BlockAfter(c, blocks, 0);
    if i > 0 { BlocksOrdered(c, blocks, 0, i); }
    if i < |blocks| - 1 { BlocksOrdered(c, blocks, i, |blocks| - 1); }
  }

  /** Blocks with their descriptors do not overlap, lie in the pool, and are aligned. */
  lemma LayoutSafety(h: Heap, i: nat, j: nat)
    requires ValidHeap(h) && i < |h.blocks| && j < |h.blocks| && i != j
    ensures h.blocks[i].bucket < |h.cfg.sizes| && h.blocks[j].bucket < |h.cfg.sizes|
    ensures var a, b := h.blocks[i], h.blocks[j];
            || a.off + h.cfg.sizes[a.bucket] <= b.off - DESC
            || b.off + h.cfg.sizes[b.bucket] <= a.off - DESC
    ensures h.cfg.start <= h.blocks[i].off - DESC
    ensures h.blocks[i].off + h.cfg.sizes[h.blocks[i].bucket] <= h.cfg.maxOffset
    ensures h.blocks[i].off % (h.cfg.mask + 1) == 0
  {
    BlockWithin(h.cfg, h.blocks, i);
    BlockWithin(h.cfg, h.blocks, j);
    BlockAfter(h.cfg, h.blocks, i);
    if i < j { BlocksOrdered(h.cfg, h.blocks, i, j); } else { BlocksOrdered(h.cfg, h.blocks, j, i); }
  }

  /** Blocks are told apart by their offsets. */
  lemma OffsetsDistinct(h: Heap, i: nat, j: nat)
    requires ValidHeap(h) && i < |h.blocks| && j < |h.blocks| && h.blocks[i].off == h.blocks[j].off
    ensures i == j
  {
    if i < j { BlocksOrdered(h.cfg, h.blocks, i, j); }
    if j < i { BlocksOrdered(h.cfg, h.blocks, j, i); }
  }

  // The three changes keep an allocator valid

  lemma PopValid(h: Heap, b: nat, req: nat)
    requires ValidHeap(h) && b < |h.free| && h.free[b] != [] && req <= h.cfg.sizes[b]
    ensures h.free[b][0] < |h.blocks| && ValidHeap(Pop(h, b, req)) && End(Pop(h, b, req)) == End(h)
    ensures h.blocks[h.free[b][0]].bucket == b && LinkTo(h, b, 1) == h.blocks[h.free[b][0]].next
  {
    assert OnStack(h, b, 0);
    var h', i := Pop(h, b, req), h.free[b][0];
    BlockAfter(h.cfg, h.blocks, i);
    forall a, k | 0 <= a < |h'.free| && 0 <= k < |h'.free[a]| ensures OnStack(h', a, k) {
      if a == b {
        assert OnStack(h, b, k + 1);
        assert h.free[b][k + 1] != i;
      } else {
        assert OnStack(h, a, k);
      }
      assert LinkTo(h', a, k + 1) == LinkTo(h, a, if a == b then k + 2 else k + 1);
    }
    forall j | 0 <= j < |h'.blocks| && !h'.blocks[j].live
      ensures h'.blocks[j].bucket < |h'.free| && j in h'.free[h'.blocks[j].bucket]
    {
      assert j in h.free[h.blocks[j].bucket];
      if h.blocks[j].bucket == b {
        var k :| 0 <= k < |h.free[b]| && h.free[b][k] == j;
        assert h'.free[b][k - 1] == j;
      }
    }
    ChainedFrame(h, h');
  }

  lemma PushValid(h: Heap, i: nat)
    requires ValidHeap(h) && i < |h.blocks| && h.blocks[i].live
    ensures h.blocks[i].bucket < |h.free| && ValidHeap(Push(h, i)) && End(Push(h, i)) == End(h)
  {
    BlockAfter(h.cfg, h.blocks, i);
    var h', b := Push(h, i), h.blocks[i].bucket;
    forall a, k | 0 <= a < |h'.free| && 0 <= k < |h'.free[a]| ensures OnStack(h', a, k) {
      if a == b {
        if k > 0 { assert OnStack(h, b, k - 1); }
        assert LinkTo(h', b, k + 1) == LinkTo(h, b, k);
      } else {
        assert OnStack(h, a, k);
        assert LinkTo(h', a, k + 1) == LinkTo(h, a, k + 1);
      }
    }
    forall j, k | 0 <= j < k < |h'.free[b]| ensures h'.free[b][j] != h'.free[b][k] {
      assert OnStack(h, b, k - 1);
    }
    forall j | 0 <= j < |h'.blocks| && !h'.blocks[j].live
      ensures h'.blocks[j].bucket < |h'.free| && j in h'.free[h'.blocks[j].bucket]
    {
      if j != i { assert j in h.free[h.blocks[j].bucket]; }
    }
    ChainedFrame(h, h');
  }

  /** Offsets and buckets decide the layout. */
  lemma ChainedFrame(h: Heap, h': Heap)
    requires Chained(h.cfg, h.blocks) && h'.cfg == h.cfg && |h'.blocks| == |h.blocks|
    requires forall i :: 0 <= i < |h.blocks| ==>
               && h'.blocks[i].off == h.blocks[i].off && h'.blocks[i].bucket == h.blocks[i].bucket
               && (h'.blocks[i].actual == h.blocks[i].actual
                   || h'.blocks[i].actual <= SizeOf(h.cfg, h.blocks[i].bucket))
    ensures Chained(h'.cfg, h'.blocks) && End(h') == End(h)
  {
    forall i | 0 <= i < |h.blocks| ensures InChain(h'.cfg, h'.blocks, i) {
      assert InChain(h.cfg, h.blocks, i);
      assert EndAt(h.cfg, h'.blocks, i) == EndAt(h.cfg, h.blocks, i);
    }
  }

  lemma AppendValid(h: Heap, b: nat, live: bool, actual: nat, link: nat)
    requires ValidHeap(h) && b < |h.free| && actual <= h.cfg.sizes[b]
    requires NextOff(h) + h.cfg.sizes[b] <= h.cfg.maxOffset
    ensures ValidHeap(Append(h, b, live, actual, link))
    ensures End(Append(h, b, live, actual, link)) == NextOff(h) + h.cfg.sizes[b]
  {
    var h', n := Append(h, b, live, actual, link), |h.blocks|;
    forall i | 0 <= i <= n ensures InChain(h'.cfg, h'.blocks, i) {
      assert EndAt(h.cfg, h'.blocks, i) == EndAt(h.cfg, h.blocks, i);
      if i < n { assert InChain(h.cfg, h.blocks, i); }
    }
    forall a, k | 0 <= a < |h'.free| && 0 <= k < |h'.free[a]| ensures OnStack(h', a, k) {
      if a == b && !live {
        if k > 0 { assert OnStack(h, b, k - 1); }
        assert LinkTo(h', b, k + 1) == LinkTo(h, b, k) by {
          if k < |h.free[b]| { assert OnStack(h, b, k); }
        }
      } else {
        assert OnStack(h, a, k);
        assert LinkTo(h', a, k + 1) == LinkTo(h, a, k + 1) by {
          if k + 1 < |h.free[a]| { assert OnStack(h, a, k + 1); }
        }
      }
    }
    forall j, k | 0 <= j < k < |h'.free[b]| ensures h'.free[b][j] != h'.free[b][k] {
      if !live { assert OnStack(h, b, k - 1); }
    }
  }

  // Counting

  function Elements(s: seq<nat>): set<nat> { set x | x in s }

  lemma {:induction false} DistinctSize(s: seq<nat>)
    requires Distinct(s)
    ensures |Elements(s)| == |s|
  {
    if s == [] {
      assert Elements(s) == {};
    } else {
      DistinctSize(s[1..]);
      assert s[0] !in s[1..];
      assert Elements(s) == Elements(s[1..]) + {s[0]};
    }
  }

  /** Every block of a bucket is either in use or on the bucket's stack, once. */
  lemma Accounting(h: Heap, b: nat)
    requires ValidHeap(h) && b < |h.free|
    ensures |BlocksIn(h.blocks, b)| == |LiveIn(h.blocks, b)| + |h.free[b]|
  {
    var onStack, live := Elements(h.free[b]), LiveIn(h.blocks, b);
    DistinctSize(h.free[b]);
    forall x | x in onStack ensures x in BlocksIn(h.blocks, b) && x !in live {
      var k :| 0 <= k < |h.free[b]| && h.free[b][k] == x;
      assert OnStack(h, b, k);
    }
    assert BlocksIn(h.blocks, b) == live + onStack;
    assert |live + onStack| == |live| + |onStack|;
  }
}
