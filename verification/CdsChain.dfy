/**
  Registering blocks of the critical data store: each registration writes a descriptor at the tail and moves the
  tail behind the new block. Walking the descriptors finds the blocks again from memory alone.
 */
module CdsChain {
  import opened Bits
  import opened Descriptor
  import opened Options
  import Store
  import LogFile
  import PoolModel
  import PoolAnswers

  const SIGNATURE_LEN := 8
  const BLOCK_BASE: nat := 0x0015_0000
  const NAME_LEN := 40
  const BLOCK_SIZE: size_t := 16
  const UNUSED: nat := 0

  /** A registry record is in use when its identifier is not zero. */
  datatype Record = Record(id: nat, name: string, table: bool, offset: nat, size: nat)

  /** A block's data area. */
  datatype Block = Block(offset: nat, size: nat)

  /** The limits of the pool record that the first registration sets. */
  datatype Limits = Limits(maxOffset: size_t, totalSize: size_t, blockSize: size_t, numBuckets: nat)

  const NO_LIMITS := Limits(0, 0, 0, 0)

  /**
    `available` is whether the pool has been set up. `cdsSize` is the size of the store that the platform
    offers; if it is too small for anything but signatures, the store of the pool tests serves instead.
   */
  datatype Cds = Cds(mem: seq<byte>, available: bool, limits: Limits, tail: nat, lastId: nat, records: seq<Record>,
                     cdsSize: size_t)

  function Tail(v: Cds): nat { if v.available then v.tail else SIGNATURE_LEN }

  function LimitsOf(v: Cds): Limits {
    if v.available then v.limits else
    var maxOffset := if v.cdsSize > 2 * SIGNATURE_LEN then v.cdsSize - SIGNATURE_LEN else ToSize(|v.mem|);
    Limits(maxOffset, ToSize(maxOffset - SIGNATURE_LEN), BLOCK_SIZE, 1)
  }

  function Slot(v: Cds): (i: nat)
    requires |v.records| > 0
    ensures i < |v.records|
  {
    (v.lastId - BLOCK_BASE) % |v.records|
  }

  function NewDescriptor(size: size_t, padding: uint32): BD {
    BD(CHECK_PATTERN, MEMORY_ALLOCATED + 1, padding, size, 0)
  }

  /** One registration. The descriptor's padding is whatever the caller's stack holds. */
  function Register(v: Cds, name: Option<string>, size: size_t, table: bool, padding: uint32): Cds
    requires |v.records| > 0
  {
    var offset := Tail(v) + DESC;
    var stored := if name.Some? then LogFile.Stored(name.value, NAME_LEN) else "";
    Cds(WriteBD(v.mem, Tail(v), NewDescriptor(size, padding)), true, LimitsOf(v), offset + size, v.lastId + 1,
        v.records[Slot(v) := Record(v.lastId, stored, table, offset, size)], v.cdsSize)
  }

  // ----------------------------------------------------------------- walking

  /** The blocks found from a position on: descriptor by descriptor, until one is not marked. */
  function Walk(mem: seq<byte>, pos: nat): seq<Block>
    decreases |mem| - pos
  {
    if !Marked(mem, pos) then [] else
    var size := ReadBD(mem, pos).actualSize;
    [Block(pos + DESC, size)] + Walk(mem, pos + DESC + size)
  }

  predicate Marked(mem: seq<byte>, pos: nat) { pos + DESC <= |mem| && ReadBD(mem, pos).checkBits == CHECK_PATTERN }

  /** The descriptor of a block in use, of the one bucket, and not linked. */
  predicate InUse(mem: seq<byte>, pos: nat, size: nat) {
    && Marked(mem, pos)
    && var bd := ReadBD(mem, pos);
       bd.mark == MEMORY_ALLOCATED + 1 && bd.actualSize == size && bd.nextOffset == 0
  }

  /** Descriptors of blocks in use, each directly behind the block before it, from `pos` to `tail`. */
  predicate Chain(mem: seq<byte>, pos: nat, blocks: seq<Block>, tail: nat)
    decreases |blocks|
  {
    if blocks == [] then pos == tail else
    && InUse(mem, pos, blocks[0].size) && blocks[0].offset == pos + DESC
    && Chain(mem, pos + DESC + blocks[0].size, blocks[1..], tail)
  }

  lemma {:induction false} WalkChain(mem: seq<byte>, pos: nat, blocks: seq<Block>, tail: nat)
    requires Chain(mem, pos, blocks, tail)
    ensures Walk(mem, pos) == blocks + Walk(mem, tail)
    decreases |blocks|
  {
    hide Marked;
    hide ReadBD;
    if blocks == [] {
      assert blocks + Walk(mem, tail) == Walk(mem, tail);
    } else {
      WalkChain(mem, pos + DESC + blocks[0].size, blocks[1..], tail);
      assert [blocks[0]] + (blocks[1..] + Walk(mem, tail)) == blocks + Walk(mem, tail);
    }
  }

  /** Blocks lie in order, each with its descriptor in front of it. */
  lemma {:induction false} ChainOrder(mem: seq<byte>, pos: nat, blocks: seq<Block>, tail: nat, i: nat)
    requires Chain(mem, pos, blocks, tail)
    ensures pos <= tail
    ensures i < |blocks| ==> pos + DESC <= blocks[i].offset && blocks[i].offset + blocks[i].size <= tail
    ensures forall j :: i < j < |blocks| ==> blocks[i].offset + blocks[i].size + DESC <= blocks[j].offset
    decreases |blocks|
  {
    if blocks != [] {
      var next := pos + DESC + blocks[0].size;
      if i > 0 {
        ChainOrder(mem, next, blocks[1..], tail, i - 1);
        assert forall j :: i < j < |blocks| ==> blocks[j] == blocks[1..][j - 1];
      } else {
        ChainOrder(mem, next, blocks[1..], tail, 0);
        forall j | 0 < j < |blocks| ensures blocks[0].offset + blocks[0].size + DESC <= blocks[j].offset {
          ChainOrder(mem, next, blocks[1..], tail, j - 1);
        }
      }
    }
  }

  /** Writing bytes that belong to no descriptor keeps the chain. */
  lemma {:induction false} ChainFrame(mem: seq<byte>, pos: nat, blocks: seq<Block>, tail: nat, at: nat,
                                        bytes: seq<byte>)
    requires Chain(mem, pos, blocks, tail)
    requires forall i :: 0 <= i < |blocks| ==> blocks[i].offset <= at || at + |bytes| <= blocks[i].offset - DESC
    ensures Chain(Splice(mem, at, bytes), pos, blocks, tail)
    decreases |blocks|
  {
    if blocks != [] {
      ReadElsewhere(mem, at, bytes, pos);
      ChainFrame(mem, pos + DESC + blocks[0].size, blocks[1..], tail, at, bytes);
    }
  }

  /** A marked descriptor at the tail makes the chain longer. */
  lemma {:induction false} ChainGrows(mem: seq<byte>, pos: nat, blocks: seq<Block>, tail: nat, size: size_t)
    requires Chain(mem, pos, blocks, tail) && InUse(mem, tail, size)
    ensures Chain(mem, pos, blocks + [Block(tail + DESC, size)], tail + DESC + size)
    decreases |blocks|
  {
    var b := Block(tail + DESC, size);
    if blocks == [] {
      assert blocks + [b] == [b] && [b][1..] == [];
    } else {
      ChainGrows(mem, pos + DESC + blocks[0].size, blocks[1..], tail, size);
      assert (blocks + [b])[1..] == blocks[1..] + [b];
    }
  }

  // ----------------------------------------------------------------- runs

  /** Registrations, and writes into the data area of a registered block. */
  datatype Op =
    | RegisterOp(name: Option<string>, size: size_t, table: bool, padding: uint32)
    | WriteOp(slot: nat, at: nat, bytes: seq<byte>)

  predicate Permitted(v: Cds, op: Op) {
    |v.records| > 0 &&
    match op
    case RegisterOp(_, size, _, _) => Tail(v) + DESC + size <= |v.mem|
    case WriteOp(slot, at, bytes) =>
      && slot < |v.records| && v.records[slot].id != UNUSED
      && v.records[slot].offset <= at && at + |bytes| <= v.records[slot].offset + v.records[slot].size
  }

  function Apply(v: Cds, op: Op): Cds
    requires Permitted(v, op)
  {
    match op
    case RegisterOp(name, size, table, padding) => Register(v, name, size, table, padding)
    case WriteOp(slot, at, bytes) => v.(mem := Splice(v.mem, at, bytes))
  }

  predicate PermittedRun(v: Cds, ops: seq<Op>)
    decreases |ops|
  {
    ops != [] ==> Permitted(v, ops[0]) && PermittedRun(Apply(v, ops[0]), ops[1..])
  }

  function Run(v: Cds, ops: seq<Op>): Cds
    requires PermittedRun(v, ops)
    decreases |ops|
  {
    if ops == [] then v else Run(Apply(v, ops[0]), ops[1..])
  }

  /** The blocks that registrations of these sizes make from a tail on. */
  function Laid(tail: nat, ops: seq<Op>): seq<Block>
    decreases |ops|
  {
    if ops == [] then []
    else if ops[0].RegisterOp? then [Block(tail + DESC, ops[0].size)] + Laid(tail + DESC + ops[0].size, ops[1..])
    else Laid(tail, ops[1..])
  }

  lemma LaidStep(v: Cds, blocks: seq<Block>, ops: seq<Op>)
    requires ops != [] && Permitted(v, ops[0])
    ensures blocks + Laid(Tail(v), ops) == blocks + Laid(Tail(v), [ops[0]]) + Laid(Tail(Apply(v, ops[0])), ops[1..])
    ensures |Laid(Tail(v), [ops[0]])| == Registrations([ops[0]])
    ensures Registrations(ops) == Registrations([ops[0]]) + Registrations(ops[1..])
  {
    hide WriteBD;
    hide Splice;
    hide Slot;
    hide LogFile.Stored;
    assert [ops[0]][1..] == [];
  }

  /** The blocks so far; every record in use is of one of them. */
  predicate Linked(v: Cds, blocks: seq<Block>) {
    && Chain(v.mem, SIGNATURE_LEN, blocks, Tail(v))
    && forall i :: 0 <= i < |v.records| && v.records[i].id != UNUSED ==>
         Block(v.records[i].offset, v.records[i].size) in blocks
  }

  lemma StepLinked(v: Cds, blocks: seq<Block>, op: Op)
    requires Linked(v, blocks) && Permitted(v, op)
    ensures Linked(Apply(v, op), blocks + Laid(Tail(v), [op]))
  {
    hide Chain;
    hide Splice;
    hide WriteBD;
    hide Slot;
    hide LogFile.Stored;
    if op.RegisterOp? {
      ChainRegistered(v, blocks, op);
    } else {
      DataApart(v, blocks, op.slot, op.at, op.bytes);
      ChainFrame(v.mem, SIGNATURE_LEN, blocks, Tail(v), op.at, op.bytes);
      assert Laid(Tail(v), [op]) == [] && blocks + [] == blocks;
    }
  }

  lemma ChainRegistered(v: Cds, blocks: seq<Block>, op: Op)
    requires Chain(v.mem, SIGNATURE_LEN, blocks, Tail(v)) && Permitted(v, op) && op.RegisterOp?
    ensures var b := Block(Tail(v) + DESC, op.size);
            && Laid(Tail(v), [op]) == [b]
            && Chain(Apply(v, op).mem, SIGNATURE_LEN, blocks + [b], Tail(v) + DESC + op.size)
  {
    hide ReadBD;
    hide Splice;
    hide Slot;
    hide LogFile.Stored;
    var tail, bd := Tail(v), NewDescriptor(op.size, op.padding);
    forall i | 0 <= i < |blocks| ensures blocks[i].offset <= tail {
      ChainOrder(v.mem, SIGNATURE_LEN, blocks, tail, i);
    }
    ChainFrame(v.mem, SIGNATURE_LEN, blocks, tail, tail, Encode(bd));
    ReadBack(v.mem, tail, bd);
    assert Laid(tail, [op]) == [Block(tail + DESC, op.size)];
    hide Chain;
    ChainGrows(Apply(v, op).mem, SIGNATURE_LEN, blocks, tail, op.size);
  }

  /** A block's data area meets no descriptor. */
  lemma DataApart(v: Cds, blocks: seq<Block>, slot: nat, at: nat, bytes: seq<byte>)
    requires Linked(v, blocks) && Permitted(v, WriteOp(slot, at, bytes))
    ensures forall i :: 0 <= i < |blocks| ==> blocks[i].offset <= at || at + |bytes| <= blocks[i].offset - DESC
  {
    var k :| 0 <= k < |blocks| && blocks[k] == Block(v.records[slot].offset, v.records[slot].size);
    ChainOrder(v.mem, SIGNATURE_LEN, blocks, Tail(v), k);
    forall i | 0 <= i < |blocks| ensures blocks[i].offset <= at || at + |bytes| <= blocks[i].offset - DESC {
      if i < k { ChainOrder(v.mem, SIGNATURE_LEN, blocks, Tail(v), i); }
    }
  }

  lemma {:induction false} RunLinked(v: Cds, blocks: seq<Block>, ops: seq<Op>)
    requires Linked(v, blocks) && PermittedRun(v, ops)
    ensures Linked(Run(v, ops), blocks + Laid(Tail(v), ops))
    decreases |ops|
  {
    if ops == [] {
      assert blocks + Laid(Tail(v), ops) == blocks;
    } else {
      var op, w := ops[0], Apply(v, ops[0]);
      StepLinked(v, blocks, op);
      LaidStep(v, blocks, ops);
      hide Apply;
      hide Permitted;
      hide Linked;
      hide Laid;
      RunLinked(w, blocks + Laid(Tail(v), [op]), ops[1..]);
    }
  }

  /** No pool and no records yet; memory holds anything. */
  function Empty(mem: seq<byte>, maxEntries: nat, cdsSize: size_t): Cds {
    Cds(mem, false, NO_LIMITS, 0, BLOCK_BASE, seq(maxEntries, _ => Record(UNUSED, "", false, 0, 0)), cdsSize)
  }

  /** The first registration sets the limits of the pool, and none after it changes them. */
  lemma {:induction false} LimitsSetOnce(v: Cds, ops: seq<Op>)
    requires PermittedRun(v, ops)
    ensures LimitsOf(Run(v, ops)) == LimitsOf(v)
    ensures Run(v, ops).available <==> v.available || Registrations(ops) > 0
    decreases |ops|
  {
    if ops != [] {
      hide Splice; hide WriteBD; hide Slot; hide LogFile.Stored;
      LimitsSetOnce(Apply(v, ops[0]), ops[1..]);
    }
  }

  /** Whatever is registered and written, walking from the first tail visits exactly the blocks registered, in
      order; the walk stops at the tail exactly if memory does not happen to hold a mark there. */
  lemma WalkRecovers(mem: seq<byte>, maxEntries: nat, cdsSize: size_t, ops: seq<Op>)
    requires PermittedRun(Empty(mem, maxEntries, cdsSize), ops)
    ensures var v, laid := Run(Empty(mem, maxEntries, cdsSize), ops), Laid(SIGNATURE_LEN, ops);
            && Walk(v.mem, SIGNATURE_LEN) == laid + Walk(v.mem, Tail(v))
            && (Walk(v.mem, SIGNATURE_LEN) == laid <==> !Marked(v.mem, Tail(v)))
  {
    var v, laid := Run(Empty(mem, maxEntries, cdsSize), ops), Laid(SIGNATURE_LEN, ops);
    RunLinked(Empty(mem, maxEntries, cdsSize), [], ops);
    assert [] + laid == laid;
    WalkChain(v.mem, SIGNATURE_LEN, laid, Tail(v));
    assert Walk(v.mem, Tail(v)) == [] ==> laid + Walk(v.mem, Tail(v)) == laid;
  }

  /** Where a registration has left a mark, a registry set up again over the same bytes still sees it. */
  lemma OldMarks(mem: seq<byte>, maxEntries: nat, cdsSize: size_t, size: size_t)
    requires SIGNATURE_LEN + 2 * (DESC + size) <= |mem| && maxEntries > 0
    ensures var op := RegisterOp(None, size, false, 0);
      && Permitted(Empty(mem, maxEntries, cdsSize), op)
      && var first := Apply(Empty(mem, maxEntries, cdsSize), op);
      && Permitted(first, op)
      && var again := Empty(Apply(first, op).mem, maxEntries, cdsSize);
      && Permitted(again, op)
      && var v := Apply(again, op);
      Marked(v.mem, Tail(v)) && Walk(v.mem, SIGNATURE_LEN) != [Block(SIGNATURE_LEN + DESC, size)]
  {
    var op, bd := RegisterOp(None, size, false, 0), NewDescriptor(size, 0);
    var first := Apply(Empty(mem, maxEntries, cdsSize), op);
    var second := Apply(first, op);
    var v := Apply(Empty(second.mem, maxEntries, cdsSize), op);
    var at := SIGNATURE_LEN + DESC + size;
    hide Slot; hide LogFile.Stored; hide ReadBD; hide Splice; hide Walk;
    ReadBack(first.mem, at, bd);
    ReadElsewhere(second.mem, SIGNATURE_LEN, Encode(bd), at);
    assert Marked(v.mem, at);
    assert Laid(SIGNATURE_LEN, [op]) == [Block(SIGNATURE_LEN + DESC, size)];
    OneRun(Empty(second.mem, maxEntries, cdsSize), op);
    WalkRecovers(second.mem, maxEntries, cdsSize, [op]);
  }

  lemma OneRun(v: Cds, op: Op)
    requires Permitted(v, op)
    ensures PermittedRun(v, [op]) && Run(v, [op]) == Apply(v, op)
  {
    hide Apply;
    assert [op][1..] == [];
    assert Run(Apply(v, op), []) == Apply(v, op);
  }

  /**
    The descriptor in front of every block registered says, whatever has been written into blocks since, that the
    block is in use, of the pool's bucket, with the size registered, and linked to none.
   */
  lemma BlocksInUse(mem: seq<byte>, maxEntries: nat, cdsSize: size_t, ops: seq<Op>, i: nat)
    requires PermittedRun(Empty(mem, maxEntries, cdsSize), ops) && i < |Laid(SIGNATURE_LEN, ops)|
    ensures var v, b := Run(Empty(mem, maxEntries, cdsSize), ops), Laid(SIGNATURE_LEN, ops)[i];
      && DESC <= b.offset <= |v.mem|
      && var bd := ReadBD(v.mem, b.offset - DESC);
         bd.checkBits == CHECK_PATTERN && bd.mark == MEMORY_ALLOCATED + 1 && bd.actualSize == b.size
         && bd.nextOffset == 0
  {
    hide Run; hide Laid; hide Chain; hide ReadBD; hide PermittedRun;
    var laid := Laid(SIGNATURE_LEN, ops);
    EmptyLinked(mem, maxEntries, cdsSize);
    RunLinked(Empty(mem, maxEntries, cdsSize), [], ops);
    assert [] + laid == laid;
    var v := Run(Empty(mem, maxEntries, cdsSize), ops);
    ChainInUse(v.mem, SIGNATURE_LEN, laid, Tail(v), i);
  }

  lemma EmptyLinked(mem: seq<byte>, maxEntries: nat, cdsSize: size_t)
    ensures Linked(Empty(mem, maxEntries, cdsSize), [])
  {}

  lemma {:induction false} ChainInUse(mem: seq<byte>, pos: nat, blocks: seq<Block>, tail: nat, i: nat)
    requires Chain(mem, pos, blocks, tail) && i < |blocks|
    ensures blocks[i].offset >= DESC && InUse(mem, blocks[i].offset - DESC, blocks[i].size)
    decreases |blocks|
  {
    hide InUse;
    if i > 0 { ChainInUse(mem, pos + DESC + blocks[0].size, blocks[1..], tail, i - 1); }
  }

  /** So a pool scan that gets to such a block takes it for one in use. */
  lemma ScanFindsInUse(p: PoolModel.Pool, mem: seq<byte>, pos: nat, size: nat)
    requires InUse(mem, pos, size) && |p.buckets| == 1 && size <= p.buckets[0].blockSize
    requires p.alignMask == 0 && p.tail == pos && pos + DESC <= p.maxOffset
    ensures PoolModel.ScanTail(PoolModel.World(p, mem)) == PoolModel.FoundBlock(pos + DESC, 0, false)
  {
    hide ReadBD; hide AndNot; hide PoolModel.ScanTail; hide PoolModel.BucketIndex;
    AndNotZero(pos + DESC);
    assert PoolModel.NextBlock(p) == pos + DESC && PoolModel.DescOf(pos + DESC) == pos;
    PoolAnswers.ScanAnswers(PoolModel.World(p, mem), 0, false);
  }

  /** The limits that the first registration sets, for a store of the platform and for the store of the tests. */
  lemma LimitsAfter(mem: seq<byte>, maxEntries: nat, cdsSize: size_t, ops: seq<Op>)
    requires PermittedRun(Empty(mem, maxEntries, cdsSize), ops) && Registrations(ops) > 0
    ensures var limits := Run(Empty(mem, maxEntries, cdsSize), ops).limits;
      && (cdsSize > 16 ==> limits == Limits(cdsSize - 8, cdsSize - 16, 16, 1))
      && (cdsSize <= 16 && |mem| < SIZE_T ==> limits == Limits(|mem|, |mem| - 8, 16, 1))
  {
    hide Run; hide Laid; hide Registrations; hide PermittedRun; hide ReadBD;
    var start := Empty(mem, maxEntries, cdsSize);
    LimitsSetOnce(start, ops);
    OneBlockEach(SIGNATURE_LEN, ops);
    SameMemory(start, ops);
    RoomForSignature(mem, maxEntries, cdsSize, ops);
  }

  lemma RoomForSignature(mem: seq<byte>, maxEntries: nat, cdsSize: size_t, ops: seq<Op>)
    requires PermittedRun(Empty(mem, maxEntries, cdsSize), ops) && Registrations(ops) > 0
    ensures SIGNATURE_LEN <= |mem|
  {
    hide Run; hide Laid; hide PermittedRun; hide ReadBD; hide Chain; hide Registrations;
    var laid := Laid(SIGNATURE_LEN, ops);
    OneBlockEach(SIGNATURE_LEN, ops);
    EmptyLinked(mem, maxEntries, cdsSize);
    RunLinked(Empty(mem, maxEntries, cdsSize), [], ops);
    assert [] + laid == laid;
    var v := Run(Empty(mem, maxEntries, cdsSize), ops);
    SameMemory(Empty(mem, maxEntries, cdsSize), ops);
    ChainInUse(v.mem, SIGNATURE_LEN, laid, Tail(v), 0);
    ChainOrder(v.mem, SIGNATURE_LEN, laid, Tail(v), 0);
  }

  lemma {:induction false} SameMemory(v: Cds, ops: seq<Op>)
    requires PermittedRun(v, ops)
    ensures |Run(v, ops).mem| == |v.mem|
    decreases |ops|
  {
    if ops != [] {
      hide Splice; hide Slot; hide LogFile.Stored;
      SameMemory(Apply(v, ops[0]), ops[1..]);
    }
  }

  /** The names and kinds registered, in order. */
  function Entries(ops: seq<Op>): seq<(Option<string>, bool)> {
    if ops == [] then []
    else (if ops[0].RegisterOp? then [(ops[0].name, ops[0].table)] else []) + Entries(ops[1..])
  }

  predicate Named(v: Cds, es: seq<(Option<string>, bool)>) {
    && |es| <= |v.records| && v.lastId == BLOCK_BASE + |es|
    && forall i :: 0 <= i < |es| ==>
         && v.records[i].table == es[i].1
         && match es[i].0
            case None => v.records[i].name == ""
            case Some(name) => v.records[i].name == LogFile.Stored(name, NAME_LEN)
  }

  lemma StepNamed(v: Cds, es: seq<(Option<string>, bool)>, op: Op)
    requires Named(v, es) && Permitted(v, op) && |es| + Registrations([op]) <= |v.records|
    ensures Named(Apply(v, op), es + Entries([op]))
  {
    hide Splice; hide WriteBD; hide LogFile.Stored;
    assert [op][1..] == [];
    if op.RegisterOp? {
      assert Entries([op]) == [(op.name, op.table)];
      DivModUnique(|es|, |v.records|, 0, |es|);
      assert Slot(v) == |es|;
      hide Slot;
    } else {
      assert Entries([op]) == [] && es + [] == es;
    }
  }

  /** Within the size of the registry, each record has the name, cut to its buffer, and the kind given for it. */
  lemma {:induction false} RunNamed(v: Cds, es: seq<(Option<string>, bool)>, ops: seq<Op>)
    requires Named(v, es) && PermittedRun(v, ops) && |es| + Registrations(ops) <= |v.records|
    ensures Named(Run(v, ops), es + Entries(ops))
    decreases |ops|
  {
    if ops == [] {
      assert es + Entries(ops) == es;
    } else {
      LaidStep(v, [], ops);
      StepNamed(v, es, ops[0]);
      EntriesStep(es, ops);
      SameRecords(v, ops[0]);
      hide Apply; hide Permitted; hide Named; hide Entries; hide Registrations;
      RunNamed(Apply(v, ops[0]), es + Entries([ops[0]]), ops[1..]);
    }
  }

  lemma SameRecords(v: Cds, op: Op)
    requires Permitted(v, op)
    ensures |Apply(v, op).records| == |v.records|
  {}

  lemma EntriesStep(es: seq<(Option<string>, bool)>, ops: seq<Op>)
    requires ops != []
    ensures es + Entries(ops) == es + Entries([ops[0]]) + Entries(ops[1..])
    ensures |Entries([ops[0]])| == Registrations([ops[0]])
  {
    assert [ops[0]][1..] == [];
  }

  /** How many blocks a run registers. */
  function Registrations(ops: seq<Op>): nat {
    if ops == [] then 0 else (if ops[0].RegisterOp? then 1 else 0) + Registrations(ops[1..])
  }

  /** The records in use are the first ones, and each describes the block laid in its turn. */
  predicate InTurn(v: Cds, blocks: seq<Block>) {
    && |blocks| <= |v.records| && v.lastId == BLOCK_BASE + |blocks|
    && forall i :: 0 <= i < |v.records| ==>
         if i < |blocks|
         then v.records[i].id == BLOCK_BASE + i && Block(v.records[i].offset, v.records[i].size) == blocks[i]
         else v.records[i].id == UNUSED
  }

  lemma StepInTurn(v: Cds, blocks: seq<Block>, op: Op)
    requires InTurn(v, blocks) && Permitted(v, op) && |blocks| + Registrations([op]) <= |v.records|
    ensures InTurn(Apply(v, op), blocks + Laid(Tail(v), [op]))
  {
    if op.RegisterOp? {
      assert Laid(Tail(v), [op]) == [Block(Tail(v) + DESC, op.size)];
      assert Registrations([op]) == 1;
      DivModUnique(|blocks|, |v.records|, 0, |blocks|);
      assert Slot(v) == |blocks|;
      hide Slot;
    } else {
      assert Laid(Tail(v), [op]) == [] && blocks + [] == blocks;
    }
  }

  /** Within the size of the registry, record by record it describes the blocks laid. */
  lemma {:induction false} RunInTurn(v: Cds, blocks: seq<Block>, ops: seq<Op>)
    requires InTurn(v, blocks) && PermittedRun(v, ops) && |blocks| + Registrations(ops) <= |v.records|
    ensures InTurn(Run(v, ops), blocks + Laid(Tail(v), ops))
    decreases |ops|
  {
    if ops == [] {
      assert blocks + Laid(Tail(v), ops) == blocks;
    } else {
      var op, w := ops[0], Apply(v, ops[0]);
      LaidStep(v, blocks, ops);
      StepInTurn(v, blocks, op);
      assert |w.records| == |v.records|;
      hide Apply;
      hide Permitted;
      hide InTurn;
      hide Laid;
      RunInTurn(w, blocks + Laid(Tail(v), [op]), ops[1..]);
    }
  }

  /** What the walk finds is what the registry says, entry by entry. */
  lemma RegistryRecovered(mem: seq<byte>, maxEntries: nat, cdsSize: size_t, ops: seq<Op>, i: nat)
    requires PermittedRun(Empty(mem, maxEntries, cdsSize), ops) && i < Registrations(ops) <= maxEntries
    ensures var v := Run(Empty(mem, maxEntries, cdsSize), ops);
            && i < |v.records| && i < |Walk(v.mem, SIGNATURE_LEN)|
            && Walk(v.mem, SIGNATURE_LEN)[i] == Block(v.records[i].offset, v.records[i].size)
  {
    WalkRecovers(mem, maxEntries, cdsSize, ops);
    RunInTurn(Empty(mem, maxEntries, cdsSize), [], ops);
    var laid := Laid(SIGNATURE_LEN, ops);
    assert [] + laid == laid;
    OneBlockEach(SIGNATURE_LEN, ops);
  }

  lemma {:induction false} OneBlockEach(tail: nat, ops: seq<Op>)
    ensures |Laid(tail, ops)| == Registrations(ops)
    decreases |ops|
  {
    if ops != [] {
      OneBlockEach(if ops[0].RegisterOp? then tail + DESC + ops[0].size else tail, ops[1..]);
    }
  }

  // ----------------------------------------------------------------- in place

  class Global {
    const data: array<byte>
    const records: array<Record>
    const cdsSize: size_t
    var available: bool
    var limits: Limits
    var tail: nat
    var lastId: nat

    ghost function View(): (v: Cds)
      reads this, data, records
    {
      Cds(data[..], available, limits, tail, lastId, records[..], cdsSize)
    }

    constructor Reset(size: nat, maxEntries: nat, cdsSize: size_t)
      ensures fresh(data) && fresh(records) && data.Length == size && View() == Empty(data[..], maxEntries, cdsSize)
    {
      data := new byte[size];
      records := new Record[maxEntries](_ => Record(UNUSED, "", false, 0, 0));
      available, limits, tail, lastId := false, NO_LIMITS, 0, BLOCK_BASE;
      this.cdsSize := cdsSize;
      new;
      assert records[..] == Empty(data[..], maxEntries, cdsSize).records;
    }

    method SetupSingleRegistry(name: Option<string>, size: size_t, isTable: bool, padding: uint32) returns (slot: nat)
      requires records.Length > 0 && Tail(View()) + DESC <= data.Length
      modifies this, data, records
      ensures View() == Register(old(View()), name, size, isTable, padding) && slot == Slot(old(View()))
    {
      hide LogFile.Stored;
      hide Splice;
      slot := (lastId - BLOCK_BASE) % records.Length;
      if !available {
        if cdsSize > 2 * SIGNATURE_LEN {
          limits := limits.(maxOffset := cdsSize - SIGNATURE_LEN);
        } else {
          limits := limits.(maxOffset := ToSize(data.Length));
        }
        limits := limits.(blockSize := BLOCK_SIZE);
        limits := limits.(numBuckets := 1);
        tail := SIGNATURE_LEN;
        limits := limits.(totalSize := ToSize(limits.maxOffset - tail));
        available := true;
      }
      var id := lastId;
      lastId := id + 1;
      var rec := records[slot];
      if name.Some? {
        rec := rec.(name := LogFile.Stored(name.value, NAME_LEN));
      } else {
        rec := rec.(name := "");
      }
      rec := rec.(table := isTable, offset := tail + DESC, size := size);
      var bd := BD(CHECK_PATTERN, MEMORY_ALLOCATED + 1, padding, size, 0);
      Store.CopyIn(data, tail, Encode(bd));
      tail := rec.offset + rec.size;
      rec := rec.(id := id);
      records[slot] := rec;
    }
  }
}
