/**
  The two kinds of pool storage. A direct store hands out a pointer into its bytes and its commit does
  nothing; an indirect store copies a descriptor out, and its commit copies the descriptor back.
 */
module Store {
  import opened Bits
  import opened Descriptor

  datatype Field = CheckBits | Mark | ActualSize | NextOffset

  datatype Assign = Assign(field: Field, value: size_t)

  /** One use of a descriptor: retrieve it, assign some of its fields, commit it. */
  datatype Triple = Triple(offset: nat, assigns: seq<Assign>)

  /** Assignment to a field of a descriptor; the 16 bit fields truncate. */
  function SetField(bd: BD, a: Assign): BD {
    match a.field
    case CheckBits => bd.(checkBits := ToU16(a.value))
    case Mark => bd.(mark := ToU16(a.value))
    case ActualSize => bd.(actualSize := a.value)
    case NextOffset => bd.(nextOffset := a.value)
  }

  function SetFields(bd: BD, assigns: seq<Assign>): BD
    decreases |assigns|
  {
    if assigns == [] then bd else SetFields(SetField(bd, assigns[0]), assigns[1..])
  }

  /** Position of a field in the descriptor's bytes. */
  function FieldAt(f: Field): nat {
    match f
    case CheckBits => 0
    case Mark => 2
    case ActualSize => 8
    case NextOffset => 16
  }

  function ValueBytes(a: Assign): (s: seq<byte>)
    ensures FieldAt(a.field) + |s| <= DESC
  {
    if a.field.CheckBits? || a.field.Mark? then ToLE(ToU16(a.value), 2) else ToLE(a.value, 8)
  }

  /** The same assignment made through a pointer to offset `ptr` of the pool bytes. */
  function Poke(mem: seq<byte>, ptr: nat, a: Assign): (r: seq<byte>)
    ensures |r| == |mem|
  {
    Splice(mem, ptr + FieldAt(a.field), ValueBytes(a))
  }

  function Pokes(mem: seq<byte>, ptr: nat, assigns: seq<Assign>): (r: seq<byte>)
    ensures |r| == |mem|
    decreases |assigns|
  {
    if assigns == [] then mem else Pokes(Poke(mem, ptr, assigns[0]), ptr, assigns[1..])
  }

  function IndirectRun(mem: seq<byte>, program: seq<Triple>): (r: seq<byte>)
    ensures |r| == |mem|
    decreases |program|
  {
    if program == [] then mem
    else
      var t := program[0];
      IndirectRun(WriteBD(mem, t.offset, SetFields(ReadBD(mem, t.offset), t.assigns)), program[1..])
  }

  function DirectRun(mem: seq<byte>, program: seq<Triple>): (r: seq<byte>)
    ensures |r| == |mem|
    decreases |program|
  {
    if program == [] then mem
    else DirectRun(Pokes(mem, program[0].offset, program[0].assigns), program[1..])
  }

  predicate InStore(program: seq<Triple>, size: nat) {
    forall t :: t in program ==> t.offset + DESC <= size
  }

  /** Each field's bytes are its own encoding. */
  lemma FieldBytes(s: seq<byte>)
    requires |s| == DESC
    ensures ToLE(Decode(s).checkBits, 2) == s[0..2]
    ensures ToLE(Decode(s).mark, 2) == s[2..4]
    ensures ToLE(Decode(s).padding, 4) == s[4..8]
    ensures ToLE(Decode(s).actualSize, 8) == s[8..16]
    ensures ToLE(Decode(s).nextOffset, 8) == s[16..24]
  {
    ToFromLE(s[0..2]);
    ToFromLE(s[2..4]);
    ToFromLE(s[4..8]);
    ToFromLE(s[8..16]);
    ToFromLE(s[16..24]);
  }

  lemma EncodeSetField(s: seq<byte>, a: Assign)
    requires |s| == DESC
    ensures var at, part := FieldAt(a.field), ValueBytes(a);
            Encode(SetField(Decode(s), a)) == s[..at] + part + s[at + |part|..]
  {
    FieldBytes(s);
    ReplacePiece(s, FieldAt(a.field), ValueBytes(a));
  }

  /** Replacing one field's bytes, seen as the concatenation of the five pieces of a descriptor. */
  lemma ReplacePiece(s: seq<byte>, at: nat, part: seq<byte>)
    requires |s| == DESC
    requires ((at == 0 || at == 2) && |part| == 2) || ((at == 8 || at == 16) && |part| == 8)
    ensures (if at == 0 then part else s[0..2]) + (if at == 2 then part else s[2..4]) + s[4..8]
            + (if at == 8 then part else s[8..16]) + (if at == 16 then part else s[16..24])
            == s[..at] + part + s[at + |part|..]
  {}

  lemma SpliceInside(mem: seq<byte>, ptr: nat, at: nat, part: seq<byte>)
    requires ptr + DESC <= |mem| && at + |part| <= DESC
    ensures var s := mem[ptr..ptr + DESC];
            Splice(mem, ptr + at, part) == Splice(mem, ptr, s[..at] + part + s[at + |part|..])
  {
    var s := mem[ptr..ptr + DESC];
    assert mem[..ptr + at] == mem[..ptr] + s[..at];
    assert mem[ptr + at + |part|..] == s[at + |part|..] + mem[ptr + DESC..];
  }

  lemma PokeIsSetField(mem: seq<byte>, ptr: nat, a: Assign)
    requires ptr + DESC <= |mem|
    ensures Poke(mem, ptr, a) == WriteBD(mem, ptr, SetField(ReadBD(mem, ptr), a))
  {
    EncodeSetField(mem[ptr..ptr + DESC], a);
    SpliceInside(mem, ptr, FieldAt(a.field), ValueBytes(a));
  }

  lemma WriteTwice(mem: seq<byte>, off: nat, a: BD, b: BD)
    ensures WriteBD(WriteBD(mem, off, a), off, b) == WriteBD(mem, off, b)
  {}

  lemma {:induction false} PokesAreSetFields(mem: seq<byte>, ptr: nat, assigns: seq<Assign>)
    requires ptr + DESC <= |mem|
    ensures Pokes(mem, ptr, assigns) == WriteBD(mem, ptr, SetFields(ReadBD(mem, ptr), assigns))
    decreases |assigns|
  {
    if assigns == [] {
      WriteRead(mem, ptr);
    } else {
      var bd := SetField(ReadBD(mem, ptr), assigns[0]);
      var mem' := Poke(mem, ptr, assigns[0]);
      PokeIsSetField(mem, ptr, assigns[0]);
      PokesAreSetFields(mem', ptr, assigns[1..]);
      ReadBack(mem, ptr, bd);
      WriteTwice(mem, ptr, bd, SetFields(bd, assigns[1..]));
    }
  }

  /** A program of committed uses leaves the same bytes in a direct store and in an indirect one. */
  lemma {:induction false} BackingRefinement(mem: seq<byte>, program: seq<Triple>)
    requires InStore(program, |mem|)
    ensures DirectRun(mem, program) == IndirectRun(mem, program)
    decreases |program|
  {
    if program != [] {
      var t := program[0];
      PokesAreSetFields(mem, t.offset, t.assigns);
      BackingRefinement(Pokes(mem, t.offset, t.assigns), program[1..]);
    }
  }

  /** The commit matters: an uncommitted change is visible in a direct store and lost in an indirect one. */
  lemma UncommittedChangeDiffers(mem: seq<byte>, ptr: nat, a: Assign)
    requires ptr + DESC <= |mem|
    ensures Poke(mem, ptr, a) == mem <==> SetField(ReadBD(mem, ptr), a) == ReadBD(mem, ptr)
  {
    PokeIsSetField(mem, ptr, a);
    WriteRead(mem, ptr);
    ReadBack(mem, ptr, SetField(ReadBD(mem, ptr), a));
  }

  class IndirectBuffer {
    const data: array<byte>
    var bd: BD

    constructor (size: nat)
      ensures fresh(data) && data.Length == size
    {
      data := new byte[size];
      bd := BLANK;
    }

    method Retrieve(offset: nat)
      requires offset + DESC <= data.Length
      modifies this
      ensures bd == ReadBD(data[..], offset)
    {
      bd := Decode(data[offset..offset + DESC]);
      assert data[offset..offset + DESC] == data[..][offset..offset + DESC];
    }

    method Commit(offset: nat)
      requires offset + DESC <= data.Length
      modifies data
      ensures data[..] == WriteBD(old(data[..]), offset, bd)
    {
      CopyIn(data, offset, Encode(bd));
    }

    method Run(program: seq<Triple>)
      requires InStore(program, data.Length)
      modifies this, data
      ensures data[..] == IndirectRun(old(data[..]), program)
    {
      var rest := program;
      while rest != []
        invariant InStore(rest, data.Length)
        invariant IndirectRun(data[..], rest) == IndirectRun(old(data[..]), program)
        decreases |rest|
      {
        var t := rest[0];
        Retrieve(t.offset);
        var todo := t.assigns;
        ghost var bytes := data[..];
        while todo != []
          invariant data[..] == bytes
          invariant SetFields(bd, todo) == SetFields(ReadBD(bytes, t.offset), t.assigns)
          decreases |todo|
        {
          bd := SetField(bd, todo[0]);
          todo := todo[1..];
        }
        Commit(t.offset);
        rest := rest[1..];
      }
    }
  }

  class DirectBuffer {
    const data: array<byte>

    constructor (size: nat)
      ensures fresh(data) && data.Length == size
    {
      data := new byte[size];
    }

    /** The pointer handed out addresses the pool bytes themselves. */
    method Retrieve(offset: nat) returns (ptr: nat)
      requires offset + DESC <= data.Length
      ensures ptr == offset
    {
      ptr := offset;
    }

    method AssignField(ptr: nat, a: Assign)
      requires ptr + DESC <= data.Length
      modifies data
      ensures data[..] == Poke(old(data[..]), ptr, a)
    {
      CopyIn(data, ptr + FieldAt(a.field), ValueBytes(a));
    }

    method Commit(offset: nat)
      requires offset + DESC <= data.Length
      ensures data[..] == old(data[..])
    {}

    /** Leaves exactly the bytes an indirect store would hold after the same program. */
    method Run(program: seq<Triple>)
      requires InStore(program, data.Length)
      modifies data
      ensures data[..] == IndirectRun(old(data[..]), program)
    {
      var rest := program;
      while rest != []
        invariant InStore(rest, data.Length)
        invariant DirectRun(data[..], rest) == DirectRun(old(data[..]), program)
        decreases |rest|
      {
        var t := rest[0];
        var ptr := Retrieve(t.offset);
        var todo := t.assigns;
        ghost var bytes := data[..];
        while todo != []
          invariant Pokes(data[..], ptr, todo) == Pokes(bytes, ptr, t.assigns)
          decreases |todo|
        {
          AssignField(ptr, todo[0]);
          todo := todo[1..];
        }
        Commit(t.offset);
        rest := rest[1..];
      }
      BackingRefinement(old(data[..]), program);
    }
  }

  /** memcpy of `bytes` into `data` at `offset`. */
  method CopyIn(data: array<byte>, offset: nat, bytes: seq<byte>)
    requires offset + |bytes| <= data.Length
    modifies data
    ensures data[..] == Splice(old(data[..]), offset, bytes)
  {
    for i := 0 to |bytes|
      invariant data[offset..offset + i] == bytes[..i]
      invariant forall k :: 0 <= k < offset || offset + |bytes| <= k < data.Length ==> data[k] == old(data[k])
    {
      data[offset + i] := bytes[i];
      assert data[offset..offset + i + 1] == data[offset..offset + i] + [bytes[i]];
    }
    assert data[offset..offset + |bytes|] == bytes;
    assert data[..] == data[..offset] + data[offset..offset + |bytes|] + data[offset + |bytes|..];
    assert data[..offset] == old(data[..offset]);
    assert data[offset + |bytes|..] == old(data[offset + |bytes|..]);
  }
}
