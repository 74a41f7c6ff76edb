/**
  The block descriptor of the generic pool and its byte layout in pool memory:
  two 16 bit words, four bytes of compiler padding, two 64 bit words, all little endian.
 */
module Descriptor {
  import opened Bits

  /** Size of one descriptor in pool memory. */
  const DESC := 24

  const CHECK_PATTERN: uint16 := 0x5a5a
  const MEMORY_ALLOCATED: uint16 := 0xaaaa
  const MEMORY_DEALLOCATED: uint16 := 0xdddd

  datatype BD = BD(checkBits: uint16, mark: uint16, padding: uint32, actualSize: size_t, nextOffset: size_t)

  const BLANK := BD(0, 0, 0, 0, 0)

  function Pow256(n: nat): (p: nat)
    ensures p >= 1
  {
    if n == 0 then 1 else 256 * Pow256(n - 1)
  }

  lemma Pow256Values()
    ensures Pow256(2) == UINT16_T && Pow256(4) == UINT32_T && Pow256(8) == SIZE_T
  {
    assert Pow256(4) == 256 * 256 * Pow256(2);
    assert Pow256(6) == 256 * 256 * Pow256(4);
    assert Pow256(8) == 256 * 256 * Pow256(6);
  }

  /** The low n bytes of v, least significant first. */
  function ToLE(v: nat, n: nat): (s: seq<byte>)
    ensures |s| == n
  {
    if n == 0 then [] else [v % 256] + ToLE(v / 256, n - 1)
  }

  function FromLE(s: seq<byte>): (v: nat)
    ensures v < Pow256(|s|)
  {
    if s == [] then 0 else s[0] + 256 * FromLE(s[1..])
  }

  lemma {:induction false} FromToLE(v: nat, n: nat)
    requires v < Pow256(n)
    ensures FromLE(ToLE(v, n)) == v
  {
    if n > 0 {
      FromToLE(v / 256, n - 1);
      assert ToLE(v, n)[1..] == ToLE(v / 256, n - 1);
    }
  }

  lemma {:induction false} ToFromLE(s: seq<byte>)
    ensures ToLE(FromLE(s), |s|) == s
  {
    if s != [] {
      ToFromLE(s[1..]);
      var v := FromLE(s[1..]);
      assert FromLE(s) == s[0] + 256 * v;
      assert FromLE(s) % 256 == s[0] && FromLE(s) / 256 == v;
      assert s == [s[0]] + s[1..];
    }
  }

  function FromU16(s: seq<byte>): uint16
    requires |s| == 2
  {
    Pow256Values();
    FromLE(s)
  }

  function FromU32(s: seq<byte>): uint32
    requires |s| == 4
  {
    Pow256Values();
    FromLE(s)
  }

  function FromU64(s: seq<byte>): size_t
    requires |s| == 8
  {
    Pow256Values();
    FromLE(s)
  }

  function Encode(bd: BD): (s: seq<byte>)
    ensures |s| == DESC
  {
    ToLE(bd.checkBits, 2) + ToLE(bd.mark, 2) + ToLE(bd.padding, 4)
    + ToLE(bd.actualSize, 8) + ToLE(bd.nextOffset, 8)
  }

  function Decode(s: seq<byte>): BD
    requires |s| == DESC
  {
    BD(FromU16(s[0..2]), FromU16(s[2..4]), FromU32(s[4..8]), FromU64(s[8..16]), FromU64(s[16..24]))
  }

  lemma DecodeEncode(bd: BD)
    ensures Decode(Encode(bd)) == bd
  {
    var s := Encode(bd);
    Pow256Values();
    FromToLE(bd.checkBits, 2);
    FromToLE(bd.mark, 2);
    FromToLE(bd.padding, 4);
    FromToLE(bd.actualSize, 8);
    FromToLE(bd.nextOffset, 8);
    assert s[0..2] == ToLE(bd.checkBits, 2);
    assert s[2..4] == ToLE(bd.mark, 2);
    assert s[4..8] == ToLE(bd.padding, 4);
    assert s[8..16] == ToLE(bd.actualSize, 8);
    assert s[16..24] == ToLE(bd.nextOffset, 8);
  }

  lemma EncodeDecode(s: seq<byte>)
    requires |s| == DESC
    ensures Encode(Decode(s)) == s
  {
    ToFromLE(s[0..2]);
    ToFromLE(s[2..4]);
    ToFromLE(s[4..8]);
    ToFromLE(s[8..16]);
    ToFromLE(s[16..24]);
    assert s == s[0..2] + s[2..4] + s[4..8] + s[8..16] + s[16..24];
  }

  /** The bytes of a descriptor: check bits, mark, padding, size and link, each with its low byte first. */
  lemma Layout(bd: BD)
    ensures var s := Encode(bd);
      && s[0] == bd.checkBits % 256 && s[1] == bd.checkBits / 256
      && s[2] == bd.mark % 256 && s[3] == bd.mark / 256
      && s[4] == bd.padding % 256 && s[5] == bd.padding / 256 % 256
      && s[8] == bd.actualSize % 256 && s[9] == bd.actualSize / 256 % 256
      && s[16] == bd.nextOffset % 256 && s[17] == bd.nextOffset / 256 % 256
  {
    LowBytes(bd.checkBits, 2);
    LowBytes(bd.mark, 2);
    LowBytes(bd.padding, 4);
    LowBytes(bd.actualSize, 8);
    LowBytes(bd.nextOffset, 8);
    hide ToLE;
  }

  lemma LowBytes(v: nat, n: nat)
    requires n >= 2
    ensures var s := ToLE(v, n);
            s[0] == v % 256 && s[1] == v / 256 % 256 && s[2..] == ToLE(v / 256 / 256, n - 2)
  {}

  /** Overwrites `mem` with `bytes` starting at `off`; out-of-range writes have no effect in the model. */
  function Splice(mem: seq<byte>, off: nat, bytes: seq<byte>): (r: seq<byte>)
    ensures |r| == |mem|
  {
    if off + |bytes| <= |mem| then mem[..off] + bytes + mem[off + |bytes|..] else mem
  }

  /** The descriptor stored at `off`; out-of-range reads give a blank one in the model. */
  function ReadBD(mem: seq<byte>, off: nat): BD {
    if off + DESC <= |mem| then Decode(mem[off..off + DESC]) else BLANK
  }

  function WriteBD(mem: seq<byte>, off: nat, bd: BD): (r: seq<byte>)
    ensures |r| == |mem|
  {
    Splice(mem, off, Encode(bd))
  }

  lemma ReadBack(mem: seq<byte>, off: nat, bd: BD)
    requires off + DESC <= |mem|
    ensures ReadBD(WriteBD(mem, off, bd), off) == bd
  {
    assert WriteBD(mem, off, bd)[off..off + DESC] == Encode(bd);
    DecodeEncode(bd);
  }

  /** A write that does not touch a descriptor's bytes does not change the descriptor. */
  lemma ReadElsewhere(mem: seq<byte>, at: nat, bytes: seq<byte>, off: nat)
    requires off + DESC <= at || at + |bytes| <= off
    ensures ReadBD(Splice(mem, at, bytes), off) == ReadBD(mem, off)
  {
    if off + DESC <= |mem| {
      assert Splice(mem, at, bytes)[off..off + DESC] == mem[off..off + DESC];
    }
  }

  /** Reading depends only on the bytes read. */
  lemma ReadSameBytes(mem: seq<byte>, mem': seq<byte>, off: nat)
    requires |mem| == |mem'|
    requires forall i :: off <= i < off + DESC && i < |mem| ==> mem[i] == mem'[i]
    ensures ReadBD(mem, off) == ReadBD(mem', off)
  {
    if off + DESC <= |mem| {
      assert mem[off..off + DESC] == mem'[off..off + DESC];
    }
  }

  lemma WriteRead(mem: seq<byte>, off: nat)
    ensures WriteBD(mem, off, ReadBD(mem, off)) == mem
  {
    if off + DESC <= |mem| {
      EncodeDecode(mem[off..off + DESC]);
      assert mem == mem[..off] + mem[off..off + DESC] + mem[off + DESC..];
    }
  }
}
