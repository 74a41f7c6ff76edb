/**
  Memory offsets and addresses in messages: a pair of 32-bit words that stands for a native unsigned integer of
  any width from 32 to 64 bits. Conversion shifts twice by 16, never by the whole width of the native type.
 */
module MemAddress {
  import opened Bits

  datatype Pair = Pair(low: uint32, high: uint32)

  /** Reduction to a number of bits. */
  function Low(x: nat, bits: nat): (r: nat)
    ensures r < Pow2(bits)
  {
    x % Pow2(bits)
  }

  function Shl(x: nat, k: nat, width: nat): nat { Low(x * Pow2(k), width) }

  function Shr(x: nat, k: nat): nat { if k == 0 then x else Shr(x / 2, k - 1) }

  function ToNative(p: Pair, width: nat): nat {
    var size := Shl(Low(p.high, width), 16, width);
    Or(Shl(size, 16, width), Low(p.low, width))
  }

  /** The two halves of a native value. */
  function Halves(v: nat): Pair { Pair(ToU32(v), ToU32(v / UINT32_T)) }

  method FromNative(native: nat) returns (p: Pair)
    ensures p == Halves(native)
  {
    hide Pow2;
    var val := native;
    var low := ToU32(val);
    val := Shr(val, 16);
    var high := ToU32(Shr(val, 16));
    ShiftTwice(native);
    p := Pair(low, high);
  }

  lemma ShiftTwice(v: nat)
    ensures Shr(Shr(v, 16), 16) == v / UINT32_T
  {
    Powers(0);
    ShrBounds(v, 16);
    ShrBounds(Shr(v, 16), 16);
    hide Pow2;
    hide Shr;
  }

  lemma {:induction false} ShrBounds(x: nat, k: nat)
    ensures Shr(x, k) * Pow2(k) <= x < Shr(x, k) * Pow2(k) + Pow2(k)
  {
    if k > 0 {
      ShrBounds(x / 2, k - 1);
      Double(Shr(x / 2, k - 1), Pow2(k - 1));
    }
  }

  lemma ModOfMod(x: nat, a: nat, b: nat)
    requires a > 0 && b > 0
    ensures a * b > 0 && x % (a * b) % b == x % b
  {
    var q, r := x / (a * b), x % (a * b);
    var q', r' := r / b, r % b;
    assert (a * b) * q == b * (a * q);
    assert b * (a * q) + b * q' == b * (a * q + q');
    DivModUnique(x, b, a * q + q', r');
  }

  /** The powers of two met here. */
  lemma Powers(k: nat)
    ensures Pow2(0) == 1 && Pow2(16) == 65536 && Pow2(32) == UINT32_T
    ensures Pow2(k + 16) == Pow2(k) * 65536
    ensures Pow2(k + 32) == Pow2(k) * UINT32_T
  {
    Pow2Of64();
    Pow2Add(k, 16);
    Pow2Add(k, 32);
    Pow2Add(8, 8);
    assert Pow2(8) == 256;
    assert Pow2(0) == 1;
  }

  lemma LowTimes(x: nat, k: nat, bits: nat)
    ensures Low(x * Pow2(k), bits + k) == Low(x, bits) * Pow2(k)
  {
    Pow2Add(bits, k);
    hide Pow2;
    ModTimes(x, Pow2(k), Pow2(bits));
  }

  lemma LowLow(x: nat, more: nat, bits: nat)
    ensures Low(Low(x, more + bits), bits) == Low(x, bits)
  {
    Pow2Add(more, bits);
    hide Pow2;
    ModOfMod(x, Pow2(more), Pow2(bits));
  }

  /** Two shifts by 16 keep what one shift by 32 would. */
  lemma ShlTwice(x: nat, width: nat)
    requires width >= 32
    ensures Shl(Shl(x, 16, width), 16, width) == Low(x, width - 32) * UINT32_T
  {
    var k := width - 32;
    LowTimes(x, 16, k + 16);
    var y := Low(x, k + 16);
    LowTimes(y * Pow2(16), 16, k + 16);
    LowTimes(y, 16, k);
    LowLow(x, 16, k);
    Powers(k);
    hide Pow2;
    hide Low;
  }

  lemma LowFits(x: nat, bits: nat)
    ensures x < Pow2(bits) <==> Low(x, bits) == x
  {
    hide Pow2;
    if x < Pow2(bits) { DivModUnique(x, Pow2(bits), 0, x); }
  }

  lemma WordFits(x: nat, width: nat)
    requires x < UINT32_T && width >= 32
    ensures Low(x, width) == x
  {
    Powers(width - 32);
    LowFits(x, width);
    hide Pow2;
    hide Low;
  }

  /** The value of a pair: the low word, and as much of the high word as the native type has room for. */
  lemma ToNativeValue(p: Pair, width: nat)
    requires width >= 32
    ensures ToNative(p, width) == Low(p.high, width - 32) * UINT32_T + p.low
  {
    WordFits(p.high, width);
    WordFits(p.low, width);
    ShlTwice(p.high, width);
    Powers(0);
    OrDisjoint(Low(p.high, width - 32), p.low, 32);
    hide Pow2;
    hide Low;
    hide Shl;
    hide Or;
  }

  /** Every native value survives the conversion to a pair and back. */
  lemma NativeRoundTrip(v: nat, width: nat)
    requires 32 <= width <= 64 && v < Pow2(width)
    ensures ToNative(Halves(v), width) == v
  {
    hide Pow2;
    hide Low;
    hide ToNative;
    hide Halves;
    Room(width);
    Powers(width - 32);
    HalvesFit(v, Pow2(width - 32));
    LowFits(Halves(v).high, width - 32);
    ToNativeValue(Halves(v), width);
  }

  lemma HalvesFit(v: nat, room: nat)
    requires v < room * UINT32_T && room <= UINT32_T
    ensures Halves(v).high < room && Halves(v).high * UINT32_T + Halves(v).low == v
  {}

  /** The high word is at least as wide as the room for it. */
  lemma Room(width: nat)
    requires 32 <= width <= 64
    ensures Pow2(width - 32) <= UINT32_T
  {
    Powers(0);
    Pow2Add(width - 32, 64 - width);
    hide Pow2;
    AtLeast(Pow2(width - 32), Pow2(64 - width));
  }

  lemma AtLeast(a: nat, b: nat)
    requires b >= 1
    ensures a <= a * b
  {}

  /** A pair comes back with its low word, and its high word reduced to what the native type has room for:
      whole at 64 bits, nothing at 32. */
  lemma PairRoundTrip(p: Pair, width: nat)
    requires 32 <= width <= 64
    ensures Low(p.high, width - 32) < UINT32_T
    ensures Halves(ToNative(p, width)) == Pair(p.low, Low(p.high, width - 32))
    ensures width == 64 ==> Halves(ToNative(p, width)) == p
    ensures width == 32 ==> Halves(ToNative(p, width)) == Pair(p.low, 0)
  {
    hide Pow2;
    hide Low;
    hide ToNative;
    hide Halves;
    ToNativeValue(p, width);
    Room(width);
    Powers(0);
    LowFits(p.high, width - 32);
    HalvesJoin(Low(p.high, width - 32), p.low);
  }

  lemma HalvesJoin(high: uint32, low: uint32)
    ensures Halves(high * UINT32_T + low) == Pair(low, high)
  {}

  /** A pair survives exactly when its high word fits the native type. */
  lemma PairKept(p: Pair, width: nat)
    requires 32 <= width <= 64
    ensures Halves(ToNative(p, width)) == p <==> p.high < Pow2(width - 32)
  {
    PairRoundTrip(p, width);
    LowFits(p.high, width - 32);
    hide Pow2;
    hide Low;
    hide ToNative;
  }
}
