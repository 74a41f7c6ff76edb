/**
  Unsigned integers and the C operators on them that the modelled code uses:
  the bitwise `&`, `& ~` and `|`, left and right shifts, and conversion to a narrower type.
 */
module Bits {

  const UINT16_T := 0x1_0000
  const UINT32_T := 0x1_0000_0000
  const SIZE_T := 0x1_0000_0000_0000_0000

  type byte = x: int | 0 <= x < 256
  type uint16 = x: int | 0 <= x < UINT16_T
  type uint32 = x: int | 0 <= x < UINT32_T
  type size_t = x: int | 0 <= x < SIZE_T

  /** Conversion of any integer to uint16, uint32 and size_t (reduction modulo the range). */
  function ToU16(x: int): uint16 { x % UINT16_T }

  function ToU32(x: int): uint32 { x % UINT32_T }

  function ToSize(x: int): size_t { x % SIZE_T }

  function Pow2(k: nat): (p: nat)
    ensures p >= 1
  {
    if k == 0 then 1 else 2 * Pow2(k - 1)
  }

  /** Bit `a & b`. */
  function And(a: nat, b: nat): nat {
    if a == 0 || b == 0 then 0
    else (if a % 2 == 1 && b % 2 == 1 then 1 else 0) + 2 * And(a / 2, b / 2)
  }

  /** Bit `x & ~m`. */
  function AndNot(x: nat, m: nat): (r: nat)
    ensures r <= x
  {
    if x == 0 then 0
    else (if x % 2 == 1 && m % 2 == 0 then 1 else 0) + 2 * AndNot(x / 2, m / 2)
  }

  /** Bit `a | b`. */
  function Or(a: nat, b: nat): nat {
    if a == 0 then b
    else if b == 0 then a
    else (if a % 2 == 1 || b % 2 == 1 then 1 else 0) + 2 * Or(a / 2, b / 2)
  }

  /** Bit `a ^ b`. */
  function Xor(a: nat, b: nat): nat {
    if a == 0 then b
    else if b == 0 then a
    else (if a % 2 != b % 2 then 1 else 0) + 2 * Xor(a / 2, b / 2)
  }

  predicate IsPow2(n: nat) {
    n == 1 || (n > 1 && n % 2 == 0 && IsPow2(n / 2))
  }

  lemma MultipleAtLeast(d: int, t: int)
    requires d >= 0
    ensures t >= 1 ==> d * t >= d
    ensures t <= -1 ==> d * t <= -d
  {
    if t >= 1 {
      assert d * (t - 1) >= 0;
    } else if t <= -1 {
      assert d * (-t - 1) >= 0;
    }
  }

  /** Quotient and remainder are unique. */
  lemma DivModUnique(x: int, d: int, q: int, r: int)
    requires d > 0 && x == d * q + r && 0 <= r < d
    ensures x / d == q && x % d == r
  {
    var q', r' := x / d, x % d;
    assert x == d * q' + r';
    assert d * (q - q') == d * q - d * q';
    MultipleAtLeast(d, q - q');
  }

  lemma {:induction false} IsPow2Exponent(n: nat) returns (k: nat)
    requires IsPow2(n)
    ensures n == Pow2(k)
  {
    if n == 1 {
      k := 0;
    } else {
      var j := IsPow2Exponent(n / 2);
      k := j + 1;
    }
  }

  lemma {:induction false} Pow2Add(a: nat, b: nat)
    ensures Pow2(a + b) == Pow2(a) * Pow2(b)
  {
    if a > 0 { Pow2Add(a - 1, b); }
  }

  lemma {:induction false} AndSelf(n: nat)
    ensures And(n, n) == n
  {
    if n > 0 { AndSelf(n / 2); }
  }

  lemma {:induction false} XorCancel(a: nat, b: nat)
    ensures Xor(Xor(a, b), b) == a && Xor(Xor(a, b), a) == b && Xor(b, Xor(a, b)) == a
  {
    if a == 0 {
      XorSelf(b);
    } else if b == 0 {
      XorSelf(a);
    } else {
      XorCancel(a / 2, b / 2);
      var x := Xor(a, b);
      assert x / 2 == Xor(a / 2, b / 2) && x % 2 == if a % 2 != b % 2 then 1 else 0;
    }
  }

  lemma {:induction false} XorSelf(a: nat)
    ensures Xor(a, a) == 0
  {
    if a > 0 { XorSelf(a / 2); }
  }

  lemma {:induction false} XorBound(a: nat, b: nat, k: nat)
    requires a < Pow2(k) && b < Pow2(k)
    ensures Xor(a, b) < Pow2(k)
    decreases k
  {
    if k > 0 && a > 0 && b > 0 { XorBound(a / 2, b / 2, k - 1); }
  }

  lemma Pow2Of64()
    ensures Pow2(32) == UINT32_T && Pow2(64) == SIZE_T
  {
    Pow2Of8();
    hide Pow2;
    Pow2Add(8, 8);
    Pow2Add(16, 16);
    Pow2Add(32, 32);
  }

  lemma Pow2Of8()
    ensures Pow2(8) == 256
  {
    assert Pow2(4) == 16;
    Pow2Add(4, 4);
  }

  /** The exclusive-or of two words is a word. */
  lemma XorWord(a: size_t, b: size_t)
    ensures Xor(a, b) < SIZE_T
  {
    Pow2Of64();
    XorBound(a, b, 64);
  }

  lemma {:induction false} AndNotZero(x: nat)
    ensures AndNot(x, 0) == x
  {
    if x > 0 { AndNotZero(x / 2); }
  }

  lemma AndNotStep(h: nat, b: nat, m: nat)
    requires b < 2
    ensures AndNot(2 * h + b, 2 * m + 1) == 2 * AndNot(h, m)
  {
    var x := 2 * h + b;
    assert x / 2 == h && (2 * m + 1) / 2 == m;
  }

  /** Clearing the low k bits rounds down to a multiple of 2^k. */
  lemma {:induction false} AndNotMask(q: nat, r: nat, k: nat)
    requires r < Pow2(k)
    ensures AndNot(q * Pow2(k) + r, Pow2(k) - 1) == q * Pow2(k)
  {
    if k == 0 {
      AndNotZero(q);
    } else {
      var p := Pow2(k - 1);
      AndNotMask(q, r / 2, k - 1);
      AndNotStep(q * p + r / 2, r % 2, p - 1);
      Double(q, p);
    }
  }

  lemma Double(q: int, p: int)
    ensures q * (2 * p) == 2 * (q * p)
  {}

  /** The classic test: n & (n - 1) is zero exactly for powers of two. */
  lemma {:induction false} PowerOfTwoTest(n: nat)
    requires n >= 1
    ensures And(n - 1, n) == 0 <==> IsPow2(n)
  {
    if n > 1 {
      if n % 2 == 1 {
        AndSelf(n / 2);
        assert (n - 1) / 2 == n / 2;
      } else {
        assert (n - 1) / 2 == n / 2 - 1;
        PowerOfTwoTest(n / 2);
      }
    }
  }

  /** Joining disjoint bit ranges with `|` is addition. */
  lemma {:induction false} OrDisjoint(hi: nat, lo: nat, k: nat)
    requires lo < Pow2(k)
    ensures Or(hi * Pow2(k), lo) == hi * Pow2(k) + lo
    decreases k
  {
    if k > 0 && lo > 0 && hi > 0 {
      var p := Pow2(k - 1);
      var x := hi * (2 * p);
      assert x == 2 * (hi * p);
      assert x % 2 == 0 && x / 2 == hi * p;
      assert hi * p >= 1 by { assert hi * p >= 1 * p; }
      OrDisjoint(hi, lo / 2, k - 1);
    }
  }

  /** Aligning: `(x + mask) & ~mask` for a mask one below a power of two. */
  function AlignUp(x: nat, mask: nat): nat { AndNot(x + mask, mask) }

  lemma DivModOf(y: nat, d: nat) returns (q: nat, r: nat)
    requires d > 0
    ensures y == q * d + r && r < d
  {
    q, r := y / d, y % d;
  }

  lemma MultipleMod(q: nat, d: nat)
    requires d > 0
    ensures (q * d) % d == 0
  {
    DivModUnique(q * d, d, q, 0);
  }

  lemma AlignUpBounds(x: nat, mask: nat)
    requires IsPow2(mask + 1)
    ensures x <= AlignUp(x, mask) <= x + mask
    ensures AlignUp(x, mask) % (mask + 1) == 0
  {
    var k := IsPow2Exponent(mask + 1);
    var q, r := DivModOf(x + mask, mask + 1);
    AndNotMask(q, r, k);
    MultipleMod(q, mask + 1);
  }

  lemma ModTimes(x: nat, d: nat, m: nat)
    requires d > 0 && m > 0
    ensures m * d > 0 && (x * d) % (m * d) == (x % m) * d
  {
    var q, r := x / m, x % m;
    assert x * d == (m * q + r) * d == m * q * d + r * d;
    assert m * q * d == (m * d) * q;
    assert r * d <= (m - 1) * d == m * d - d;
    DivModUnique(x * d, m * d, q, r * d);
  }

  /** Clearing the bits of an alignment mask agrees with reduction to a word. */
  lemma AndNotWord(x: nat, mask: nat)
    requires IsPow2(mask + 1) && mask < SIZE_T
    ensures AndNot(x % SIZE_T, mask) == AndNot(x, mask) % SIZE_T
  {
    hide AndNot;
    hide Pow2;
    hide IsPow2;
    var k := IsPow2Exponent(mask + 1);
    Pow2Of64();
    if k > 64 { Pow2Larger(64, k); }
    var p, m := Pow2(k), Pow2(64 - k);
    Pow2Add(64 - k, k);
    var q, r := DivModOf(x, p);
    AndNotMask(q, r, k);
    AndNotMask(q % m, r, k);
    ModTimes(q, p, m);
    WordOf(q, r, p, m);
  }

  lemma Pow2Larger(a: nat, b: nat)
    requires a < b
    ensures 2 * Pow2(a) <= Pow2(b)
    decreases b
  {
    if a < b - 1 { Pow2Larger(a, b - 1); }
  }

  lemma WordOf(q: nat, r: nat, p: nat, m: nat)
    requires p > 0 && m > 0 && r < p
    ensures m * p > 0 && (q * p + r) % (m * p) == (q % m) * p + r
  {
    var a, b := q / m, q % m;
    assert q * p == (m * a + b) * p == m * a * p + b * p;
    assert m * a * p == (m * p) * a;
    assert b * p <= (m - 1) * p == m * p - p;
    DivModUnique(q * p + r, m * p, a, b * p + r);
  }
}
