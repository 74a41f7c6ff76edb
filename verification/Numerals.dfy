/** Decimal numerals as the print formats produce them, with and without leading zeros. */
module Numerals {

  function Digit(d: nat): char
    requires d < 10
  {
    '0' + d as char
  }

  function DigitValue(c: char): (v: int) { c as int - '0' as int }

  function Pow10(k: nat): (p: nat)
    ensures p >= 1
  {
    if k == 0 then 1 else 10 * Pow10(k - 1)
  }

  /** `%d` of a natural number. */
  function Decimal(n: nat): (s: string)
    ensures |s| >= 1
    ensures forall i :: 0 <= i < |s| ==> '0' <= s[i] <= '9'
  {
    if n < 10 then [Digit(n)] else Decimal(n / 10) + [Digit(n % 10)]
  }

  function Zeros(k: nat): (s: string)
    ensures |s| == k && forall i :: 0 <= i < k ==> s[i] == '0'
  {
    seq(k, _ => '0')
  }

  /** `%0*d` of a natural number. */
  function Padded(n: nat, width: nat): (s: string)
    ensures |s| >= width && |s| >= |Decimal(n)|
  {
    var s := Decimal(n);
    if |s| < width then Zeros(width - |s|) + s else s
  }

  /** The last `width` digits of a number. */
  function LastDigits(n: nat, width: nat): (s: string)
    ensures |s| == width
  {
    if width == 0 then [] else LastDigits(n / 10, width - 1) + [Digit(n % 10)]
  }

  /** What a numeral denotes. */
  function Value(s: string): int {
    if s == [] then 0 else 10 * Value(s[..|s| - 1]) + DigitValue(s[|s| - 1])
  }

  /** Dictionary order. */
  predicate Less(s: string, t: string) {
    t != [] && (s == [] || s[0] < t[0] || (s[0] == t[0] && Less(s[1..], t[1..])))
  }

  lemma {:induction false} ValueOfDecimal(n: nat)
    ensures Value(Decimal(n)) == n
  {
    if n >= 10 {
      ValueOfDecimal(n / 10);
      assert Decimal(n)[..|Decimal(n)| - 1] == Decimal(n / 10);
    }
  }

  /** The number of digits is the least power of ten above the number. */
  lemma {:induction false} DigitCount(n: nat)
    ensures n < Pow10(|Decimal(n)|)
    ensures n >= 10 ==> Pow10(|Decimal(n)| - 1) <= n
    ensures n < 10 ==> |Decimal(n)| == 1
  {
    if n >= 10 {
      DigitCount(n / 10);
    } else {
      assert Pow10(1) == 10;
    }
  }

  lemma {:induction false} MoreDigits(m: nat, n: nat)
    requires m <= n
    ensures |Decimal(m)| <= |Decimal(n)|
  {
    if m >= 10 { MoreDigits(m / 10, n / 10); }
  }

  /** A numeral filled up to a width is the number's last digits. */
  lemma {:induction false} PaddedIsLastDigits(n: nat, width: nat)
    requires |Decimal(n)| <= width
    ensures Padded(n, width) == LastDigits(n, width)
  {
    if n >= 10 {
      PaddedIsLastDigits(n / 10, width - 1);
      var s, t := Decimal(n), Decimal(n / 10);
      assert Zeros(width - |s|) + s == Zeros(width - 1 - |t|) + t + [Digit(n % 10)];
    } else {
      AllZeros(width - 1);
      assert LastDigits(0, width - 1) == Zeros(width - 1);
    }
  }

  /** Leading zeros do not change what a numeral denotes. */
  lemma {:induction false} ValueOfZeros(k: nat, s: string)
    ensures Value(Zeros(k) + s) == Value(s)
  {
    var t := Zeros(k) + s;
    if s != [] {
      ValueOfZeros(k, s[..|s| - 1]);
      assert t[..|t| - 1] == Zeros(k) + s[..|s| - 1];
    } else if k > 0 {
      ValueOfZeros(k - 1, s);
      assert t[..|t| - 1] == Zeros(k - 1) + s;
    }
  }

  lemma ValueOfPadded(n: nat, width: nat)
    ensures Value(Padded(n, width)) == n
    ensures |Padded(n, width)| == if |Decimal(n)| < width then width else |Decimal(n)|
  {
    hide Value;
    hide Decimal;
    ValueOfDecimal(n);
    if |Decimal(n)| < width { ValueOfZeros(width - |Decimal(n)|, Decimal(n)); }
  }

  lemma {:induction false} AllZeros(width: nat)
    ensures LastDigits(0, width) == Zeros(width)
  {
    if width > 0 { AllZeros(width - 1); }
  }

  lemma {:induction false} LessSnoc(s: string, t: string, a: char, b: char)
    requires |s| == |t|
    ensures Less(s + [a], t + [b]) <==> Less(s, t) || (s == t && a < b)
  {
    if s != [] {
      assert (s + [a])[1..] == s[1..] + [a] && (t + [b])[1..] == t[1..] + [b];
      LessSnoc(s[1..], t[1..], a, b);
    }
  }

  /** Of equal width, numerals are in dictionary order exactly as their numbers are in numeric order. */
  lemma {:induction false} OrderKept(m: nat, n: nat, width: nat)
    requires m < Pow10(width) && n < Pow10(width)
    ensures Less(LastDigits(m, width), LastDigits(n, width)) <==> m < n
    ensures LastDigits(m, width) == LastDigits(n, width) <==> m == n
  {
    if width > 0 {
      OrderKept(m / 10, n / 10, width - 1);
      var s, t := LastDigits(m / 10, width - 1), LastDigits(n / 10, width - 1);
      LessSnoc(s, t, Digit(m % 10), Digit(n % 10));
      assert (s + [Digit(m % 10)])[..width - 1] == s && (t + [Digit(n % 10)])[..width - 1] == t;
      assert (s + [Digit(m % 10)])[width - 1] == Digit(m % 10) && (t + [Digit(n % 10)])[width - 1] == Digit(n % 10);
    }
  }

  /** With as many digits as `n` itself, every index up to `n` prints to the same width, and the printed forms
      are distinct and in dictionary order exactly as the indices are in numeric order. */
  lemma ZeroPaddingKeepsOrder(n: nat, i: nat, j: nat)
    requires i <= n && j <= n
    ensures var w := |Decimal(n)|;
            && |Padded(i, w)| == w == |Padded(j, w)|
            && (Less(Padded(i, w), Padded(j, w)) <==> i < j)
            && (Padded(i, w) == Padded(j, w) <==> i == j)
  {
    var w := |Decimal(n)|;
    DigitCount(n);
    MoreDigits(i, n);
    MoreDigits(j, n);
    PaddedIsLastDigits(i, w);
    PaddedIsLastDigits(j, w);
    OrderKept(i, j, w);
  }

  /** Without padding the dictionary order is another one. */
  lemma UnpaddedOrderDiffers()
    ensures Less(Padded(10, 1), Padded(2, 1))
  {}
}
