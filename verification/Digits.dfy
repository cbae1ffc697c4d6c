/** Decimal digit strings: the values `strtol` reads, padding on the right,
    and the comparison rules built on them. */
module Digits {

  predicate IsDigit(c: char) {
    '0' <= c <= '9'
  }

  predicate AllDigits(s: string) {
    forall i :: 0 <= i < |s| ==> IsDigit(s[i])
  }

  function Max(a: nat, b: nat): nat {
    if a > b then a else b
  }

  function Sign(x: int): int {
    if x < 0 then -1 else if x == 0 then 0 else 1
  }

  /** The number a string of decimal digits denotes. */
  function Value(s: string): nat
    requires AllDigits(s)
  {
    if s == "" then 0 else 10 * Value(s[..|s| - 1]) + (s[|s| - 1] as int - '0' as int)
  }

  function Pow10(n: nat): (p: nat)
    ensures p > 0
  {
    if n == 0 then 1 else 10 * Pow10(n - 1)
  }

  /** `s` filled up on the right with zeros to length `m`. */
  function Padded(s: string, m: nat): (r: string)
    requires |s| <= m
    ensures |r| == m
    ensures AllDigits(s) ==> AllDigits(r)
  {
    s + seq(m - |s|, _ => '0')
  }

  /** How many decimal digits `s` starts with. */
  function DigitRun(s: string): (n: nat)
    ensures n <= |s| && AllDigits(s[..n])
    ensures n < |s| ==> !IsDigit(s[n])
  {
    if s != "" && IsDigit(s[0]) then
      var n := 1 + DigitRun(s[1..]);
      assert s[..n] == [s[0]] + s[1..][..n - 1];
      n
    else 0
  }

  const LONG_MAX := 0x7fff_ffff_ffff_ffff

  /** `strtol(s, NULL, 10)` for a string that starts with neither blank nor sign. */
  function Strtol(s: string): int {
    var v := Value(s[..DigitRun(s)]);
    if v > LONG_MAX then LONG_MAX else v
  }

  /** The cast to a signed 32-bit integer, wrapping. */
  function ToI32(x: int): (r: int)
    ensures -0x8000_0000 <= r < 0x8000_0000
    ensures -0x8000_0000 <= x < 0x8000_0000 ==> r == x
  {
    (x + 0x8000_0000) % 0x1_0000_0000 - 0x8000_0000
  }

  lemma MulStep(x: int, y: int, p: nat)
    requires x < y
    ensures x * p + p <= y * p
  {
    var d := y - x - 1;
    assert y * p == (x + 1 + d) * p == x * p + p + d * p;
  }

  lemma {:induction false} Pow10Split(m: nat, n: nat)
    ensures Pow10(m + n) == Pow10(m) * Pow10(n)
  {
    if m > 0 {
      Pow10Split(m - 1, n);
      assert Pow10(m + n) == 10 * Pow10((m - 1) + n);
    }
  }

  lemma {:induction false} ValueBelow(s: string)
    requires AllDigits(s)
    ensures Value(s) < Pow10(|s|)
  {
    if s != "" {
      ValueBelow(s[..|s| - 1]);
    }
  }

  lemma {:induction false} ValueFromLeft(c: char, s: string)
    requires IsDigit(c) && AllDigits(s)
    ensures AllDigits([c] + s)
    ensures Value([c] + s) == (c as int - '0' as int) * Pow10(|s|) + Value(s)
  {
    if s == "" {
      assert ([c] + s)[..0] == "";
    } else {
      var t := s[..|s| - 1];
      ValueFromLeft(c, t);
      assert ([c] + s)[..|s|] == [c] + t;
      var d := c as int - '0' as int;
      MulAssoc(d, 10, Pow10(|t|));
    }
  }

  lemma MulAssoc(x: int, y: int, z: int)
    ensures x * (y * z) == y * (x * z)
  {
  }

  /** Without a leading zero the value reaches the top decimal place; with one it does not. */
  lemma LeadingDigit(s: string)
    requires AllDigits(s) && s != ""
    ensures s[0] != '0' ==> Value(s) >= Pow10(|s| - 1)
    ensures s[0] == '0' ==> Value(s) < Pow10(|s| - 1)
  {
    assert s == [s[0]] + s[1..];
    ValueFromLeft(s[0], s[1..]);
    ValueBelow(s[1..]);
    if s[0] != '0' {
      MulStep(0, s[0] as int - '0' as int, Pow10(|s| - 1));
    }
  }

  lemma {:induction false} ValuePadded(s: string, m: nat)
    requires AllDigits(s) && |s| <= m
    ensures Value(Padded(s, m)) == Value(s) * Pow10(m - |s|)
  {
    if m == |s| {
      assert Padded(s, m) == s;
    } else {
      ValuePadded(s, m - 1);
      assert Padded(s, m)[..m - 1] == Padded(s, m - 1);
      MulAssoc(Value(s), 10, Pow10(m - 1 - |s|));
    }
  }

  lemma StrtolOfDigits(s: string)
    requires AllDigits(s) && |s| <= 9
    ensures Strtol(s) == Value(s) < 1000000000
  {
    ValueBelow(s);
    Pow10Mono(|s|, 9);
    Billion();
    assert DigitRun(s) == |s|;
    assert s[..|s|] == s;
  }

  /** The digits in front are read, whatever stands behind them, up to the largest long integer. */
  lemma StrtolReads(digits: string, rest: string)
    requires AllDigits(digits) && (rest == "" || !IsDigit(rest[0]))
    ensures Value(digits) <= LONG_MAX ==> Strtol(digits + rest) == Value(digits)
    ensures Value(digits) >= LONG_MAX ==> Strtol(digits + rest) == LONG_MAX
  {
    hide Value, DigitRun;
    DigitRunOf(digits, rest);
    assert (digits + rest)[..|digits|] == digits;
  }

  lemma {:induction false} DigitRunOf(digits: string, rest: string)
    requires AllDigits(digits) && (rest == "" || !IsDigit(rest[0]))
    ensures DigitRun(digits + rest) == |digits|
  {
    if digits == "" {
      assert digits + rest == rest;
    } else {
      assert (digits + rest)[1..] == digits[1..] + rest;
      DigitRunOf(digits[1..], rest);
    }
  }

  /** Only multiples of 2^32 are lost. */
  lemma ToI32Wraps(x: int, k: int)
    ensures ToI32(x + k * 0x1_0000_0000) == ToI32(x)
  {
    var y := x + 0x8000_0000;
    assert (y + k * 0x1_0000_0000) % 0x1_0000_0000 == y % 0x1_0000_0000;
  }

  lemma Billion()
    ensures Pow10(9) == 1000000000
  {
    assert Pow10(9) == 10 * Pow10(8) == 100 * Pow10(7) == 1000 * Pow10(6) == 10000 * Pow10(5);
  }

  lemma Pow10Mono(m: nat, n: nat)
    requires m <= n
    ensures Pow10(m) <= Pow10(n)
    decreases n - m
  {
    if m < n {
      Pow10Mono(m, n - 1);
    }
  }

  /** A single number per component that orders components as the comparison does:
      components with a leading zero are fractions, the others whole numbers,
      both in units of 10^-9. */
  function OrderKey(s: string): nat
    requires AllDigits(s) && 1 <= |s| <= 9
  {
    if s[0] == '0' then Value(Padded(s, 9)) else Value(s) * 1000000000
  }

  /** Where one side has a leading zero, padding orders as `OrderKey` does. */
  lemma PaddedOrder(a: string, b: string)
    requires AllDigits(a) && 1 <= |a| <= 9
    requires AllDigits(b) && 1 <= |b| <= 9
    requires a[0] == '0' || b[0] == '0'
    ensures Sign(Value(Padded(a, Max(|a|, |b|))) - Value(Padded(b, Max(|a|, |b|))))
         == Sign(OrderKey(a) - OrderKey(b))
  {
    var m := Max(|a|, |b|);
    if a[0] == '0' && b[0] == '0' {
      PadFurther(a, m);
      PadFurther(b, m);
      ScaleSign(Value(Padded(a, m)), Value(Padded(b, m)), Pow10(9 - m));
    } else if a[0] == '0' {
      LeadingZeroBelow(a, b, m);
    } else {
      LeadingZeroBelow(b, a, m);
    }
  }

  lemma PadFurther(s: string, m: nat)
    requires AllDigits(s) && |s| <= m <= 9
    ensures Value(Padded(s, 9)) == Value(Padded(s, m)) * Pow10(9 - m)
  {
    assert Padded(Padded(s, m), 9) == Padded(s, 9);
    ValuePadded(Padded(s, m), 9);
  }

  lemma ScaleSign(x: int, y: int, p: nat)
    requires p > 0
    ensures Sign(x * p - y * p) == Sign(x - y)
  {
    if x > y {
      MulStep(y, x, p);
    } else if x < y {
      MulStep(x, y, p);
    }
  }

  lemma LeadingZeroBelow(a: string, b: string, m: nat)
    requires AllDigits(a) && 1 <= |a| <= m <= 9 && a[0] == '0'
    requires AllDigits(b) && 1 <= |b| <= m && b[0] != '0'
    ensures Value(Padded(a, m)) < Value(Padded(b, m))
    ensures OrderKey(a) < OrderKey(b)
  {
    LeadingDigit(Padded(a, m));
    LeadingDigit(Padded(b, m));
    LeadingDigit(Padded(a, 9));
    LeadingDigit(b);
    Pow10Mono(8, 9);
    Billion();
  }

  // ---- the component rule of the Package Manager Specification ----

  function Stripped(s: string): (r: string)
    ensures |r| <= |s| && r == s[..|r|]
    ensures r != "" ==> r[|r| - 1] != '0'
    ensures forall i :: |r| <= i < |s| ==> s[i] == '0'
  {
    if s != "" && s[|s| - 1] == '0' then Stripped(s[..|s| - 1]) else s
  }

  /** Stringwise comparison, by character code. */
  function AsciiCompare(a: string, b: string): int {
    if a == "" && b == "" then 0
    else if a == "" then -1
    else if b == "" then 1
    else if a[0] != b[0] then Sign(a[0] as int - b[0] as int)
    else AsciiCompare(a[1..], b[1..])
  }

  /** Algorithm 3.3 of the Package Manager Specification. */
  function SpecifiedCompare(a: string, b: string): int
    requires AllDigits(a) && AllDigits(b) && a != "" && b != ""
  {
    if a[0] == '0' || b[0] == '0' then AsciiCompare(Stripped(a), Stripped(b))
    else Sign(Value(a) - Value(b))
  }

  lemma {:induction false} AsciiIsNumeric(a: string, b: string)
    requires AllDigits(a) && AllDigits(b) && |a| == |b|
    ensures AsciiCompare(a, b) == Sign(Value(a) - Value(b))
  {
    if a != "" {
      assert a == [a[0]] + a[1..] && b == [b[0]] + b[1..];
      ValueFromLeft(a[0], a[1..]);
      ValueFromLeft(b[0], b[1..]);
      ValueBelow(a[1..]);
      ValueBelow(b[1..]);
      AsciiIsNumeric(a[1..], b[1..]);
      var p := Pow10(|a| - 1);
      var x, y := a[0] as int - '0' as int, b[0] as int - '0' as int;
      if x > y {
        MulStep(y, x, p);
      } else if x < y {
        MulStep(x, y, p);
      }
    }
  }

  /** Trailing zeros are what padding adds, so dropping them first changes no comparison. */
  lemma {:induction false} AsciiOfPadded(a: string, b: string, m: nat)
    requires AllDigits(a) && AllDigits(b) && |a| <= m && |b| <= m
    requires a != "" ==> a[|a| - 1] != '0'
    requires b != "" ==> b[|b| - 1] != '0'
    ensures AsciiCompare(Padded(a, m), Padded(b, m)) == AsciiCompare(a, b)
  {
    if a == "" && b == "" {
      AsciiIsNumeric(Padded(a, m), Padded(b, m));
    } else {
      var pa, pb := Padded(a, m), Padded(b, m);
      if a != "" && b != "" && a[0] == b[0] {
        assert pa[1..] == Padded(a[1..], m - 1) && pb[1..] == Padded(b[1..], m - 1);
        AsciiOfPadded(a[1..], b[1..], m - 1);
      } else if a == "" && b[0] == '0' {
        assert pa[1..] == Padded("", m - 1) && pb[1..] == Padded(b[1..], m - 1);
        AsciiOfPadded("", b[1..], m - 1);
      } else if b == "" && a[0] == '0' {
        assert pa[1..] == Padded(a[1..], m - 1) && pb[1..] == Padded("", m - 1);
        AsciiOfPadded(a[1..], "", m - 1);
      }
    }
  }

  lemma StrippedPads(s: string, m: nat)
    requires |s| <= m
    ensures Padded(Stripped(s), m) == Padded(s, m)
  {
    var r := Stripped(s);
    hide Stripped, AllDigits;
    forall i | 0 <= i < m
      ensures Padded(r, m)[i] == Padded(s, m)[i]
    {
      if |r| <= i < |s| {
        assert s[i] == '0';
      }
    }
  }

  /** The specification's rule orders components exactly as `OrderKey` does. */
  lemma SpecifiedOrder(a: string, b: string)
    requires AllDigits(a) && 1 <= |a| <= 9
    requires AllDigits(b) && 1 <= |b| <= 9
    ensures SpecifiedCompare(a, b) == Sign(OrderKey(a) - OrderKey(b))
  {
    if a[0] == '0' || b[0] == '0' {
      var m := Max(|a|, |b|);
      StrippedPads(a, m);
      StrippedPads(b, m);
      AsciiOfPadded(Stripped(a), Stripped(b), m);
      AsciiIsNumeric(Padded(a, m), Padded(b, m));
      PaddedOrder(a, b);
    } else {
      ScaleSign(Value(a), Value(b), 1000000000);
    }
  }
}
