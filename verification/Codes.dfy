/**
 One-time codes: the digits shown for a truncated value and the time steps of
 TOTP. Unsigned 32-bit arithmetic wraps, so the text is right for some digit
 counts only; FormattedRight says exactly which.
 */
module Codes {
  import opened Arithmetic
  import opened Bytes

  const TWO_32 := 0x1_0000_0000

  function Digit(n: nat): char
    requires n < 10
  {
    "0123456789"[n]
  }

  predicate IsDigit(c: char) {
    '0' <= c <= '9'
  }

  function DigitValue(c: char): nat
    requires IsDigit(c)
  {
    c as int - '0' as int
  }

  predicate AllDigits(s: string) {
    forall c <- s :: IsDigit(c)
  }

  /** The number a decimal numeral denotes, leading zeros allowed. */
  function ValueOf(s: string): nat
    requires AllDigits(s)
  {
    if s == [] then 0 else ValueOf(s[..|s| - 1]) * 10 + DigitValue(s[|s| - 1])
  }

  /** The shortest numeral of a number. */
  function Decimal(v: nat): (s: string)
    ensures AllDigits(s) && ValueOf(s) == v && |s| > 0
    ensures |s| > 1 ==> s[0] != '0'
  {
    if v < 10 then
      assert ValueOf([Digit(v)][..0]) == 0;
      [Digit(v)]
    else
      var front := Decimal(v / 10);
      assert (front + [Digit(v % 10)])[..|front|] == front;
      assert |front| == 1 ==> front[0] != '0' by {
        assert |front| == 1 ==> front[..0] == [] && ValueOf(front) == DigitValue(front[0]);
      }
      front + [Digit(v % 10)]
  }

  lemma DecimalLength(v: nat, d: nat)
    requires d > 0 && v < Pow(10, d)
    ensures |Decimal(v)| <= d
  {
  }

  function Zeros(n: nat): string {
    seq(n, _ => '0')
  }

  lemma {:induction false} LeadingZeros(n: nat, s: string)
    requires AllDigits(s)
    ensures AllDigits(Zeros(n) + s) && ValueOf(Zeros(n) + s) == ValueOf(s)
  {
    if s == [] {
      assert Zeros(n) + s == Zeros(n);
      if n > 0 {
        LeadingZeros(n - 1, []);
        assert Zeros(n)[..n - 1] == Zeros(n - 1) + [];
      }
    } else {
      var k := |s| - 1;
      LeadingZeros(n, s[..k]);
      assert (Zeros(n) + s)[..n + k] == Zeros(n) + s[..k];
    }
  }

  /** What RFC 4226 section 5.3 asks of a code with d digits for the value v. */
  ghost predicate IsCode(s: string, v: nat, d: int) {
    d >= 0 && |s| == d && AllDigits(s) && ValueOf(s) == v % Pow(10, d)
  }

  lemma LastDigit(s: string)
    requires s != [] && AllDigits(s)
    ensures var n := |s| - 1;
            DigitValue(s[n]) == ValueOf(s) % 10 && ValueOf(s[..n]) == ValueOf(s) / 10
  {
    var n := |s| - 1;
    assert IsDigit(s[n]) && DigitValue(s[n]) <= 9;
    assert ValueOf(s) == ValueOf(s[..n]) * 10 + DigitValue(s[n]);
    TenthsAndRest(ValueOf(s), ValueOf(s[..n]), DigitValue(s[n]));
  }

  lemma TenthsAndRest(x: nat, v: nat, d: nat)
    requires x == v * 10 + d && d < 10
    ensures x % 10 == d && x / 10 == v
  {
  }

  /** There is only one such text. */
  lemma {:induction false} IsCodeUnique(s: string, t: string)
    requires |s| == |t| && AllDigits(s) && AllDigits(t) && ValueOf(s) == ValueOf(t)
    ensures s == t
  {
    if s != [] {
      var n := |s| - 1;
      LastDigit(s);
      LastDigit(t);
      IsCodeUnique(s[..n], t[..n]);
      assert s == s[..n] + [s[n]] && t == t[..n] + [t[n]];
    }
  }

  function Pad(s: string, d: int): string {
    if |s| >= d then s else Zeros(d - |s|) + s
  }

  lemma ZeroInFront(n: nat, s: string)
    ensures ['0'] + (Zeros(n) + s) == Zeros(n + 1) + s
  {
  }

  function Modulus(digits: int): nat {
    (if digits < 0 then 1 else Pow(10, digits)) % TWO_32
  }

  /** The text shown for a raw code; None where the source divides by zero. */
  function Formatted(raw: bytes, digits: int): Option<string> {
    if |raw| < 5 then Some("")
    else if Modulus(digits) == 0 then None
    else Some(Pad(Decimal(BigEndian(raw[1..5]) % Modulus(digits)), digits))
  }

  /** The loop that shifts the four value bytes into a 32-bit word. */
  method CodeValue(raw: bytes) returns (codeValue: nat)
    requires |raw| >= 5
    ensures codeValue == BigEndian(raw[1..5]) < TWO_32
  {
    codeValue := 0;
    for j := 0 to 4
      invariant codeValue == BigEndian(raw[1..1 + j]) < Pow(256, j)
    {
      assert raw[1..2 + j][..j] == raw[1..1 + j];
      BigEndianBound(raw[1..2 + j]);
      PowMonotone(256, j + 1, 4);
      codeValue := (codeValue * 256 + raw[1 + j]) % TWO_32;
    }
  }

  lemma TimesTen(p: nat)
    ensures (p % TWO_32) * 10 % TWO_32 == 10 * p % TWO_32
  {
    var q, r := p / TWO_32, p % TWO_32;
    assert 10 * p == r * 10 + TWO_32 * (10 * q);
    WholeTurns(r * 10, 10 * q);
  }

  lemma WholeTurns(a: nat, k: nat)
    ensures (a + TWO_32 * k) % TWO_32 == a % TWO_32
  {
  }

  /** The loop that multiplies up 10^digits in a 32-bit word. */
  method ModulusLoop(digits: int) returns (modulo: nat)
    ensures modulo == Modulus(digits)
  {
    modulo := 1;
    var j := 0;
    while j < digits
      invariant 0 <= j && (j <= digits || j == 0)
      invariant modulo == Pow(10, j) % TWO_32
    {
      TimesTen(Pow(10, j));
      modulo := modulo * 10 % TWO_32;
      j := j + 1;
    }
  }

  method FormatCode(raw: bytes, digits: int) returns (r: Option<string>)
    ensures r == Formatted(raw, digits)
  {
    if |raw| < 5 {
      return Some("");
    }
    var codeValue := CodeValue(raw);
    var modulo := ModulusLoop(digits);
    if modulo == 0 {
      return None;
    }
    var code := PadLoop(Decimal(codeValue % modulo), digits);
    return Some(code);
  }

  /** The loop that puts zeros in front. */
  method PadLoop(numeral: string, digits: int) returns (code: string)
    ensures code == Pad(numeral, digits)
  {
    code := numeral;
    ghost var n := 0;
    assert code == Zeros(0) + numeral;
    while |code| < digits
      invariant code == Zeros(n) + numeral && (n == 0 || |code| <= digits)
      decreases digits - |code|
    {
      ZeroInFront(n, numeral);
      code := ['0'] + code;
      n := n + 1;
    }
  }

  lemma {:induction false} PowFiveOdd(e: nat)
    ensures Pow(5, e) % 2 == 1
  {
    if e > 0 {
      PowFiveOdd(e - 1);
    }
  }

  lemma TwoTo32()
    ensures Pow(2, 32) == TWO_32
  {
    assert Pow(2, 8) == 256;
    PowAdd(2, 8, 8);
    PowAdd(2, 16, 16);
  }

  /** The 32-bit modulus vanishes exactly from 32 digits on. */
  lemma ModulusVanishes(d: int)
    ensures Modulus(d) == 0 <==> d >= 32
  {
    if d >= 32 {
      ManyDigitsVanish(d);
    } else if d >= 0 {
      FewDigitsStay(d);
    }
  }

  lemma ManyDigitsVanish(d: nat)
    requires d >= 32
    ensures Pow(10, d) % TWO_32 == 0
  {
    PowMul(2, 5, d);
    TwoTo32();
    PowAdd(2, 32, d - 32);
    MulAssociative(TWO_32, Pow(2, d - 32), Pow(5, d));
    MultipleIs(Pow(2, d - 32) * Pow(5, d));
  }

  lemma MultipleIs(k: nat)
    ensures (TWO_32 * k) % TWO_32 == 0
  {
  }

  lemma TakeOut(a: nat, b: nat, c: nat, q: nat, p: nat)
    requires a > 0 && a * b == p && a * c == TWO_32 && p == TWO_32 * q
    ensures b == c * q
  {
    MulAssociative(a, c, q);
    MulCancel(a, b, c * q);
  }

  lemma FewDigitsStay(d: nat)
    requires d < 32
    ensures Pow(10, d) % TWO_32 != 0
  {
    if Pow(10, d) % TWO_32 == 0 {
      var q, half := Pow(10, d) / TWO_32, Pow(2, 31 - d);
      PowMul(2, 5, d);
      TwoTo32();
      PowAdd(2, d, 32 - d);
      assert Pow(10, d) == TWO_32 * q;
      TakeOut(Pow(2, d), Pow(5, d), Pow(2, 32 - d), q, Pow(10, d));
      EvenProduct(half, q);
      PowFiveOdd(d);
    }
  }

  lemma EvenProduct(half: nat, q: nat)
    ensures ((2 * half) * q) % 2 == 0
  {
    MulAssociative(2, half, q);
  }

  /**
   The text is the code RFC 4226 asks for exactly when there are 1 to 9
   digits, or more but with a value below what is left of the wrapped modulus.
   */
  lemma FormattedRight(raw: bytes, d: int)
    requires |raw| >= 5
    ensures (Formatted(raw, d).Some? && IsCode(Formatted(raw, d).value, BigEndian(raw[1..5]), d)) <==>
            (1 <= d <= 9 || (d >= 10 && BigEndian(raw[1..5]) < Modulus(d)))
  {
    var v := BigEndian(raw[1..5]);
    BigEndianFour(raw[1..5]);
    ModulusVanishes(d);
    if d >= 1 && Modulus(d) != 0 {
      var m := Modulus(d);
      ModulusSize(d);
      PaddedDenotes(v % m, d);
      ModFixes(v, Pow(10, d));
      ModFixes(v, m);
    }
  }

  /** Up to nine digits the modulus is 10^d; from ten on, 10^d exceeds every 32-bit value. */
  lemma ModulusSize(d: nat)
    ensures d <= 9 ==> Modulus(d) == Pow(10, d)
    ensures d >= 10 ==> Modulus(d) < TWO_32 < Pow(10, d)
  {
    assert Pow(10, 5) == 100_000;
    PowAdd(10, 5, 4);
    PowAdd(10, 5, 5);
    if d <= 9 {
      PowMonotone(10, d, 9);
    } else {
      PowMonotone(10, 10, d);
    }
  }

  lemma PaddedDenotes(v: nat, d: nat)
    requires d >= 1 && v < Pow(10, d)
    ensures var s := Pad(Decimal(v), d); |s| == d && AllDigits(s) && ValueOf(s) == v
  {
    var numeral := Decimal(v);
    DecimalLength(v, d);
    if |numeral| < d {
      LeadingZeros(d - |numeral|, numeral);
    }
  }

  // ---------------------------------------------------------------------------
  // Time steps (RFC 6238 section 4.2)
  // ---------------------------------------------------------------------------

  function Step(t: nat, period: nat): nat
    requires period > 0
  {
    t / period
  }

  function ValidUntil(t: nat, period: nat): nat
    requires period > 0
  {
    t + (period - t % period)
  }

  /** The number of a step is that of the periods before it, and from t on its step lasts exactly until validUntil. */
  lemma StepLastsUntil(t: nat, u: nat, period: nat)
    requires period > 0 && t <= u
    ensures Step(t, period) * period <= t < Step(t, period) * period + period
    ensures Step(u, period) == Step(t, period) <==> u < ValidUntil(t, period)
    ensures Step(ValidUntil(t, period), period) == Step(t, period) + 1
    ensures 1 <= ValidUntil(t, period) - t <= period
  {
    var q := t / period;
    assert ValidUntil(t, period) == q * period + period;
    QuotientIs(q * period + period, period, q + 1);
    if u < ValidUntil(t, period) {
      QuotientIs(u, period, q);
    } else if u / period <= q {
      MulMonotone(u / period, q, period);
    }
  }

  /** The number shifted right by k bytes. */
  function ShiftBytes(v: nat, k: nat): nat {
    if k == 0 then v else ShiftBytes(v / 256, k - 1)
  }

  lemma {:induction false} ShiftBytesOnce(v: nat, k: nat)
    ensures ShiftBytes(v, k) == ShiftBytes(v, k + 1) * 256 + ShiftBytes(v, k) % 256
  {
    if k > 0 {
      ShiftBytesOnce(v / 256, k - 1);
    }
  }

  lemma {:induction false} ShiftedOut(v: nat, k: nat)
    requires v < Pow(256, k)
    ensures ShiftBytes(v, k) == 0
  {
    if k > 0 {
      ShiftedOut(v / 256, k - 1);
    }
  }

  method CalculateTotpCounter(now: nat, period: nat) returns (result: bytes)
    requires period > 0 && now < 0x8000_0000_0000_0000
    ensures |result| == 8 && BigEndian(result) == now / period
  {
    var counter := now / period;
    assert counter <= now;
    assert Pow(256, 4) == TWO_32;
    PowAdd(256, 4, 4);
    ShiftedOut(counter, 8);
    result := [];
    var i := 7;
    while i >= 0
      invariant -1 <= i <= 7 && |result| == 7 - i
      invariant BigEndian(result) == ShiftBytes(counter, i + 1)
    {
      var b := ShiftBytes(counter, i) % 256;
      ShiftBytesOnce(counter, i);
      assert (result + [b])[..|result|] == result;
      result := result + [b];
      i := i - 1;
    }
  }
}
