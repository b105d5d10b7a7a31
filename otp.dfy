/**
 * One-time codes: the range `generateOtp` draws from, the decimal numeral it
 * returns, and the expiry instant `otpExpiry` computes. `Math.random` is
 * replaced by an integer draw and `Date.now` by an integer clock in
 * milliseconds.
 */
module Otp {

  /** The default number of digits of a code. */
  const DefaultLength: nat := 6

  /** The default lifetime of a code, in minutes. */
  const DefaultMinutes: int := 10

  const MillisPerMinute: int := 60 * 1000

  /** 10 to the power n. */
  function Pow10(n: nat): (r: nat)
    ensures r >= 1
  {
    if n == 0 then 1 else 10 * Pow10(n - 1)
  }

  /** `min` in generateOtp: the smallest number written with `length` digits. */
  function OtpMin(length: nat): (m: nat)
    requires length >= 1
    ensures m >= 1 && 10 * m == Pow10(length)
  {
    Pow10(length - 1)
  }

  /** `max` in generateOtp: the largest number written with `length` digits. */
  function OtpMax(length: nat): (m: nat)
    requires length >= 1
    ensures OtpMin(length) <= m && m + 1 == 10 * OtpMin(length)
  {
    Pow10(length) - 1
  }

  /** The range is never empty and holds 9 * 10^(length-1) codes. */
  lemma OtpRange(length: nat)
    requires length >= 1
    ensures 1 <= OtpMin(length) <= OtpMax(length)
    ensures OtpMax(length) - OtpMin(length) + 1 == 9 * OtpMin(length)
  {
  }

  /** With the default length the codes are the numbers 100000 to 999999. */
  lemma DefaultOtpRange()
    ensures OtpMin(DefaultLength) == 100000
    ensures OtpMax(DefaultLength) == 999999
  {
    assert Pow10(5) == 100000;
    assert Pow10(6) == 1000000;
  }

  predicate IsDigit(c: char)
  {
    '0' <= c <= '9'
  }

  predicate AllDigits(s: string)
  {
    forall i :: 0 <= i < |s| ==> IsDigit(s[i])
  }

  /** The ASCII character of a decimal digit. */
  function DigitChar(d: nat): (c: char)
    requires d < 10
    ensures IsDigit(c)
  {
    (48 + d) as char
  }

  /** The value of an ASCII decimal digit. */
  function DigitValue(c: char): (d: nat)
    requires IsDigit(c)
    ensures d < 10 && DigitChar(d) == c
  {
    c as int - 48
  }

  /** `String(n)` for a non-negative integer: its decimal numeral, without leading zeros. */
  function DecimalString(n: nat): (s: string)
    ensures |s| >= 1 && AllDigits(s)
  {
    if n < 10 then [DigitChar(n)] else DecimalString(n / 10) + [DigitChar(n % 10)]
  }

  /** The number a string of decimal digits denotes. */
  function DecimalValue(s: string): nat
    requires AllDigits(s)
  {
    if s == [] then 0 else 10 * DecimalValue(s[..|s| - 1]) + DigitValue(s[|s| - 1])
  }

  /** Reading back the numeral of n gives n. */
  lemma {:induction false} DecimalRoundTrip(n: nat)
    ensures DecimalValue(DecimalString(n)) == n
  {
    var s := DecimalString(n);
    if n >= 10 {
      assert s[..|s| - 1] == DecimalString(n / 10);
      DecimalRoundTrip(n / 10);
    }
  }

  /** A number with k digits (10^(k-1) <= n < 10^k) is written with exactly k characters. */
  lemma {:induction false} DecimalLength(n: nat, k: nat)
    requires k >= 1 && Pow10(k - 1) <= n < Pow10(k)
    ensures |DecimalString(n)| == k
  {
    if n >= 10 {
      assert k >= 2;
      assert Pow10(k - 1) == 10 * Pow10(k - 2);
      DecimalLength(n / 10, k - 1);
    }
  }

  /**
   * `min` is the smallest and `max` the largest number written with exactly
   * `length` digits: one below `min` has fewer, one above `max` has more.
   */
  lemma OtpBoundsDigitCounts(length: nat)
    requires length >= 1
    ensures |DecimalString(OtpMin(length))| == length && |DecimalString(OtpMax(length))| == length
    ensures length >= 2 ==> |DecimalString(OtpMin(length) - 1)| == length - 1
    ensures |DecimalString(OtpMax(length) + 1)| == length + 1
  {
    DecimalLength(OtpMin(length), length);
    DecimalLength(OtpMax(length), length);
    DecimalLength(OtpMax(length) + 1, length + 1);
    if length >= 2 {
      DecimalLength(OtpMin(length) - 1, length - 1);
    }
  }

  /** The numeral of a positive number does not start with '0'. */
  lemma {:induction false} LeadingDigitNotZero(n: nat)
    requires n >= 1
    ensures DecimalString(n)[0] != '0'
  {
    if n >= 10 {
      LeadingDigitNotZero(n / 10);
    }
  }

  /** Every string of k digits denotes a number below 10^k. */
  lemma {:induction false} DecimalValueBelow(s: string)
    requires AllDigits(s)
    ensures DecimalValue(s) < Pow10(|s|)
  {
    if s != [] {
      DecimalValueBelow(s[..|s| - 1]);
    }
  }

  /** A string of k digits that does not start with '0' denotes a number of at least 10^(k-1). */
  lemma {:induction false} DecimalValueAtLeast(s: string)
    requires |s| >= 1 && AllDigits(s) && s[0] != '0'
    ensures Pow10(|s| - 1) <= DecimalValue(s)
  {
    if |s| > 1 {
      var p := s[..|s| - 1];
      assert p[0] == s[0];
      DecimalValueAtLeast(p);
    }
  }

  /** A numeral without leading zeros is the numeral of its own value. */
  lemma {:induction false} CanonicalRoundTrip(s: string)
    requires |s| >= 1 && AllDigits(s) && s[0] != '0'
    ensures DecimalString(DecimalValue(s)) == s
  {
    var v := DecimalValue(s);
    if |s| == 1 {
      assert s == [s[0]];
    } else {
      var p := s[..|s| - 1];
      var d := DigitValue(s[|s| - 1]);
      assert p[0] == s[0];
      DecimalValueAtLeast(p);
      assert v == 10 * DecimalValue(p) + d;
      assert v / 10 == DecimalValue(p) && v % 10 == d;
      CanonicalRoundTrip(p);
      assert s == p + [s[|s| - 1]];
    }
  }

  /**
   * The longest code whose bounds stay exact in double precision: up to 15
   * digits min and max are integers below 2^53 and the floored result stays
   * between them; from 16 digits on `10 ** length - 1` rounds up to
   * `10 ** length`, so a code one digit too long can come out.
   */
  const MaxExactLength: nat := 15

  /**
   * generateOtp(length), with `draw` standing for
   * Math.floor(Math.random() * (max - min + 1)): a numeral of exactly
   * `length` digits, no leading zero, whose value is min + draw.
   */
  function GenerateOtp(length: nat, draw: nat): (code: string)
    requires 1 <= length <= MaxExactLength
    requires draw <= OtpMax(length) - OtpMin(length)
    ensures |code| == length && AllDigits(code) && code[0] != '0'
    ensures DecimalValue(code) == OtpMin(length) + draw
    ensures OtpMin(length) <= DecimalValue(code) <= OtpMax(length)
  {
    var n := OtpMin(length) + draw;
    DecimalLength(n, length);
    DecimalRoundTrip(n);
    LeadingDigitNotZero(n);
    DecimalString(n)
  }

  /**
   * Every numeral of `length` digits without a leading zero is produced by
   * exactly one draw, so the codes are the whole digit range and nothing else.
   */
  lemma GenerateOtpCoversRange(length: nat, code: string)
    requires 1 <= length <= MaxExactLength
    requires |code| == length && AllDigits(code) && code[0] != '0'
    ensures OtpMin(length) <= DecimalValue(code) <= OtpMax(length)
    ensures GenerateOtp(length, DecimalValue(code) - OtpMin(length)) == code
  {
    DecimalValueAtLeast(code);
    DecimalValueBelow(code);
    CanonicalRoundTrip(code);
  }

  /** otpExpiry(minutes): the instant `minutes` minutes after `now` (milliseconds). */
  function OtpExpiry(now: int, minutes: int): (expiresAt: int)
    ensures expiresAt > now <==> minutes > 0
    ensures expiresAt == now <==> minutes == 0
  {
    now + minutes * MillisPerMinute
  }

  /** The default lifetime puts the expiry 600000 ms after now. */
  lemma DefaultExpiry(now: int)
    ensures OtpExpiry(now, DefaultMinutes) == now + 600000
  {
  }

  /** A longer lifetime never gives an earlier expiry. */
  lemma ExpiryMonotone(now: int, m1: int, m2: int)
    requires m1 <= m2
    ensures OtpExpiry(now, m1) <= OtpExpiry(now, m2)
  {
  }
}
