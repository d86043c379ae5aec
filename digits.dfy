/**
 * Decimal digit strings: how `int(...)` reads a run of ASCII digits and how
 * the `%03d` conversion writes a depth index.
 */
module Digits {

  predicate IsDigit(c: char) { '0' <= c <= '9' }

  predicate AllDigits(s: string) { forall i :: 0 <= i < |s| ==> IsDigit(s[i]) }

  function DigitValue(c: char): (d: nat)
    requires IsDigit(c)
    ensures d < 10
  {
    c as int - '0' as int
  }

  function DigitChar(d: nat): (c: char)
    requires d < 10
    ensures IsDigit(c) && DigitValue(c) == d
  {
    ('0' as int + d) as char
  }

  function Pow10(k: nat): (p: nat)
    ensures p >= 1
  {
    if k == 0 then 1 else 10 * Pow10(k - 1)
  }

  /** The number denoted by a digit string, most significant digit first. */
  function Value(s: string): nat
    requires AllDigits(s)
  {
    if s == [] then 0 else 10 * Value(s[..|s| - 1]) + DigitValue(s[|s| - 1])
  }

  /** A string of `k` zero characters. */
  function Zeros(k: nat): (z: string)
    ensures |z| == k && forall i :: 0 <= i < k ==> z[i] == '0'
  {
    seq(k, _ => '0')
  }

  lemma {:induction false} ValueBelowPow10(s: string)
    requires AllDigits(s)
    ensures Value(s) < Pow10(|s|)
  {
    if s != [] {
      ValueBelowPow10(s[..|s| - 1]);
    }
  }

  /** Leading zeros do not change the value, as `int("007") == 7`. */
  lemma {:induction false} ValueIgnoresLeadingZeros(k: nat, s: string)
    requires AllDigits(s)
    ensures AllDigits(Zeros(k) + s) && Value(Zeros(k) + s) == Value(s)
  {
    var z := Zeros(k) + s;
    if s == [] {
      assert z == Zeros(k);
      ZerosHaveValueZero(k);
    } else {
      assert z[..|z| - 1] == Zeros(k) + s[..|s| - 1];
      ValueIgnoresLeadingZeros(k, s[..|s| - 1]);
    }
  }

  lemma {:induction false} ZerosHaveValueZero(k: nat)
    ensures AllDigits(Zeros(k)) && Value(Zeros(k)) == 0
  {
    if k > 0 {
      assert Zeros(k)[..k - 1] == Zeros(k - 1);
      ZerosHaveValueZero(k - 1);
    }
  }

  /** The shortest decimal spelling of `n` (what `str(n)` prints). */
  function Show(n: nat): (s: string)
    ensures AllDigits(s) && 1 <= |s|
  {
    if n < 10 then [DigitChar(n)] else Show(n / 10) + [DigitChar(n % 10)]
  }

  /** `Show` and `Value` are inverse: reading back the spelling of `n` gives `n`, without a leading zero. */
  lemma {:induction false} ShowValue(n: nat)
    ensures Value(Show(n)) == n
    ensures Show(n)[0] == '0' ==> n == 0
  {
    if n >= 10 {
      var s := Show(n);
      assert s[..|s| - 1] == Show(n / 10);
      ShowValue(n / 10);
    }
  }

  lemma {:induction false} ShowLength(n: nat, k: nat)
    requires 1 <= k && n < Pow10(k)
    ensures |Show(n)| <= k
  {
    if n >= 10 {
      ShowLength(n / 10, k - 1);
    }
  }

  /** Python's `"%03d" % n` for a non-negative `n`: zero-padded to at least three digits. */
  function Format03(n: nat): (r: string)
    ensures AllDigits(r)
    ensures n < 1000 ==> |r| == 3
    ensures n >= 1000 ==> r == Show(n)
  {
    var s := Show(n);
    PaddingFacts(n);
    Zeros(if |s| < 3 then 3 - |s| else 0) + s
  }

  /** The padded spelling reads back as `n`. */
  lemma Format03Value(n: nat)
    ensures Value(Format03(n)) == n
  {
    var s := Show(n);
    ShowValue(n);
    ValueIgnoresLeadingZeros(if |s| < 3 then 3 - |s| else 0, s);
  }

  lemma PaddingFacts(n: nat)
    ensures n < 1000 ==> |Show(n)| <= 3
    ensures n >= 1000 ==> |Show(n)| >= 3
  {
    if n < 1000 {
      ShowLength(n, 3);
    } else {
      ShowLengthAtLeast(n, 2);
    }
  }

  lemma {:induction false} ShowLengthAtLeast(n: nat, k: nat)
    requires n >= Pow10(k)
    ensures |Show(n)| >= k + 1
  {
    if k > 0 {
      ShowLengthAtLeast(n / 10, k - 1);
    }
  }
}
