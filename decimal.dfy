/** Decimal digit strings: the values they denote and the digits of a natural number.
    Shared by the models of `parseFloat`, `parseInt`, `toFixed` and `toLocaleString`. */
module Decimal {

  predicate IsDigit(c: char) {
    '0' <= c <= '9'
  }

  predicate IsDigits(s: string) {
    forall i :: 0 <= i < |s| ==> IsDigit(s[i])
  }

  function DigitValue(c: char): (v: nat)
    requires IsDigit(c)
    ensures v < 10
  {
    (c as int - '0' as int) as nat
  }

  function DigitChar(v: nat): (c: char)
    requires v < 10
    ensures IsDigit(c) && DigitValue(c) == v
  {
    (v + '0' as int) as char
  }

  function Pow10(k: nat): (p: nat)
    ensures p >= 1
  {
    if k == 0 then 1 else 10 * Pow10(k - 1)
  }

  /** The base-10 value of a digit string, most significant digit first; "" denotes 0. */
  function DigitsValue(s: string): nat
    requires IsDigits(s)
  {
    if s == [] then 0 else DigitsValue(s[..|s| - 1]) * 10 + DigitValue(s[|s| - 1])
  }

  /** The decimal representation of `n`, without leading zeros ("0" for zero). */
  function NatToDigits(n: nat): (s: string)
    ensures IsDigits(s) && |s| >= 1
    ensures DigitsValue(s) == n
    ensures s[0] == '0' ==> n == 0
    ensures |s| > 1 ==> s[0] != '0'
  {
    if n < 10 then [DigitChar(n)]
    else
      var s := NatToDigits(n / 10) + [DigitChar(n % 10)];
      assert s[..|s| - 1] == NatToDigits(n / 10);
      s
  }

  /** `k` zero digits. */
  function Zeros(k: nat): (z: string)
    ensures |z| == k && IsDigits(z)
    ensures forall i :: 0 <= i < k ==> z[i] == '0'
  {
    if k == 0 then [] else Zeros(k - 1) + ['0']
  }

  /** The longest prefix of `s` made of digits. */
  function LeadingDigits(s: string): (d: string)
    ensures IsDigits(d) && |d| <= |s| && d == s[..|d|]
    ensures |d| == |s| || !IsDigit(s[|d|])
  {
    if s != [] && IsDigit(s[0]) then [s[0]] + LeadingDigits(s[1..]) else []
  }

  /** The longest suffix of `s` made of digits. */
  function TrailingDigits(s: string): (d: string)
    ensures IsDigits(d) && |d| <= |s| && d == s[|s| - |d|..]
    ensures |d| == |s| || !IsDigit(s[|s| - |d| - 1])
  {
    if s != [] && IsDigit(s[|s| - 1]) then TrailingDigits(s[..|s| - 1]) + [s[|s| - 1]] else []
  }

  lemma ConcatDigits(a: string, b: string)
    requires IsDigits(a) && IsDigits(b)
    ensures IsDigits(a + b)
  {
    forall i | 0 <= i < |a + b| ensures IsDigit((a + b)[i]) {
      if i < |a| { assert (a + b)[i] == a[i]; } else { assert (a + b)[i] == b[i - |a|]; }
    }
  }

  lemma {:induction false} DigitsValueAppend(a: string, b: string)
    requires IsDigits(a) && IsDigits(b)
    ensures IsDigits(a + b)
    ensures DigitsValue(a + b) == DigitsValue(a) * Pow10(|b|) + DigitsValue(b)
  {
    ConcatDigits(a, b);
    if b == [] {
      assert a + b == a;
    } else {
      var b', last := b[..|b| - 1], DigitValue(b[|b| - 1]);
      ConcatDigits(a, b');
      LastDigitOfConcat(a, b);
      DigitsValueAppend(a, b');
      var va, vb', p := DigitsValue(a), DigitsValue(b'), Pow10(|b'|);
      assert DigitsValue(b) == vb' * 10 + last;
      assert Pow10(|b|) == 10 * p;
      ShiftDigit(va, p, vb', last);
    }
  }

  /** The last digit of `a + b` is the last digit of `b`. */
  lemma LastDigitOfConcat(a: string, b: string)
    requires IsDigits(a) && IsDigits(b) && b != []
    ensures IsDigits(a + b) && IsDigits(a + b[..|b| - 1])
    ensures DigitsValue(a + b) == DigitsValue(a + b[..|b| - 1]) * 10 + DigitValue(b[|b| - 1])
  {
    ConcatDigits(a, b);
    ConcatDigits(a, b[..|b| - 1]);
    assert (a + b)[..|a + b| - 1] == a + b[..|b| - 1];
    assert (a + b)[|a + b| - 1] == b[|b| - 1];
  }

  /** Appending one digit to `a + b'` shifts both parts: the step of `DigitsValueAppend`. */
  lemma ShiftDigit(va: int, p: int, vb: int, last: int)
    ensures (va * p + vb) * 10 + last == va * (10 * p) + (vb * 10 + last)
  {
  }

  lemma {:induction false} DigitsValueOfZeros(k: nat)
    ensures DigitsValue(Zeros(k)) == 0
  {
    if k > 0 {
      assert Zeros(k)[..k - 1] == Zeros(k - 1);
      DigitsValueOfZeros(k - 1);
    }
  }

  /** Leading zeros do not change the value of a digit string. */
  lemma ZeroPaddedValue(k: nat, s: string)
    requires IsDigits(s)
    ensures IsDigits(Zeros(k) + s) && DigitsValue(Zeros(k) + s) == DigitsValue(s)
  {
    DigitsValueAppend(Zeros(k), s);
    DigitsValueOfZeros(k);
  }

  /** The digit string `s` is the longest digit prefix of `s + rest` when `rest` does not begin with a digit. */
  lemma {:induction false} LeadingDigitsOfDigits(s: string, rest: string)
    requires IsDigits(s)
    requires rest == [] || !IsDigit(rest[0])
    ensures LeadingDigits(s + rest) == s
  {
    if s != [] {
      assert (s + rest)[1..] == s[1..] + rest;
      LeadingDigitsOfDigits(s[1..], rest);
    }
  }

  /** The digit string `d` is the longest digit suffix of `rest + d` when `rest` does not end with a digit. */
  lemma {:induction false} TrailingDigitsOfDigits(rest: string, d: string)
    requires IsDigits(d)
    requires rest == [] || !IsDigit(rest[|rest| - 1])
    ensures TrailingDigits(rest + d) == d
  {
    if d != [] {
      var d' := d[..|d| - 1];
      assert (rest + d)[..|rest + d| - 1] == rest + d';
      TrailingDigitsOfDigits(rest, d');
    } else {
      assert rest + d == rest;
    }
  }
}
