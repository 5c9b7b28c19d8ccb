/** The JavaScript built-ins that the planet utilities call, modelled on exact reals:
    `String.prototype.toLowerCase`, `String.prototype.replace(/c/g, '')`, `parseFloat`,
    `Number.prototype.toFixed`, `Number.prototype.toLocaleString` (en-US) and `Math.pow(t, 2 / 3)`.
    A JavaScript number is a `real` here; binary floating-point rounding is not modelled. */
module JsRuntime {
  import opened Decimal

  /* ---------- toLowerCase ---------- */

  /** Lower-case mapping of one character. Exact for every character whose lower-case form is an
      ASCII letter: the ASCII letters themselves and KELVIN SIGN (U+212A, lower-cased to 'k').
      Every other character is kept; since no other character lower-cases to an ASCII letter,
      comparing `ToLowerCase(s)` with an ASCII lower-case literal gives the same answer as in JavaScript. */
  function LowerChar(c: char): char {
    if 'A' <= c <= 'Z' then (c as int + 32) as char
    else if c == '\U{212A}' then 'k'
    else c
  }

  /** `s.toLowerCase()`, one character at a time. The ensures only unfolds the comprehension for
      the callers' proofs; what the sentinel test relies on is stated by `LowerCaseIsUnknown`. */
  function ToLowerCase(s: string): (t: string)
    ensures |t| == |s| && forall i :: 0 <= i < |s| ==> t[i] == LowerChar(s[i])
  {
    seq(|s|, i requires 0 <= i < |s| => LowerChar(s[i]))
  }

  /* ---------- replace(/c/g, '') ---------- */

  /** `s` with every occurrence of `c` deleted. */
  function RemoveAll(s: string, c: char): (t: string)
    ensures |t| <= |s|
    ensures forall i :: 0 <= i < |t| ==> t[i] != c
  {
    if s == [] then [] else (if s[0] == c then [] else [s[0]]) + RemoveAll(s[1..], c)
  }

  /** Exactly the occurrences of `c` are deleted: every other character is kept as often as it
      occurs, so the text loses one character per occurrence of `c`. */
  lemma {:induction false} RemoveAllKeepsOthers(s: string, c: char)
    ensures multiset(RemoveAll(s, c)) == multiset(s)[c := 0]
    ensures |RemoveAll(s, c)| == |s| - multiset(s)[c]
  {
    if s != [] {
      assert s == [s[0]] + s[1..];
      RemoveAllKeepsOthers(s[1..], c);
    }
  }

  lemma {:induction false} RemoveAllAppend(a: string, b: string, c: char)
    ensures RemoveAll(a + b, c) == RemoveAll(a, c) + RemoveAll(b, c)
  {
    if a != [] {
      assert RemoveAll(a + b, c) == (if a[0] == c then [] else [a[0]]) + RemoveAll(a[1..] + b, c) by {
        assert (a + b)[1..] == a[1..] + b;
        assert (a + b)[0] == a[0];
      }
      RemoveAllAppend(a[1..], b, c);
    } else {
      assert a + b == b;
    }
  }

  lemma {:induction false} RemoveAllAbsent(s: string, c: char)
    requires forall i :: 0 <= i < |s| ==> s[i] != c
    ensures RemoveAll(s, c) == s
  {
    if s != [] {
      RemoveAllAbsent(s[1..], c);
    }
  }

  /* ---------- parseFloat ---------- */

  /** The result of `parseFloat`: a finite number or NaN. */
  datatype NumberValue = Finite(value: real) | NaN

  /** StrWhiteSpaceChar of ECMAScript: WhiteSpace (tab, vertical tab, form feed, ZWNBSP and every
      Unicode space separator) and LineTerminator. */
  predicate IsStrWhiteSpace(c: char) {
    c == '\t' || c == '\U{000B}' || c == '\U{000C}' || c == '\U{FEFF}' ||
    c == ' ' || c == '\U{00A0}' || c == '\U{1680}' || '\U{2000}' <= c <= '\U{200A}' ||
    c == '\U{202F}' || c == '\U{205F}' || c == '\U{3000}' ||
    c == '\n' || c == '\r' || c == '\U{2028}' || c == '\U{2029}'
  }

  function TrimStart(s: string): (t: string)
    ensures |t| <= |s| && t == s[|s| - |t|..]
    ensures t == [] || !IsStrWhiteSpace(t[0])
    ensures (forall i :: 0 <= i < |s| ==> !IsStrWhiteSpace(s[i])) ==> t == s
    ensures forall i :: 0 <= i < |s| - |t| ==> IsStrWhiteSpace(s[i])
  {
    if s != [] && IsStrWhiteSpace(s[0]) then TrimStart(s[1..]) else s
  }

  /** `t` without its leading '+' or '-', if it has one. */
  function Unsigned(t: string): string {
    if t != [] && (t[0] == '+' || t[0] == '-') then t[1..] else t
  }

  /** After an optional sign, `t` begins with a digit, or with '.' and a digit: the texts of which
      `parseFloat` can read a prefix. */
  predicate BeginsNumeral(t: string) {
    var u := Unsigned(t);
    (u != [] && IsDigit(u[0])) || (|u| >= 2 && u[0] == '.' && IsDigit(u[1]))
  }

  /** The exponent of an ExponentPart ('e' or 'E', an optional sign, digits) at the start of `s`,
      or 0 when `s` does not start with one (the exponent is then not part of the number). */
  function ExponentPart(s: string): int {
    if |s| >= 2 && (s[0] == 'e' || s[0] == 'E') then
      var digits := LeadingDigits(if s[1] == '+' || s[1] == '-' then s[2..] else s[1..]);
      var e: int := if digits == [] then 0 else DigitsValue(digits);
      if s[1] == '-' then -e else e
    else 0
  }

  /** `m` times 10^e. */
  function ScaleByPow10(m: real, e: int): real {
    if e >= 0 then m * Pow10(e) as real else m / Pow10(-e) as real
  }

  /** The value of the decimal numeral with digits `intDigits` before the point and `fracDigits` after it. */
  function DecimalValue(negative: bool, intDigits: string, fracDigits: string): real
    requires IsDigits(intDigits) && IsDigits(fracDigits)
  {
    ConcatDigits(intDigits, fracDigits);
    var m := DigitsValue(intDigits + fracDigits) as real / Pow10(|fracDigits|) as real;
    if negative then -m else m
  }

  /** The value of the longest decimal literal without sign at the start of `u`: digits with at
      most one '.', then an optional exponent; NaN when `u` begins with no digit (nor '.' and a digit). */
  function ReadUnsignedNumeral(u: string): (r: NumberValue)
    ensures r.NaN? <==> !((u != [] && IsDigit(u[0])) || (|u| >= 2 && u[0] == '.' && IsDigit(u[1])))
  {
    var intDigits := LeadingDigits(u);
    var afterInt := u[|intDigits|..];
    var hasPoint := afterInt != [] && afterInt[0] == '.';
    var fracDigits := if hasPoint then LeadingDigits(afterInt[1..]) else [];
    if intDigits == [] && fracDigits == [] then NaN
    else
      var afterFrac := if hasPoint then afterInt[1 + |fracDigits|..] else afterInt;
      Finite(ScaleByPow10(DecimalValue(false, intDigits, fracDigits), ExponentPart(afterFrac)))
  }

  /** `parseFloat(s)`: skip leading white space, read an optional sign, then the longest unsigned
      decimal literal; NaN when there is none. */
  function ParseFloat(s: string): (r: NumberValue)
    ensures r.NaN? <==> !BeginsNumeral(TrimStart(s))
  {
    var t := TrimStart(s);
    assert ReadUnsignedNumeral(Unsigned(t)).NaN? <==> !BeginsNumeral(t);
    match ReadUnsignedNumeral(Unsigned(t))
    case NaN => NaN
    case Finite(m) => Finite(if t != [] && t[0] == '-' then -m else m)
  }

  /** A plain decimal numeral: an optional '-', the integer digits and, when there are any,
      '.' and the fraction digits. */
  function DecimalText(negative: bool, intDigits: string, fracDigits: string): string {
    (if negative then "-" else "") + intDigits + (if fracDigits == [] then "" else "." + fracDigits)
  }

  lemma ReadPlainNumeral(intDigits: string, fracDigits: string)
    requires IsDigits(intDigits) && IsDigits(fracDigits) && |intDigits| >= 1
    ensures ReadUnsignedNumeral(intDigits + (if fracDigits == [] then "" else "." + fracDigits))
            == Finite(DecimalValue(false, intDigits, fracDigits))
  {
    if fracDigits == [] {
      assert intDigits + "" == intDigits;
      ReadIntegerNumeral(intDigits);
    } else {
      ReadFractionNumeral(intDigits, fracDigits);
    }
  }

  lemma ReadIntegerNumeral(intDigits: string)
    requires IsDigits(intDigits) && |intDigits| >= 1
    ensures ReadUnsignedNumeral(intDigits) == Finite(DecimalValue(false, intDigits, ""))
  {
    assert LeadingDigits(intDigits) == intDigits && intDigits[|intDigits|..] == [] by {
      LeadingDigitsOfDigits(intDigits, "");
      assert intDigits + "" == intDigits;
    }
    assert ExponentPart([]) == 0;
    assert ScaleByPow10(DecimalValue(false, intDigits, ""), 0) == DecimalValue(false, intDigits, "");
  }

  lemma ReadFractionNumeral(intDigits: string, fracDigits: string)
    requires IsDigits(intDigits) && IsDigits(fracDigits) && |intDigits| >= 1 && |fracDigits| >= 1
    ensures ReadUnsignedNumeral(intDigits + ("." + fracDigits)) == Finite(DecimalValue(false, intDigits, fracDigits))
  {
    var tail := "." + fracDigits;
    var u := intDigits + tail;
    assert LeadingDigits(u) == intDigits && u[|intDigits|..] == tail by {
      LeadingDigitsOfDigits(intDigits, tail);
    }
    assert LeadingDigits(tail[1..]) == fracDigits && tail[1 + |fracDigits|..] == [] by {
      assert tail[1..] == fracDigits + "";
      LeadingDigitsOfDigits(fracDigits, "");
    }
    assert ExponentPart([]) == 0;
    assert ScaleByPow10(DecimalValue(false, intDigits, fracDigits), 0) == DecimalValue(false, intDigits, fracDigits);
  }

  /** `parseFloat` reads a plain decimal numeral back to the value it denotes. */
  lemma ParseFloatDecimalText(negative: bool, intDigits: string, fracDigits: string)
    requires IsDigits(intDigits) && IsDigits(fracDigits) && |intDigits| >= 1
    ensures ParseFloat(DecimalText(negative, intDigits, fracDigits))
            == Finite(DecimalValue(negative, intDigits, fracDigits))
  {
    DecimalTextTrimmed(negative, intDigits, fracDigits);
    DecimalTextSign(negative, intDigits, fracDigits);
    ReadPlainNumeral(intDigits, fracDigits);
    DecimalValueSign(negative, intDigits, fracDigits);
  }

  /** A plain decimal numeral begins with no white space. */
  lemma DecimalTextTrimmed(negative: bool, intDigits: string, fracDigits: string)
    requires IsDigits(intDigits) && IsDigits(fracDigits)
    ensures TrimStart(DecimalText(negative, intDigits, fracDigits)) == DecimalText(negative, intDigits, fracDigits)
  {
    DecimalTextAlphabet(negative, intDigits, fracDigits);
  }

  /** A plain decimal numeral starts with '-' exactly when it is negative, and without its sign it is
      the integer digits followed by the fraction. */
  lemma DecimalTextSign(negative: bool, intDigits: string, fracDigits: string)
    requires IsDigits(intDigits) && |intDigits| >= 1
    ensures var s := DecimalText(negative, intDigits, fracDigits);
      s != [] && (s[0] == '-' <==> negative) &&
      Unsigned(s) == intDigits + (if fracDigits == [] then "" else "." + fracDigits)
  {
    var s := DecimalText(negative, intDigits, fracDigits);
    var u := intDigits + (if fracDigits == [] then "" else "." + fracDigits);
    if negative {
      assert s == "-" + u;
    } else {
      assert s == u && s[0] == intDigits[0];
    }
  }

  /** A plain decimal numeral is written with digits, '-' and '.' only. */
  lemma DecimalTextAlphabet(negative: bool, intDigits: string, fracDigits: string)
    requires IsDigits(intDigits) && IsDigits(fracDigits)
    ensures var t := DecimalText(negative, intDigits, fracDigits);
      forall i :: 0 <= i < |t| ==> IsDigit(t[i]) || t[i] == '-' || t[i] == '.'
  {
    var t := DecimalText(negative, intDigits, fracDigits);
    var sign := if negative then "-" else "";
    var frac := if fracDigits == [] then "" else "." + fracDigits;
    assert t == sign + intDigits + frac;
    forall i | 0 <= i < |t| ensures IsDigit(t[i]) || t[i] == '-' || t[i] == '.' {
      if i < |sign| {
        assert t[i] == sign[i];
      } else if i < |sign| + |intDigits| {
        assert t[i] == intDigits[i - |sign|];
      } else {
        assert t[i] == frac[i - |sign| - |intDigits|];
        if fracDigits != [] && i > |sign| + |intDigits| {
          assert frac[i - |sign| - |intDigits|] == fracDigits[i - |sign| - |intDigits| - 1];
        }
      }
    }
  }

  /** The sign of a numeral negates its value. */
  lemma DecimalValueSign(negative: bool, intDigits: string, fracDigits: string)
    requires IsDigits(intDigits) && IsDigits(fracDigits)
    ensures var m := DecimalValue(false, intDigits, fracDigits);
      DecimalValue(negative, intDigits, fracDigits) == if negative then -m else m
  {
  }

  /** `parseFloat` reads an integer numeral back to its value. */
  lemma ParseFloatInteger(negative: bool, digits: string)
    requires IsDigits(digits) && |digits| >= 1
    ensures var v := DigitsValue(digits) as real;
      ParseFloat((if negative then "-" else "") + digits) == Finite(if negative then -v else v)
  {
    assert DecimalText(negative, digits, "") == (if negative then "-" else "") + digits;
    ParseFloatDecimalText(negative, digits, "");
    DecimalValueOfInteger(negative, digits);
  }

  /** The value `parseFloat` reads, negated. */
  function Negate(n: NumberValue): NumberValue {
    match n
    case NaN => NaN
    case Finite(x) => Finite(-x)
  }

  /** Text that begins with no white space is read by `parseFloat` as its sign and the unsigned
      numeral after it. */
  lemma ParseFloatUntrimmed(s: string)
    requires s == [] || !IsStrWhiteSpace(s[0])
    ensures var r := ReadUnsignedNumeral(Unsigned(s));
      ParseFloat(s) == if s != [] && s[0] == '-' then Negate(r) else r
  {
    assert TrimStart(s) == s;
    var r := ReadUnsignedNumeral(Unsigned(s));
    if r.Finite? {
      assert ParseFloat(s) == Finite(if s != [] && s[0] == '-' then -r.value else r.value);
    }
  }

  /** A '+' before a numeral changes nothing and a '-' negates it, when the sign is followed by
      neither white space nor a second sign. */
  lemma ParseFloatSign(s: string)
    requires s == [] || (!IsStrWhiteSpace(s[0]) && s[0] != '+' && s[0] != '-')
    ensures ParseFloat("+" + s) == ParseFloat(s)
    ensures ParseFloat("-" + s) == Negate(ParseFloat(s))
  {
    assert Unsigned("+" + s) == s && Unsigned("-" + s) == s && Unsigned(s) == s;
    ParseFloatUntrimmed("+" + s);
    ParseFloatUntrimmed("-" + s);
    ParseFloatUntrimmed(s);
  }

  /** A numeral that starts with its point: ".5" reads as 0.5. */
  lemma ParseFloatPointFirst(frac: string)
    requires IsDigits(frac) && |frac| >= 1
    ensures ParseFloat("." + frac) == Finite(DigitsValue(frac) as real / Pow10(|frac|) as real)
  {
    var u := "." + frac;
    assert Unsigned(u) == u;
    ParseFloatUntrimmed(u);
    ReadPointFirstNumeral(frac);
    assert "" + frac == frac;
  }

  lemma ReadPointFirstNumeral(frac: string)
    requires IsDigits(frac) && |frac| >= 1
    ensures ReadUnsignedNumeral("." + frac) == Finite(DecimalValue(false, "", frac))
  {
    var u := "." + frac;
    assert LeadingDigits(u) == [] && u[0..] == u;
    FractionAfterPoint(frac);
    assert ExponentPart([]) == 0;
    assert ScaleByPow10(DecimalValue(false, "", frac), 0) == DecimalValue(false, "", frac);
  }

  /** After a leading '.', the fraction digits run to the end of the text. */
  lemma FractionAfterPoint(frac: string)
    requires IsDigits(frac)
    ensures var u := "." + frac; LeadingDigits(u[1..]) == frac && u[1 + |frac|..] == []
  {
    var u := "." + frac;
    assert u[1..] == frac + "";
    LeadingDigitsOfDigits(frac, "");
  }

  /** Digits followed by an exponent: "5e3" reads as 5 scaled by 10^3. */
  lemma ParseFloatExponent(digits: string, e: string)
    requires IsDigits(digits) && |digits| >= 1 && IsDigits(e) && |e| >= 1
    ensures ParseFloat(digits + ("e" + e)) == Finite(ScaleByPow10(DigitsValue(digits) as real, DigitsValue(e)))
  {
    var u := digits + ("e" + e);
    assert u[0] == digits[0];
    ParseFloatDigitFirst(u);
    ReadExponentNumeral(digits, e);
    DecimalValueOfInteger(false, digits);
  }

  /** Text that begins with a digit is read by `parseFloat` as an unsigned numeral. */
  lemma ParseFloatDigitFirst(u: string)
    requires u != [] && IsDigit(u[0])
    ensures ParseFloat(u) == ReadUnsignedNumeral(u)
  {
    assert Unsigned(u) == u;
    ParseFloatUntrimmed(u);
  }

  lemma ReadExponentNumeral(digits: string, e: string)
    requires IsDigits(digits) && |digits| >= 1 && IsDigits(e) && |e| >= 1
    ensures ReadUnsignedNumeral(digits + ("e" + e)) == Finite(ScaleByPow10(DecimalValue(false, digits, ""), DigitsValue(e)))
  {
    var tail := "e" + e;
    var u := digits + tail;
    assert LeadingDigits(u) == digits && u[|digits|..] == tail by {
      LeadingDigitsOfDigits(digits, tail);
    }
    assert tail[0] != '.';
    ExponentOfDigits(e);
  }

  lemma ExponentOfDigits(e: string)
    requires IsDigits(e) && |e| >= 1
    ensures ExponentPart("e" + e) == DigitsValue(e)
  {
    var tail := "e" + e;
    assert tail[1..] == e + "";
    LeadingDigitsOfDigits(e, "");
  }

  lemma DecimalValueOfInteger(negative: bool, digits: string)
    requires IsDigits(digits)
    ensures var v := DigitsValue(digits) as real;
      DecimalValue(negative, digits, "") == (if negative then -v else v)
  {
    assert digits + "" == digits;
    var v := DigitsValue(digits) as real;
    var m := DigitsValue(digits + "") as real / Pow10(0) as real;
    assert m == v;
  }

  /* ---------- toFixed ---------- */

  function Abs(x: real): real {
    if x < 0.0 then -x else x
  }

  /** The integer nearest to `y`, the larger one when two are equally near. */
  function RoundHalfUp(y: real): (n: nat)
    requires y >= 0.0
    ensures y - 0.5 < n as real <= y + 0.5
  {
    (y + 0.5).Floor
  }

  /** `m` with zeros prepended up to `width` characters. */
  function ZeroPadTo(m: string, width: nat): (p: string)
    requires IsDigits(m)
    ensures IsDigits(p) && |p| >= width && |p| >= |m|
    ensures DigitsValue(p) == DigitsValue(m)
  {
    if |m| < width then ZeroPaddedValue(width - |m|, m); Zeros(width - |m|) + m else m
  }

  /** |x| scaled by 10^fractionDigits and rounded to the nearest integer, halves upwards: the
      digits `toFixed(fractionDigits)` shows. */
  function ScaledDigits(x: real, fractionDigits: nat): nat {
    var p := Pow10(fractionDigits) as real;
    MulNonneg(Abs(x), p);
    RoundHalfUp(Abs(x) * p)
  }

  /** The number `toFixed(fractionDigits)` shows: `x` rounded to `fractionDigits` decimals,
      halves rounded away from zero. */
  function RoundToFixed(x: real, fractionDigits: nat): real {
    var q := ScaledDigits(x, fractionDigits) as real / Pow10(fractionDigits) as real;
    if x < 0.0 then -q else q
  }

  /** The digits of `ScaledDigits(x, fractionDigits)`, zero-padded to at least one more digit
      than the fraction takes. */
  function PaddedDigits(x: real, fractionDigits: nat): (m: string)
    ensures IsDigits(m) && |m| >= fractionDigits + 1
    ensures DigitsValue(m) == ScaledDigits(x, fractionDigits)
  {
    ZeroPadTo(NatToDigits(ScaledDigits(x, fractionDigits)), fractionDigits + 1)
  }

  /** 10^21: from this magnitude on, `toFixed` writes exponential notation. */
  const ExponentialThreshold: real := 1_000_000_000_000_000_000_000.0

  /** `x.toFixed(fractionDigits)` for |x| < 10^21 (from 10^21 on, `toFixed` switches to the
      exponential notation of `Number.prototype.toString`). */
  function ToFixed(x: real, fractionDigits: nat): (s: string)
    requires fractionDigits <= 100
    requires Abs(x) < ExponentialThreshold
  {
    var m := PaddedDigits(x, fractionDigits);
    DecimalText(x < 0.0, m[..|m| - fractionDigits], m[|m| - fractionDigits..])
  }

  /** Splitting a digit string at `k` gives two digit strings; as integer and fraction digits they
      denote its value scaled down by the length of the fraction. */
  lemma SplitDigits(negative: bool, m: string, k: nat)
    requires IsDigits(m) && k <= |m|
    ensures IsDigits(m[..k]) && IsDigits(m[k..])
    ensures var q := DigitsValue(m) as real / Pow10(|m| - k) as real;
      DecimalValue(negative, m[..k], m[k..]) == if negative then -q else q
  {
    assert forall i :: 0 <= i < k ==> m[..k][i] == m[i];
    assert forall i :: 0 <= i < |m| - k ==> m[k..][i] == m[k + i];
    assert m[..k] + m[k..] == m;
  }

  /** Zero rounds to zero. */
  lemma RoundToFixedOfZero(fractionDigits: nat)
    ensures RoundToFixed(0.0, fractionDigits) == 0.0
  {
    assert ScaledDigits(0.0, fractionDigits) == 0;
  }

  /** `toFixed` writes no group separators. */
  lemma ToFixedHasNoComma(x: real, fractionDigits: nat)
    requires fractionDigits <= 100
    requires Abs(x) < ExponentialThreshold
    ensures forall i :: 0 <= i < |ToFixed(x, fractionDigits)| ==> ToFixed(x, fractionDigits)[i] != ','
  {
    var m := PaddedDigits(x, fractionDigits);
    var k := |m| - fractionDigits;
    DecimalTextAlphabet(x < 0.0, m[..k], m[k..]);
  }

  /** `toFixed` output, read back by `parseFloat`, is the rounded value. */
  lemma ToFixedRoundTrip(x: real, fractionDigits: nat)
    requires fractionDigits <= 100
    requires Abs(x) < ExponentialThreshold
    ensures ParseFloat(ToFixed(x, fractionDigits)) == Finite(RoundToFixed(x, fractionDigits))
  {
    var m := PaddedDigits(x, fractionDigits);
    var k := |m| - fractionDigits;
    assert ToFixed(x, fractionDigits) == DecimalText(x < 0.0, m[..k], m[k..]);
    SplitDigits(x < 0.0, m, k);
    assert RoundToFixed(x, fractionDigits) == DecimalValue(x < 0.0, m[..k], m[k..]);
    ParseFloatDecimalText(x < 0.0, m[..k], m[k..]);
  }

  /** The text of `toFixed(f)` for f >= 1: a '-' exactly for a negative `x`, then integer digits
      without a leading zero (a lone "0" excepted), a '.', and exactly `f` digits. */
  lemma ToFixedShape(x: real, f: nat)
    requires 1 <= f <= 100 && Abs(x) < ExponentialThreshold
    ensures var s := ToFixed(x, f); var k := |s| - f - 1;
      |s| >= f + 2 && s[k] == '.' && IsDigits(s[k + 1..]) &&
      (s[0] == '-' <==> x < 0.0) &&
      var a := if x < 0.0 then s[1..k] else s[..k];
      |a| >= 1 && IsDigits(a) && (|a| > 1 ==> a[0] != '0')
  {
    var m := PaddedDigits(x, f);
    var k := |m| - f;
    var a, b := m[..k], m[k..];
    SplitDigits(x < 0.0, m, k);
    assert ToFixed(x, f) == DecimalText(x < 0.0, a, b);
    DecimalTextShape(x < 0.0, a, b);
    PaddedDigitsLeading(x, f);
    assert |a| > 1 ==> a[0] == m[0] && |m| > f + 1;
  }

  /** A numeral with integer and fraction digits: its sign, its integer digits, a '.', and its
      fraction digits, each found where they belong. */
  lemma DecimalTextShape(negative: bool, a: string, b: string)
    requires IsDigits(a) && IsDigits(b) && |a| >= 1 && |b| >= 1
    ensures var s := DecimalText(negative, a, b); var k := |s| - |b| - 1;
      |s| == |a| + |b| + 1 + (if negative then 1 else 0) &&
      s[k] == '.' && s[k + 1..] == b &&
      (s[0] == '-' <==> negative) &&
      (if negative then s[1..k] else s[..k]) == a
  {
    var s := DecimalText(negative, a, b);
    var sign := if negative then "-" else "";
    assert s == sign + a + ("." + b);
    assert s[|s| - |b|..] == b;
    assert s[|s| - |b| - 1] == '.';
    if !negative {
      assert s[0] == a[0];
    }
  }

  /** The padded digits start with '0' only when they are exactly the padding width. */
  lemma PaddedDigitsLeading(x: real, f: nat)
    ensures var m := PaddedDigits(x, f); |m| > f + 1 ==> m[0] != '0'
  {
    var d := NatToDigits(ScaledDigits(x, f));
    if |d| >= f + 1 {
      assert PaddedDigits(x, f) == d;
      if |d| > f + 1 { assert ScaledDigits(x, f) != 0; }
    }
  }

  /** The value `toFixed(fractionDigits)` shows is within half a unit of its last decimal of `x`. */
  lemma RoundToFixedError(x: real, fractionDigits: nat)
    ensures Abs(RoundToFixed(x, fractionDigits) - x) <= 1.0 / (2.0 * Pow10(fractionDigits) as real)
  {
    var p := Pow10(fractionDigits) as real;
    var q := ScaledDigits(x, fractionDigits) as real / p;
    ScaledQuotientNear(x, fractionDigits);
    SignedError(x, q, 1.0 / (2.0 * p), RoundToFixed(x, fractionDigits));
  }

  /** The rounded magnitude is within half a unit of the last decimal of |x|. */
  lemma ScaledQuotientNear(x: real, fractionDigits: nat)
    ensures var p := Pow10(fractionDigits) as real;
      -1.0 / (2.0 * p) < ScaledDigits(x, fractionDigits) as real / p - Abs(x) <= 1.0 / (2.0 * p)
  {
    ScaledDigitsNear(x, fractionDigits);
    RoundingError(Abs(x), Pow10(fractionDigits) as real, ScaledDigits(x, fractionDigits) as real);
  }

  /** The scaled digits are within one half of |x| scaled. */
  lemma ScaledDigitsNear(x: real, fractionDigits: nat)
    ensures var y := Abs(x) * Pow10(fractionDigits) as real;
      y - 0.5 < ScaledDigits(x, fractionDigits) as real <= y + 0.5
  {
    MulNonneg(Abs(x), Pow10(fractionDigits) as real);
  }

  lemma SignedError(x: real, q: real, bound: real, r: real)
    requires -bound < q - Abs(x) <= bound
    requires r == if x < 0.0 then -q else q
    ensures Abs(r - x) <= bound
  {
  }

  /** Dividing a rounding error of at most 1/2 by the scale `p`. */
  lemma RoundingError(a: real, p: real, n: real)
    requires p >= 1.0 && a * p - 0.5 < n <= a * p + 0.5
    ensures -1.0 / (2.0 * p) < n / p - a <= 1.0 / (2.0 * p)
  {
    var e := n - a * p;
    assert n / p - a == e / p;
    DivideHalf(e, p);
  }

  lemma DivideHalf(e: real, p: real)
    requires p >= 1.0 && -0.5 < e <= 0.5
    ensures -1.0 / (2.0 * p) < e / p <= 1.0 / (2.0 * p)
  {
    assert 1.0 / (2.0 * p) == 0.5 / p;
  }

  lemma MulNonneg(a: real, b: real)
    requires a >= 0.0 && b >= 0.0
    ensures a * b >= 0.0
  {
  }

  /** The grouping of a digit string into thousands, as en-US `toLocaleString` writes it. */
  function GroupThousands(d: string): (g: string)
  {
    if |d| <= 3 then d else GroupThousands(d[..|d| - 3]) + "," + d[|d| - 3..]
  }

  /** `n.toLocaleString()` in the en-US locale, for an integer `n`. */
  function ToLocaleString(n: int): string {
    (if n < 0 then "-" else "") + GroupThousands(NatToDigits(if n < 0 then -n else n))
  }

  /** The digit string without its last three digits, and those three digits. */
  lemma SplitLastThree(d: string)
    requires IsDigits(d) && |d| > 3
    ensures IsDigits(d[..|d| - 3]) && IsDigits(d[|d| - 3..])
    ensures GroupThousands(d) == GroupThousands(d[..|d| - 3]) + "," + d[|d| - 3..]
  {
    var h, t := d[..|d| - 3], d[|d| - 3..];
    assert forall i :: 0 <= i < |h| ==> h[i] == d[i];
    assert forall i :: 0 <= i < 3 ==> t[i] == d[|d| - 3 + i];
  }

  /** Grouping adds one comma for each full group of three digits after the first digit. */
  lemma {:induction false} GroupThousandsLength(d: string)
    requires IsDigits(d) && |d| >= 1
    ensures |GroupThousands(d)| == |d| + (|d| - 1) / 3
  {
    if |d| > 3 {
      SplitLastThree(d);
      GroupThousandsLength(d[..|d| - 3]);
    }
  }

  /** Grouping puts a comma at exactly every fourth position counted from the right end. */
  lemma {:induction false} GroupThousandsCommas(d: string)
    requires IsDigits(d) && |d| >= 1
    ensures var g := GroupThousands(d);
      forall i :: 0 <= i < |g| ==> (g[i] == ',' <==> (|g| - i) % 4 == 0)
  {
    if |d| > 3 {
      SplitLastThree(d);
      var h, t := d[..|d| - 3], d[|d| - 3..];
      GroupThousandsCommas(h);
      var gh := GroupThousands(h);
      var g := gh + "," + t;
      forall i | 0 <= i < |g| ensures g[i] == ',' <==> (|g| - i) % 4 == 0 {
        CommaAfterGroup(gh, t, i);
      }
    }
  }

  /** Position `i` of `gh + "," + t`, with `t` three digits, holds a comma exactly where position `i`
      of `gh` does or where the new comma stands, counting in fours from the end. */
  lemma CommaAfterGroup(gh: string, t: string, i: int)
    requires IsDigits(t) && |t| == 3 && 0 <= i < |gh| + 4
    requires forall j :: 0 <= j < |gh| ==> (gh[j] == ',' <==> (|gh| - j) % 4 == 0)
    ensures (gh + "," + t)[i] == ',' <==> (|gh| + 4 - i) % 4 == 0
  {
    var g := gh + "," + t;
    if i < |gh| {
      assert g[i] == gh[i];
      assert (|gh| + 4 - i) % 4 == (|gh| - i) % 4;
    } else if i > |gh| {
      assert g[i] == t[i - |gh| - 1];
      assert 1 <= |gh| + 4 - i <= 3;
    }
  }

  /** Deleting the commas of a grouped digit string gives the digits back. */
  lemma {:induction false} GroupThousandsUngroup(d: string)
    requires IsDigits(d)
    ensures RemoveAll(GroupThousands(d), ',') == d
  {
    if |d| <= 3 {
      RemoveAllAbsent(d, ',');
    } else {
      SplitLastThree(d);
      var h, t := d[..|d| - 3], d[|d| - 3..];
      var gh := GroupThousands(h);
      assert RemoveAll(GroupThousands(d), ',') == RemoveAll(gh + ",", ',') + RemoveAll(t, ',') by {
        RemoveAllAppend(gh + ",", t, ',');
      }
      assert RemoveAll(gh + ",", ',') == h by {
        RemoveAllAppend(gh, ",", ',');
        assert RemoveAll(",", ',') == [];
        GroupThousandsUngroup(h);
      }
      assert RemoveAll(t, ',') == t by {
        RemoveAllAbsent(t, ',');
      }
      assert h + t == d;
    }
  }

  /* ---------- Math.pow(t, 2 / 3) ---------- */

  /** What the model assumes of `Math.pow(t, 2 / 3)` for t > 0: the value is positive and grows
      with t. ECMAScript leaves the exact value implementation-approximated. */
  ghost predicate IsPositiveIncreasing(f: real -> real) {
    (forall t :: 0.0 < t ==> 0.0 < f(t)) &&
    (forall s, t :: 0.0 < s < t ==> f(s) < f(t))
  }

  /** `t => Math.pow(t, 2 / 3)`, a parameter of the model (see `IsPositiveIncreasing`). */
  type TwoThirdsPower = f: real -> real | IsPositiveIncreasing(f) witness (t: real) => t
}
