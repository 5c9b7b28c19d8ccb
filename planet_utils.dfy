/** Normalisation of raw SWAPI planet records and the two display formatters. */
module PlanetUtils {
  import opened Decimal
  import opened JsRuntime
  import opened PlanetTypes

  datatype Option<T> = None | Some(value: T)

  /* ---------- calculateDistanceFromSun ---------- */

  /** Relative distance from the sun by Kepler's third law, `orbitalPeriod^(2/3)`; 0 for a period
      that is 0 or negative (JavaScript's `!orbitalPeriod` also catches NaN, which a real cannot be). */
  function CalculateDistanceFromSun(orbitalPeriod: real, pow: TwoThirdsPower): (d: real)
    ensures d >= 0.0
    ensures d > 0.0 <==> orbitalPeriod > 0.0
  {
    if orbitalPeriod <= 0.0 then 0.0 else pow(orbitalPeriod)
  }

  /** A longer orbital period never gives a shorter distance, and a strictly longer positive one
      gives a strictly longer distance. */
  lemma DistanceFromSunIncreasing(s: real, t: real, pow: TwoThirdsPower)
    requires s <= t
    ensures CalculateDistanceFromSun(s, pow) <= CalculateDistanceFromSun(t, pow)
    ensures s < t && 0.0 < t ==> CalculateDistanceFromSun(s, pow) < CalculateDistanceFromSun(t, pow)
  {
  }

  /* ---------- extractPlanetId ---------- */

  /** `url` ends with "/planets/", the non-empty digit string `d` and at most one '/': exactly the
      strings in which /\/planets\/(\d+)\/?$/ matches with `d` as its group. */
  ghost predicate EndsWithPlanetPath(url: string, d: string) {
    |d| >= 1 && IsDigits(d) &&
    exists p :: url == p + "/planets/" + d || url == p + "/planets/" + d + "/"
  }

  /** `url` without its last character when that is a '/'. */
  function DropFinalSlash(url: string): string {
    if url != [] && url[|url| - 1] == '/' then url[..|url| - 1] else url
  }

  /** The group captured by /\/planets\/(\d+)\/?$/ in `url`, or None when it does not match. The
      pattern is anchored at the end, so the group is the run of digits before an optional final '/',
      and it must be preceded by "/planets/". */
  function MatchPlanetPath(url: string): Option<string> {
    var body := DropFinalSlash(url);
    var d := TrailingDigits(body);
    var rest := body[..|body| - |d|];
    if |d| >= 1 && |rest| >= 9 && rest[|rest| - 9..] == "/planets/" then Some(d) else None
  }

  /** `extractPlanetId`: the number after "/planets/" at the end of `url` (read by `parseInt(_, 10)`),
      or 0 when the URL does not end that way. */
  function ExtractPlanetId(url: string): nat {
    match MatchPlanetPath(url)
    case Some(d) => DigitsValue(d)
    case None => 0
  }

  /** What the pattern captures is a planet path ending of the URL. */
  lemma MatchPlanetPathSound(url: string)
    requires MatchPlanetPath(url).Some?
    ensures EndsWithPlanetPath(url, MatchPlanetPath(url).value)
  {
    var d := MatchPlanetPath(url).value;
    var body := DropFinalSlash(url);
    var rest := body[..|body| - |d|];
    var p := rest[..|rest| - 9];
    assert rest == p + "/planets/";
    assert body == rest + d;
    if url != [] && url[|url| - 1] == '/' {
      assert url == body + "/";
      assert url == p + "/planets/" + d + "/";
    } else {
      assert url == p + "/planets/" + d;
    }
  }

  /** A text ending in "/planets/" followed by digits is matched with those digits as the group. */
  lemma MatchPlanetBody(rest: string, d: string)
    requires |d| >= 1 && IsDigits(d)
    requires |rest| >= 9 && rest[|rest| - 9..] == "/planets/"
    ensures MatchPlanetPath(rest + d) == Some(d) && MatchPlanetPath(rest + d + "/") == Some(d)
  {
    assert rest[|rest| - 1] == '/';
    TrailingDigitsOfDigits(rest, d);
    var body := rest + d;
    assert body[|body| - 1] == d[|d| - 1];
    assert DropFinalSlash(body) == body;
    assert DropFinalSlash(body + "/") == body;
    assert body[..|body| - |d|] == rest;
  }

  /** Every planet path ending of the URL is what the pattern captures. */
  lemma MatchPlanetPathComplete(url: string, d: string)
    requires EndsWithPlanetPath(url, d)
    ensures MatchPlanetPath(url) == Some(d)
  {
    var p :| url == p + "/planets/" + d || url == p + "/planets/" + d + "/";
    var rest := p + "/planets/";
    assert rest[|rest| - 9..] == "/planets/";
    MatchPlanetBody(rest, d);
  }

  /** The model of the pattern agrees with its meaning, in both directions. */
  lemma MatchPlanetPathCorrect(url: string, d: string)
    ensures MatchPlanetPath(url) == Some(d) <==> EndsWithPlanetPath(url, d)
  {
    if MatchPlanetPath(url) == Some(d) {
      MatchPlanetPathSound(url);
    }
    if EndsWithPlanetPath(url, d) {
      MatchPlanetPathComplete(url, d);
    }
  }

  /** A planet URL, with or without its trailing slash, yields the number it ends with. */
  lemma ExtractPlanetIdOfPlanetUrl(prefix: string, digits: string)
    requires |digits| >= 1 && IsDigits(digits)
    ensures ExtractPlanetId(prefix + "/planets/" + digits + "/") == DigitsValue(digits)
    ensures ExtractPlanetId(prefix + "/planets/" + digits) == DigitsValue(digits)
  {
    MatchPlanetPathCorrect(prefix + "/planets/" + digits + "/", digits);
    MatchPlanetPathCorrect(prefix + "/planets/" + digits, digits);
  }

  /** A URL that does not end in "/planets/<digits>" with an optional slash yields 0. */
  lemma ExtractPlanetIdOfOtherUrl(url: string)
    requires forall d :: !EndsWithPlanetPath(url, d)
    ensures ExtractPlanetId(url) == 0
  {
    if MatchPlanetPath(url).Some? {
      MatchPlanetPathCorrect(url, MatchPlanetPath(url).value);
    }
  }

  /* ---------- parseNumberOrZero ---------- */

  /** `parseNumberOrZero`: 0 for "", any-case "unknown" and "n/a"; otherwise the commas are deleted
      and the rest is read by `parseFloat`, NaN becoming 0. */
  function ParseNumberOrZero(value: string): real {
    if value == "" || ToLowerCase(value) == "unknown" || value == "n/a" then 0.0
    else NaNToZero(ParseFloat(RemoveAll(value, ',')))
  }

  /** `isNaN(parsed) ? 0 : parsed` */
  function NaNToZero(n: NumberValue): real {
    match n
    case NaN => 0.0
    case Finite(x) => x
  }

  /** The three sentinels are texts in which `parseFloat` finds no number, so the guard in front of
      it only short-cuts: the result is `parseFloat` of the comma-free text, NaN read as 0, for every input. */
  lemma ParseNumberOrZeroIsParseFloat(value: string)
    ensures ParseNumberOrZero(value) == NaNToZero(ParseFloat(RemoveAll(value, ',')))
  {
    if value != "" && (ToLowerCase(value) == "unknown" || value == "n/a") {
      assert LowerChar(value[0]) == 'u' || value[0] == 'n';
      assert value[0] != ',' && !IsStrWhiteSpace(value[0]);
      assert RemoveAll(value, ',')[0] == value[0];
      assert TrimStart(RemoveAll(value, ',')) == RemoveAll(value, ',');
    }
  }

  /** "unknown" spelled in any mix of cases, with KELVIN SIGN allowed for its 'k'. */
  predicate SpellsUnknown(s: string) {
    |s| == 7 &&
    forall i :: 0 <= i < 7 ==> s[i] == "unknown"[i] || s[i] == "UNKNOWN"[i] || (i == 2 && s[i] == '\U{212A}')
  }

  /** The texts the sentinel test `value.toLowerCase() === 'unknown'` accepts are exactly the
      mixed-case spellings of "unknown". */
  lemma LowerCaseIsUnknown(s: string)
    ensures ToLowerCase(s) == "unknown" <==> SpellsUnknown(s)
  {
    if ToLowerCase(s) == "unknown" {
      forall i | 0 <= i < 7
        ensures s[i] == "unknown"[i] || s[i] == "UNKNOWN"[i] || (i == 2 && s[i] == '\U{212A}')
      {
        assert LowerChar(s[i]) == "unknown"[i];
      }
    }
    if SpellsUnknown(s) {
      forall i | 0 <= i < 7
        ensures ToLowerCase(s)[i] == "unknown"[i]
      {
        assert LowerChar(s[i]) == "unknown"[i];
      }
    }
  }

  /** Every mixed-case spelling of "unknown" parses to 0. */
  lemma ParseNumberOrZeroUnknown(value: string)
    requires SpellsUnknown(value)
    ensures ParseNumberOrZero(value) == 0.0
  {
    LowerCaseIsUnknown(value);
  }

  /** Digits and commas only, with at least one digit. */
  predicate IsGroupedDigits(s: string) {
    (forall i :: 0 <= i < |s| ==> IsDigit(s[i]) || s[i] == ',') &&
    exists i :: 0 <= i < |s| && IsDigit(s[i])
  }

  lemma {:induction false} UngroupDigits(s: string)
    requires forall i :: 0 <= i < |s| ==> IsDigit(s[i]) || s[i] == ','
    ensures IsDigits(RemoveAll(s, ','))
    ensures (exists i :: 0 <= i < |s| && IsDigit(s[i])) ==> RemoveAll(s, ',') != []
  {
    if s != [] {
      UngroupDigits(s[1..]);
      if exists i :: 0 <= i < |s| && IsDigit(s[i]) {
        var i :| 0 <= i < |s| && IsDigit(s[i]);
        if i > 0 { assert IsDigit(s[1..][i - 1]); }
      }
    }
  }

  /** Commas are deleted before parsing: a string of digits and commas denotes its digits. */
  lemma ParseNumberOrZeroGroupedDigits(value: string)
    requires IsGroupedDigits(value)
    ensures IsDigits(RemoveAll(value, ',')) &&
            ParseNumberOrZero(value) == DigitsValue(RemoveAll(value, ',')) as real
  {
    UngroupDigits(value);
    var digits := RemoveAll(value, ',');
    ParseNumberOrZeroIsParseFloat(value);
    ParseFloatInteger(false, digits);
    assert "" + digits == digits;
  }

  /** A text that, commas deleted and leading white space skipped, begins with no number
      (as "abc" does) yields 0 rather than NaN. */
  lemma ParseNumberOrZeroNoNumber(value: string)
    requires !BeginsNumeral(TrimStart(RemoveAll(value, ',')))
    ensures ParseNumberOrZero(value) == 0.0
  {
  }

  /* ---------- transformPlanet ---------- */

  /** `transformPlanet`: the raw record in the application's shape. */
  function TransformPlanet(raw: SwapiPlanet, pow: TwoThirdsPower): (p: Planet)
    ensures p.name == raw.name && p.climate == raw.climate && p.gravity == raw.gravity
    ensures p.terrain == raw.terrain && p.url == raw.url
    ensures p.populationString == raw.population && p.diameterString == raw.diameter
    ensures IsConsistent(p, pow)
    ensures p.orbitalPeriod == ParseNumberOrZero(raw.orbitalPeriod)
  {
    var orbitalPeriod := ParseNumberOrZero(raw.orbitalPeriod);
    var population := ParseNumberOrZero(raw.population);
    var diameter := ParseNumberOrZero(raw.diameter);
    Planet(
      id := ExtractPlanetId(raw.url),
      name := raw.name,
      population := population,
      populationString := raw.population,
      orbitalPeriod := orbitalPeriod,
      distanceFromSun := CalculateDistanceFromSun(orbitalPeriod, pow),
      diameter := diameter,
      diameterString := raw.diameter,
      climate := raw.climate,
      gravity := raw.gravity,
      terrain := raw.terrain,
      url := raw.url)
  }

  /** The derived fields of a planet agree with the fields they derive from: the id with the URL,
      each number with its display string, the distance with the orbital period. */
  ghost predicate IsConsistent(p: Planet, pow: TwoThirdsPower) {
    p.id == ExtractPlanetId(p.url) &&
    p.population == ParseNumberOrZero(p.populationString) &&
    p.diameter == ParseNumberOrZero(p.diameterString) &&
    p.distanceFromSun == CalculateDistanceFromSun(p.orbitalPeriod, pow)
  }

  /** In a consistent planet, the distance is positive exactly when the orbital period is, and a
      missing population or diameter shows as 0. */
  lemma ConsistentPlanetFacts(p: Planet, pow: TwoThirdsPower)
    requires IsConsistent(p, pow)
    ensures p.distanceFromSun >= 0.0
    ensures p.distanceFromSun > 0.0 <==> p.orbitalPeriod > 0.0
    ensures ToLowerCase(p.populationString) == "unknown" ==> p.population == 0.0
    ensures ToLowerCase(p.diameterString) == "unknown" ==> p.diameter == 0.0
  {
  }

  /** Only `name`, `orbital_period`, `diameter`, `climate`, `gravity`, `terrain`, `population` and
      `url` are read: records that agree on these give the same planet. */
  lemma TransformPlanetIgnoresOtherFields(a: SwapiPlanet, b: SwapiPlanet, pow: TwoThirdsPower)
    requires a.name == b.name && a.orbitalPeriod == b.orbitalPeriod && a.diameter == b.diameter
    requires a.climate == b.climate && a.gravity == b.gravity && a.terrain == b.terrain
    requires a.population == b.population && a.url == b.url
    ensures TransformPlanet(a, pow) == TransformPlanet(b, pow)
  {
  }

  /** A record whose population, diameter and orbital period are all "unknown" yields zeros. */
  lemma TransformUnknownPlanet(raw: SwapiPlanet, pow: TwoThirdsPower)
    requires raw.population == "unknown" && raw.diameter == "unknown" && raw.orbitalPeriod == "unknown"
    ensures var p := TransformPlanet(raw, pow);
      p.population == 0.0 && p.diameter == 0.0 && p.orbitalPeriod == 0.0 && p.distanceFromSun == 0.0
  {
    UnknownIsZero();
    var p := TransformPlanet(raw, pow);
    assert p.population == ParseNumberOrZero(raw.population);
    assert p.diameter == ParseNumberOrZero(raw.diameter);
  }

  lemma UnknownIsZero()
    ensures ParseNumberOrZero("unknown") == 0.0
  {
    ParseNumberOrZeroUnknown("unknown");
  }

  /* ---------- formatNumber and formatDistance ---------- */

  /** `formatNumber`: "Unknown" for 0, otherwise the en-US `toLocaleString` of the number. */
  function FormatNumber(num: int): (s: string)
    ensures s == "Unknown" <==> num == 0
  {
    if num == 0 then "Unknown"
    else
      var digits := NatToDigits(if num < 0 then -num else num);
      GroupThousandsHead(digits);
      assert ToLocaleString(num)[0] == '-' || ToLocaleString(num)[0] == digits[0];
      ToLocaleString(num)
  }

  lemma {:induction false} GroupThousandsHead(d: string)
    requires |d| >= 1
    ensures |GroupThousands(d)| >= 1 && GroupThousands(d)[0] == d[0]
  {
    if |d| > 3 {
      GroupThousandsHead(d[..|d| - 3]);
    }
  }

  /** The "Unknown" that both formatters show for 0 reads back as 0. */
  lemma UnknownReadsAsZero()
    ensures ParseNumberOrZero("Unknown") == 0.0
  {
    ParseNumberOrZeroUnknown("Unknown");
  }

  /** `parseNumberOrZero` reads what `formatNumber` shows back to the number, "Unknown" to 0 included. */
  lemma FormatNumberRoundTrip(num: int)
    ensures ParseNumberOrZero(FormatNumber(num)) == num as real
  {
    if num == 0 {
      UnknownReadsAsZero();
    } else {
      var digits := NatToDigits(if num < 0 then -num else num);
      FormatNumberUngrouped(num);
      ParseNumberOrZeroIsParseFloat(FormatNumber(num));
      ParseFloatInteger(num < 0, digits);
    }
  }

  /** Deleting the commas from what `formatNumber` shows leaves the sign and the digits. */
  lemma FormatNumberUngrouped(num: int)
    requires num != 0
    ensures RemoveAll(FormatNumber(num), ',') ==
      (if num < 0 then "-" else "") + NatToDigits(if num < 0 then -num else num)
  {
    var digits := NatToDigits(if num < 0 then -num else num);
    var sign := if num < 0 then "-" else "";
    GroupThousandsUngroup(digits);
    RemoveAllAppend(sign, GroupThousands(digits), ',');
    assert FormatNumber(num) == sign + GroupThousands(digits);
    assert RemoveAll(sign, ',') == sign;
  }

  /** `formatDistance`: "Unknown" for 0, otherwise the distance with two decimals (`toFixed(2)`). */
  function FormatDistance(distance: real): (s: string)
    requires Abs(distance) < ExponentialThreshold
    ensures s == "Unknown" <==> distance == 0.0
  {
    if distance == 0.0 then "Unknown"
    else
      var m := PaddedDigits(distance, 2);
      assert ToFixed(distance, 2)[0] == '-' || ToFixed(distance, 2)[0] == m[0];
      ToFixed(distance, 2)
  }

  /** `parseNumberOrZero` reads what `formatDistance` shows back to the distance rounded to two
      decimals. */
  lemma FormatDistanceRoundTrip(distance: real)
    requires Abs(distance) < ExponentialThreshold
    ensures ParseNumberOrZero(FormatDistance(distance)) == RoundToFixed(distance, 2)
  {
    if distance == 0.0 {
      UnknownReadsAsZero();
      RoundToFixedOfZero(2);
    } else {
      var s := ToFixed(distance, 2);
      assert FormatDistance(distance) == s;
      ToFixedHasNoComma(distance, 2);
      RemoveAllAbsent(s, ',');
      ParseNumberOrZeroIsParseFloat(s);
      ToFixedRoundTrip(distance, 2);
    }
  }

  /** A non-zero distance is shown with a '-' exactly when negative, integer digits without a
      leading zero, a '.', and exactly two decimals ("42.70", "5.00"). */
  lemma FormatDistanceShape(distance: real)
    requires Abs(distance) < ExponentialThreshold && distance != 0.0
    ensures var s := FormatDistance(distance); var k := |s| - 3;
      |s| >= 4 && s[k] == '.' && IsDigits(s[k + 1..]) &&
      (s[0] == '-' <==> distance < 0.0) &&
      var a := if distance < 0.0 then s[1..k] else s[..k];
      |a| >= 1 && IsDigits(a) && (|a| > 1 ==> a[0] != '0')
  {
    assert FormatDistance(distance) == ToFixed(distance, 2);
    ToFixedShape(distance, 2);
  }

  /** The distance `formatDistance` shows is within 0.005 of the distance. */
  lemma FormatDistanceError(distance: real)
    ensures Abs(RoundToFixed(distance, 2) - distance) <= 0.005
  {
    RoundToFixedError(distance, 2);
    assert Pow10(2) == 100;
  }

  /* ---------- the utilities' documented examples ---------- */

  /** A URL that is not a planet URL at all yields 0. */
  lemma ExtractPlanetIdOfInvalidUrl()
    ensures ExtractPlanetId("invalid-url") == 0
  {
    var url := "invalid-url";
    assert DropFinalSlash(url) == url;
    assert TrailingDigits(url) == [];
  }

  /** The URL of a person, which ends in digits and a slash but under "/people/", yields 0. */
  lemma ExtractPlanetIdOfPeopleUrl()
    ensures ExtractPlanetId("https://swapi.dev/api/people/1/") == 0
  {
    var url := "https://swapi.dev/api/people/1/";
    var rest := "https://swapi.dev/api/people/";
    assert DropFinalSlash(url) == rest + "1";
    TrailingDigitsOfDigits(rest, "1");
    assert (rest + "1")[..|rest|] == rest;
    assert rest[|rest| - 9..] != "/planets/" by {
      assert rest[|rest| - 9..][1] == rest[|rest| - 8];
    }
  }

  /** A text with no number reads as 0, not NaN. */
  lemma ParseNumberOrZeroOfLetters()
    ensures ParseNumberOrZero("abc") == 0.0
  {
    var s := "abc";
    assert forall i :: 0 <= i < |s| ==> s[i] != ',' && !IsStrWhiteSpace(s[i]);
    RemoveAllAbsent(s, ',');
    assert TrimStart(s) == s;
    assert Unsigned(s) == s;
    ParseNumberOrZeroNoNumber(s);
  }

  /** Thousands are grouped with commas. */
  lemma FormatNumberOfThousand()
    ensures FormatNumber(1000) == "1,000"
  {
    ThousandDigits();
    ThousandGrouped();
  }

  lemma ThousandDigits()
    ensures NatToDigits(1000) == "1000"
  {
    assert NatToDigits(1) == "1";
    assert NatToDigits(10) == "10";
    assert NatToDigits(100) == "100";
  }

  lemma ThousandGrouped()
    ensures GroupThousands("1000") == "1,000"
  {
    assert "1000"[..1] == "1" && "1000"[1..] == "000";
  }
}
