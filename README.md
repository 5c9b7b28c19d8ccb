# Planet catalogue: record normalisation and the auto-load budget

The planet catalogue is a browser application over the SWAPI planet endpoint. It fetches pages of raw
planet records and normalises their loosely typed string fields. It derives a relative distance from
the sun by Kepler's third law. It shows the planets in a list that loads further pages on scroll.
This project models the two pieces of that application that hold logic, and proves what they promise.

- **Record normalisation** (`utils/planetUtils.ts`, module `PlanetUtils`). Pure functions over the
  record shapes of `types/planet.ts` (module `PlanetTypes`):
  - `parseNumberOrZero`, `extractPlanetId` and `calculateDistanceFromSun`;
  - `transformPlanet`, which composes the three;
  - the display formatters `formatNumber` and `formatDistance`.
- **JavaScript built-ins** used by those functions (module `JsRuntime`, with digit strings in
  module `Decimal`). Each is modelled on exact numbers, as far as the utilities depend on it:
  - `parseFloat` reads leading white space, a sign, digits with at most one '.', and an exponent;
  - `String.prototype.toLowerCase` and `replace(/,/g, '')`;
  - `Number.prototype.toFixed`, rounding half up on exact values;
  - the en-US `toLocaleString` of an integer, grouping thousands with commas;
  - `parseInt(_, 10)` of a digit string.
- **The infinite-scroll auto-load budget** (module `AutoLoad`). This is the controller of the
  planet list page, as stated by the integration test `tests/pages/index.test.ts:191-249`:
  - class `Controller` holds `autoLoadCount`, `pending`, `planets` and `hasMore`;
  - `LoadMore(isAutoLoad)` refuses an automatic load once `MAX_AUTO_LOADS` (3) automatic loads
    are counted;
  - otherwise it marks a load pending, appends a planet, counts an automatic load and clears the
    pending mark;
  - search and reset zero the count.

  `LoadMore` is proved against the specification function `LoadMoreStep`. `Run` folds
  `LoadMoreStep` over a sequence of calls, and the lemmas about both state what the page
  promises. The methods `FullAutoLoadCycle`, `ManualLoadsDoNotCount`, `SearchAndResetRestoreBudget`
  and `CanAutoLoadAtEachCount` replay the test file's scenarios against the class, at counts 0 to 4.
  `VisibilityAtTheLimit` replays the visibility scenarios on `LoadState` values, since the class
  exposes no way to hold a load pending. The scenarios include the assertions made against the
  earlier, simpler `loadMore` variants at lines 24-28, 44-51 and 67-71; the line 200-218 form agrees
  with each of them.

**Numbers.** A JavaScript number is a Dafny `real`. NaN is `NumberValue.NaN`. `Math.pow(t, 2/3)`
is a parameter `pow` of type `TwoThirdsPower`: any function that is positive and strictly increasing
on positive reals.

`LoadMore` has no `requires`: lines 200-218 check neither a further page nor a pending load; the
only guard is the exhausted budget of an automatic load.

## Model

| member | source | states |
|---|---|---|
| PlanetUtils.CalculateDistanceFromSun | utils/planetUtils.ts:10-16 | the distance is never negative, and it is positive exactly when the orbital period is positive |
| PlanetUtils.DistanceFromSunIncreasing | utils/planetUtils.ts:14-15 | a longer orbital period never gives a shorter distance; for positive periods, a strictly longer one gives a strictly longer distance |
| PlanetUtils.MatchPlanetPathSound | utils/planetUtils.ts:23 | a group captured by /\/planets\/(\d+)\/?$/ is a non-empty run of digits that follows "/planets/" at the end of the URL, with at most one '/' after it |
| PlanetUtils.MatchPlanetPathComplete | utils/planetUtils.ts:23 | every URL that ends in "/planets/", digits and an optional '/' matches, with exactly those digits as the group |
| PlanetUtils.MatchPlanetBody | utils/planetUtils.ts:23 | text ending in "/planets/" followed by digits matches with those digits as the group, with or without a final '/' |
| PlanetUtils.MatchPlanetPathCorrect | utils/planetUtils.ts:23 | the pattern captures `d` if and only if the URL ends in "/planets/" + `d` with an optional '/' |
| PlanetUtils.MatchPlanetPath | utils/planetUtils.ts:23 | the model of `url.match(/\/planets\/(\d+)\/?$/)`; its meaning is stated by `MatchPlanetPathSound`, `MatchPlanetPathComplete` and `MatchPlanetPathCorrect` |
| PlanetUtils.ExtractPlanetId | utils/planetUtils.ts:22-25 | the base-10 value of the captured digits, or 0 without a match; stated by `ExtractPlanetIdOfPlanetUrl` and `ExtractPlanetIdOfOtherUrl` |
| PlanetUtils.ExtractPlanetIdOfPlanetUrl | utils/planetUtils.ts:22-25 | for any prefix and non-empty digit string, the id is the base-10 value of the digits, whether or not a slash ends the URL |
| PlanetUtils.ExtractPlanetIdOfOtherUrl | utils/planetUtils.ts:22-25 | a URL that does not end in a planet path gives id 0 |
| PlanetUtils.ExtractPlanetIdOfInvalidUrl | utils/planetUtils.ts:22-25 | "invalid-url" gives id 0 |
| PlanetUtils.ExtractPlanetIdOfPeopleUrl | utils/planetUtils.ts:22-25 | a person's URL ".../people/1/" gives id 0 |
| PlanetUtils.ParseNumberOrZero | utils/planetUtils.ts:30-38 | the parsed number, never NaN; stated by `ParseNumberOrZeroIsParseFloat`, `ParseNumberOrZeroUnknown`, `ParseNumberOrZeroGroupedDigits` and `ParseNumberOrZeroNoNumber` |
| PlanetUtils.LowerCaseIsUnknown | utils/planetUtils.ts:31 | `value.toLowerCase() === 'unknown'` holds if and only if the text is "unknown" spelled in any mix of cases, KELVIN SIGN allowed for the 'k' |
| PlanetUtils.ParseNumberOrZeroIsParseFloat | utils/planetUtils.ts:30-38 | for every input, the result is `parseFloat` of the comma-free text, with NaN read as 0; the sentinel guard only short-cuts, since `parseFloat` finds no number in "", "unknown" or "n/a" |
| PlanetUtils.ParseNumberOrZeroUnknown | utils/planetUtils.ts:31-32 | every mixed-case spelling of "unknown" (the texts `LowerCaseIsUnknown` characterises) gives 0 |
| PlanetUtils.ParseNumberOrZeroGroupedDigits | utils/planetUtils.ts:34-37 | text made of digits and commas, with at least one digit, gives the value of its digits, commas ignored ("1,000,000" gives 1000000) |
| PlanetUtils.ParseNumberOrZeroNoNumber | utils/planetUtils.ts:36-37 | text in which no number begins after white space gives 0, not NaN |
| PlanetUtils.ParseNumberOrZeroOfLetters | utils/planetUtils.ts:36-37 | "abc" gives 0 |
| PlanetUtils.TransformPlanet | utils/planetUtils.ts:43-62 | name, climate, gravity, terrain and url are copied; the raw population and diameter strings are kept; the orbital period is the parsed raw period; the result is consistent (see `ConsistentPlanetFacts`) |
| PlanetUtils.ConsistentPlanetFacts | utils/planetUtils.ts:44-54 | in a transformed planet the distance is non-negative and positive exactly when the orbital period is; an "unknown" population or diameter is 0 |
| PlanetUtils.TransformPlanetIgnoresOtherFields | utils/planetUtils.ts:43-62 | rotation period, surface water, residents, films, created and edited do not affect the result |
| PlanetUtils.TransformUnknownPlanet | utils/planetUtils.ts:44-46 | a record whose population, diameter and orbital period are "unknown" gets 0 for all three and for the distance |
| PlanetUtils.FormatNumber | utils/planetUtils.ts:67-70 | the text is "Unknown" exactly when the number is 0 |
| PlanetUtils.FormatNumberRoundTrip | utils/planetUtils.ts:67-70 | `parseNumberOrZero` reads the formatted text back to the number, including "Unknown" as 0 |
| PlanetUtils.FormatNumberOfThousand | utils/planetUtils.ts:69 | 1000 is shown as "1,000" |
| PlanetUtils.UnknownReadsAsZero | utils/planetUtils.ts:68 | the "Unknown" both formatters show for 0 parses back to 0 |
| PlanetUtils.FormatDistance | utils/planetUtils.ts:75-78 | the text is "Unknown" exactly when the distance is 0; otherwise it is `toFixed(2)`, whose text `FormatDistanceShape` and whose value `FormatDistanceRoundTrip` state |
| PlanetUtils.FormatDistanceShape | utils/planetUtils.ts:73-77 | a non-zero distance is shown as an optional '-' (exactly when negative), integer digits without a leading zero, a '.', and exactly two decimals |
| PlanetUtils.FormatDistanceRoundTrip | utils/planetUtils.ts:75-78 | `parseNumberOrZero` reads the formatted text back to the distance rounded to two decimals |
| PlanetUtils.FormatDistanceError | utils/planetUtils.ts:77 | the distance rounded to two decimals is within 0.005 of the distance |
| JsRuntime.RemoveAll | utils/planetUtils.ts:35 | no comma is left, and the text gets no longer |
| JsRuntime.RemoveAllKeepsOthers | utils/planetUtils.ts:35 | every character other than the comma is kept as often as it occurs, so the text loses exactly one character per comma |
| JsRuntime.RemoveAllAppend | utils/planetUtils.ts:35 | deleting commas distributes over concatenation |
| JsRuntime.RemoveAllAbsent | utils/planetUtils.ts:35 | text without commas is left as it is |
| JsRuntime.TrimStart | utils/planetUtils.ts:36 | the trimmed text is a suffix that starts with no white space, and everything removed before it is white space |
| JsRuntime.ReadUnsignedNumeral | utils/planetUtils.ts:36 | reading an unsigned decimal literal fails exactly when the text starts with neither a digit nor '.' and a digit |
| JsRuntime.ParseFloat | utils/planetUtils.ts:36 | `parseFloat` gives NaN exactly when no numeral begins the text after its leading white space |
| JsRuntime.ParseFloatDecimalText | utils/planetUtils.ts:36 | `parseFloat` reads a signed plain decimal numeral back to its value |
| JsRuntime.ParseFloatInteger | utils/planetUtils.ts:36 | `parseFloat` reads an optionally signed digit string back to its integer value |
| JsRuntime.ParseFloatSign | utils/planetUtils.ts:36 | a '+' before the text changes nothing and a '-' negates the value, when neither white space nor another sign follows the sign |
| JsRuntime.ParseFloatPointFirst | utils/planetUtils.ts:36 | a numeral that starts with its point, such as ".5", reads as its fraction digits over 10 to their count |
| JsRuntime.ParseFloatExponent | utils/planetUtils.ts:36 | digits followed by 'e' and exponent digits read as the digits' value scaled by 10 to the exponent |
| JsRuntime.ToFixed | utils/planetUtils.ts:77 | `toFixed` below 10^21; its text is stated by `ToFixedShape` and `ToFixedHasNoComma`, its value by `ToFixedRoundTrip` and `RoundToFixedError`; the two together fix the text for `f` >= 1 |
| JsRuntime.ToFixedShape | utils/planetUtils.ts:77 | for `f` >= 1: a '-' exactly when the value is negative, integer digits without a leading zero (a lone "0" excepted), a '.', and exactly `f` digits |
| JsRuntime.RoundHalfUp | utils/planetUtils.ts:77 | the rounded integer is within one half of the value, ties going up |
| JsRuntime.ToFixedHasNoComma | utils/planetUtils.ts:77 | `toFixed` writes no comma |
| JsRuntime.ToFixedRoundTrip | utils/planetUtils.ts:77 | `parseFloat` reads the text from `toFixed(f)` back to the value rounded to `f` decimals |
| JsRuntime.RoundToFixedError | utils/planetUtils.ts:77 | rounding to `f` decimals moves a value by at most half of 10^-f |
| JsRuntime.ToLocaleString | utils/planetUtils.ts:69 | en-US `toLocaleString` of an integer: its sign and its grouped digits; the grouping is stated by `GroupThousandsLength`, `GroupThousandsCommas` and `GroupThousandsUngroup` |
| JsRuntime.GroupThousandsLength | utils/planetUtils.ts:69 | grouping adds one comma for each full group of three digits after the first digit |
| JsRuntime.GroupThousandsCommas | utils/planetUtils.ts:69 | a comma stands exactly at every fourth place counted from the end |
| JsRuntime.GroupThousandsUngroup | utils/planetUtils.ts:69 | deleting the commas from the grouped text gives back the digits |
| Decimal.NatToDigits | utils/planetUtils.ts:69 | the decimal digits of a natural number denote it and have no leading zero: a text longer than one digit never starts with '0', so zero is "0" |
| Decimal.TrailingDigits | utils/planetUtils.ts:23 | the longest run of digits at the end of the text |
| Decimal.TrailingDigitsOfDigits | utils/planetUtils.ts:23 | digits that follow a non-digit are exactly the trailing run |
| Decimal.DigitsValueAppend | utils/planetUtils.ts:24 | the value of two digit strings in a row is the first shifted by the second's length plus the second |
| AutoLoad.CanAutoLoad | tests/pages/index.test.ts:198 | fewer than `MAX_AUTO_LOADS` automatic loads are counted; used by `AutoLoadStep`, `RestoreBudgetEnablesAutoLoad` and `VisibilityExclusive` |
| AutoLoad.ShouldShowScrollTrigger | tests/pages/index.test.ts:145 | more pages exist and `canAutoLoad` holds; stated by `VisibilityExclusive` |
| AutoLoad.ShouldShowLoadButton | tests/pages/index.test.ts:164 | more pages exist, `canAutoLoad` fails and no load is pending; stated by `VisibilityExclusive` |
| AutoLoad.LoadMoreStep | tests/pages/index.test.ts:200-218 | the state after one completed `loadMore`; stated by `AutoLoadStep`, `ManualLoadStep` and `LoadMoreStepInvariants` |
| AutoLoad.Run | tests/pages/index.test.ts:200-248 | the state after a sequence of completed loads; stated by `RunCounts`, `RunStaysWithinBudget`, `RunInvariants` and `ManualRunKeepsCount` |
| AutoLoad.Controller.constructor | tests/pages/index.test.ts:192-196 | a new controller has the given count, no load pending, no planets and the given `hasMore` |
| AutoLoad.Controller.LoadMore | tests/pages/index.test.ts:200-218 | the new state is `LoadMoreStep` of the old one; `isAutoLoad` defaults to false as in the source |
| AutoLoad.Controller.HandleSearch | tests/pages/index.test.ts:80-90 | the count becomes 0 and nothing else changes |
| AutoLoad.Controller.HandleReset | tests/pages/index.test.ts:92-102 | the count becomes 0 and nothing else changes |
| AutoLoad.AutoLoadStep | tests/pages/index.test.ts:200-218 | with budget left, an automatic load appends the planet with the next id and raises the count by one, ending with no load pending; with the budget used up, it changes nothing |
| AutoLoad.ManualLoadStep | tests/pages/index.test.ts:211-217 | a manual load appends the planet with the next id whatever the count, never changes the count, and ends with no load pending |
| AutoLoad.LoadMoreStepInvariants | tests/pages/index.test.ts:200-218 | a load keeps the earlier planets and consecutive ids, keeps a count within the budget within it, leaves no load pending when none was pending before, and keeps `hasMore` |
| AutoLoad.RunCounts | tests/pages/index.test.ts:200-248 | after any sequence of loads, the count is min(3, start + automatic calls), or is unchanged if the budget was already used up; the list grows by the manual calls plus the automatic calls that counted |
| AutoLoad.RunStaysWithinBudget | tests/pages/index.test.ts:201-203 | from a count of at most 3, no sequence of loads takes the count above 3 |
| AutoLoad.RunInvariants | tests/pages/index.test.ts:205-217 | a sequence of loads only appends, keeps ids consecutive, and leaves no load pending when none was pending before |
| AutoLoad.ManualRunKeepsCount | tests/pages/index.test.ts:213-215 | any number of manual loads leaves the count unchanged and adds one planet each |
| AutoLoad.RestoreBudgetEnablesAutoLoad | tests/pages/index.test.ts:251-266 | after search or reset, automatic loading is allowed again, and the next three automatic loads all count and append |
| AutoLoad.VisibilityExclusive | tests/pages/index.test.ts:141-187 | the scroll trigger and the load button never show together; with more pages and no load pending exactly one shows; with no more pages neither shows |

## Left out

- ParseFloat: the text "Infinity" (which JavaScript reads as Infinity) gives NaN here. Binary rounding and overflow to Infinity are not modelled, because values are exact reals.
- CalculateDistanceFromSun: the exact value of `Math.pow(t, 2/3)` is not modelled. It is the parameter `pow`, constrained only to be positive and strictly increasing for positive arguments, so the tested value 45.21 for period 304 is not stated.
- CalculateDistanceFromSun: the `!orbitalPeriod` guard also catches NaN. The model's period is a real and cannot be NaN, and `parseNumberOrZero` never yields NaN.
- FormatNumber: takes an integer. `toLocaleString` of a fractional number and locales other than en-US are not modelled.
- FormatDistance: requires the distance to be below 10^21 in magnitude. Above that `toFixed` switches to exponential notation, which is not modelled.
- ToLowerCase: maps ASCII capitals and the KELVIN SIGN (U+212A, lower-cased to 'k'). Other Unicode mappings are left out. These are exactly the characters whose lower case can take part in spelling "unknown".
- ExtractPlanetId: `parseInt` of a digit string longer than about 15 digits loses precision in JavaScript. The model returns the exact value.
- `composables/useSwapi.ts` is not part of this model. It is HTTP plumbing: `$fetch`, URL building with `encodeURIComponent`, error logging, and `results.map(transformPlanet)`.
- `server/middleware/headers.ts`, `plugins/bfcache.client.ts` and `nuxt.config.ts` are not part of this model. They are response headers, browser cache lifecycle hooks and build configuration.
- `SortField`, `SortOrder` and `SearchFilters` in `types/planet.ts` are not modelled. No modelled code uses them.
- Controller.LoadMore: the simulated API delay (`await` with `setTimeout`) and Vue reactivity are left out. Each call is one atomic step, so overlapping calls are not modelled. `pending` is true only between the first and last assignments of one call, which a completed call's state cannot show.
- Controller.LoadMore: appends the test's mock planet `{ id: planets.length + 1, name: 'Planet' }`, not a fetched page. The real page component, which would append a page of `transformPlanet` results, is not part of this model.
- Controller.HandleSearch / Controller.HandleReset: only zero the counter, as the code does. Clearing the results and issuing a new first-page fetch are not modelled.
