# Counter application: the counter widget and the random-number endpoint

This project models the two pieces of logic of a small Next.js counter
application and proves their properties in Dafny.

- **The `Counter` component** (`CounterComponent`, counter.dfy). A class
  `Counter` holds the displayed `count` as its one mutable field. The model
  assumes that the property `initialCounter` stays fixed while the component
  is mounted, so it is a constant field. The constructor and the three button
  handlers (`Increment`, `Decrement`, `Reset`) are methods. Each states the new
  `count` in terms of the old one. Each button handler also ties itself to the
  pure transition function `Next`. Lemmas over `Run`, the fold of `Next` over a
  sequence of actions, state the algebraic laws: Reset restores the seed after
  any history, two Resets equal one, Increment and Decrement cancel, and
  without a Reset the count moves by increments minus decrements. They also
  show that every integer count, negative ones included, can be reached.
- **The `/api/counter` handler** (`CounterApi`, counter_api.dfy). A pure
  function from the request method, the `maxNumber` query value and the
  random draw to a `Response(status, body)`. A non-GET request gets 405. For
  GET, the bound is 10 when `maxNumber` is absent, empty or an array;
  otherwise it is `parseInt(maxNumber)`. The answer is
  `floor(random * bound) + 1`. The random draw is an exact fraction
  `num/den` in [0, 1), and `floor(r * b)` is `(num * b) / den`. The
  handler keeps no state between requests: being a function, `Handler`'s
  answer depends only on these three inputs.
- **`parseInt`** (`JsParseInt`, parse_int.dfy) follows section 19.2.5 of
  ECMA-262 ("parseInt (string, radix)") with no radix argument. It skips
  leading StrWhiteSpaceChar characters and takes an optional sign. An
  optional `0x`/`0X` prefix selects radix 16. It then reads the longest run
  of radix digits, and no digits gives NaN. A reference printer
  `DecimalString` is its partner in a round-trip lemma.
- **JavaScript values** (`JsValues`, js_values.dfy): numbers as `Int(n)` or
  `NaN`, `undefined` as `Optional`, and the truthiness behind `x || 0` and
  `x && ...`.

A non-numeric `maxNumber` does not fall back to the bound 10. The ternary at
src/pages/api/counter.ts:6-7 passes any non-empty single string to
`parseInt`, so `"abc"` gives a NaN bound and a NaN answer (`BoundExamples`,
`NaNBoundGivesNaN`).

## Model

| member | source | states |
|---|---|---|
| `CounterComponent.SeedNormalisation` | src/components/Counter/Counter.tsx:11 | the seed `initialCounter`-or-0 is 0 exactly when the property is absent, 0 or NaN; otherwise it is the property's value |
| `CounterComponent.Counter.constructor` | src/components/Counter/Counter.tsx:8-11 | the count starts at the normalised seed; the property is kept unchanged |
| `CounterComponent.Counter.Increment` | src/components/Counter/Counter.tsx:16 | count becomes old count + 1 (the `Next` transition); only `count` may change |
| `CounterComponent.Counter.Decrement` | src/components/Counter/Counter.tsx:17 | count becomes old count - 1, with no lower bound; only `count` may change |
| `CounterComponent.Counter.Reset` | src/components/Counter/Counter.tsx:18 | count becomes `initialCounter`-or-0, the same value the constructor starts from |
| `CounterComponent.RunAppend` | src/components/Counter/Counter.tsx:16-18 | running two action sequences in turn equals running their concatenation |
| `CounterComponent.ResetRestoresSeed` | src/components/Counter/Counter.tsx:18 | after any sequence of actions, a Reset leaves the count at the seed |
| `CounterComponent.ResetForgetsHistory` | src/components/Counter/Counter.tsx:11-18 | whatever preceded a Reset, what follows runs as on a freshly mounted counter |
| `CounterComponent.ResetIdempotent` | src/components/Counter/Counter.tsx:18 | two Resets in a row give the same count as one |
| `CounterComponent.IncrementDecrementCancel` | src/components/Counter/Counter.tsx:16-17 | Increment then Decrement, in either order, returns the count to its prior value |
| `CounterComponent.RunWithoutReset` | src/components/Counter/Counter.tsx:16-17 | with no Reset, the final count is the start plus the number of Increments minus the number of Decrements |
| `CounterComponent.EveryCountReachable` | src/components/Counter/Counter.tsx:16-17 | every integer, negative included, is reached from the seed by repeating one button |
| `CounterComponent.RepeatedCount` | src/components/Counter/Counter.tsx:16-17 | n presses of one button hold exactly n of that action |
| `CounterComponent.ScenarioSevenTwiceReset` | src/components/Counter/Counter.tsx:11-18 | seed `parseInt("7")`: the count shows 7, then 9 after two Increments, then 7 after Reset |
| `CounterComponent.ScenarioResetAfterIncrements` | src/components/Counter/Counter.tsx:11-18 | seed 5: 8 after three Increments, 5 after Reset; an absent seed gives -1 after one Decrement |
| `CounterComponent.ScenarioNaNSeed` | src/components/Counter/Counter.tsx:11 | a NaN property (from `parseInt("abc")`) seeds the count with 0 |
| `CounterApi.Handler` | src/pages/api/counter.ts:3-15 | status 200 exactly for GET and 405 for every other method or none; 405 carries `{message: "Method Not Allowed"}`; 200 carries a number |
| `CounterApi.NotGetIgnoresQueryAndDraw` | src/pages/api/counter.ts:12-13 | a non-GET response is the same 405 response for every query value and draw |
| `CounterApi.DefaultBoundCases` | src/pages/api/counter.ts:6-7 | an absent, empty or array `maxNumber` gives the bound exactly 10 |
| `CounterApi.BoundParsesSingleString` | src/pages/api/counter.ts:7 | any non-empty single string gives the bound `parseInt(maxNumber)`, with no fallback |
| `CounterApi.BoundExamples` | src/pages/api/counter.ts:7 | `"20"` and `"20x"` give the bound 20; `"abc"` gives NaN, not 10 |
| `CounterApi.FloorTimes` | src/pages/api/counter.ts:9 | the result is the floor of `r * bound`: k·den <= num·bound < (k+1)·den |
| `CounterApi.DrawInRange` | src/pages/api/counter.ts:9 | for a bound b >= 1, floor(r·b) lies in [0, b) |
| `CounterApi.DrawInNegativeRange` | src/pages/api/counter.ts:9 | for a bound b < 0, floor(r·b) lies in [b, 0] |
| `CounterApi.ResultInRange` | src/pages/api/counter.ts:9-11 | for a bound b >= 1, a GET answers 200 with floor(r·b) + 1, which lies in [1, b] |
| `CounterApi.FloorTimesExact` | src/pages/api/counter.ts:9 | the draw k/b scaled by b and rounded down is k |
| `CounterApi.EveryResultReachable` | src/pages/api/counter.ts:9-11 | every value in [1, b] is the answer to some draw |
| `CounterApi.ZeroBoundGivesOne` | src/pages/api/counter.ts:9 | with bound 0 the answer is 1 for every draw |
| `CounterApi.NegativeBoundRange` | src/pages/api/counter.ts:9 | a negative bound b gives an answer in [b + 1, 1] |
| `CounterApi.NaNBoundGivesNaN` | src/pages/api/counter.ts:7-11 | a NaN bound gives status 200 with a NaN body |
| `CounterApi.HandlerExamples` | src/pages/api/counter.ts:4-13 | the home page's `maxNumber=20` answers 200 with a number in [1, 20]; no `maxNumber` answers in [1, 10]; `maxNumber=abc` answers NaN; POST answers 405 |
| `JsParseInt.TrimStart` | src/pages/api/counter.ts:7 | `parseInt` first drops a prefix made only of white space; what remains is a suffix that does not start with white space |
| `JsParseInt.DigitValue` | src/pages/api/counter.ts:7 | digit values are at most 36, and below 10 exactly for `0`-`9` |
| `JsParseInt.DigitRunLength` | src/pages/api/counter.ts:7 | the digit run ends at the first non-digit of the radix, or at the end of the text |
| `JsParseInt.Scan` | src/pages/api/counter.ts:7 | after the leading white space: the sign is -1 exactly when a `-` comes first; a leading `+` or `-` is dropped; the radix is 16 exactly when what remains starts with `0x` or `0X`, and is 10 otherwise; the digits are sought in what follows the sign and that prefix |
| `JsParseInt.ScanTrimmed` | src/pages/api/counter.ts:7 | the same sign, radix and digits meaning on text with no leading white space |
| `JsParseInt.DecimalDigits` | src/pages/api/counter.ts:7 | the reference printer writes at least one decimal digit, and a leading `0` only for 0 |
| `JsParseInt.DecimalDigitsValue` | src/pages/api/counter.ts:7 | reading the printed digits of n in radix 10 gives n |
| `JsParseInt.DigitRunStopsAtNonDigit` | src/pages/api/counter.ts:7 | a run of digits followed by a non-digit is read exactly up to the non-digit |
| `JsParseInt.TrimStartSkipsWhiteSpace` | src/pages/api/counter.ts:7 | white space before text that does not start with white space is removed exactly |
| `JsParseInt.ParseIntIgnoresLeadingWhiteSpace` | src/pages/api/counter.ts:7 | leading white space never changes the value `parseInt` returns |
| `JsParseInt.ScanDecimalString` | src/pages/api/counter.ts:7 | on printed decimal text the sign is the integer's and the radix is 10 |
| `JsParseInt.ParseIntDecimalString` | src/pages/api/counter.ts:7 | round trip: white space + the decimal text of n + anything that cannot continue the number parses to n |
| `JsParseInt.ParseScannedDecimal` | src/pages/api/counter.ts:7 | the digit run of the printed digits of n, followed by a non-digit or nothing, is read back as n with n's sign |
| `JsParseInt.TrimStartAfterWhiteSpace` | src/pages/api/counter.ts:7 | white space put in front of any text leaves the trimmed text unchanged |
| `JsParseInt.ParseIntNaNIff` | src/pages/api/counter.ts:7 | `parseInt` is NaN exactly when no radix digit follows the white space, sign and prefix |
| `JsParseInt.ParseIntSign` | src/pages/api/counter.ts:7 | a negative result comes only from text that starts with `-` after white space |
| `JsParseInt.DigitsValuePositive` | src/pages/api/counter.ts:7 | a digit string whose first digit is not 0 has a value of at least 1 |
| `JsParseInt.ScanTrimmedMinus` | src/pages/api/counter.ts:7 | `-` followed by a digit 1-9: the sign is -1, the radix 10, and the `-` is dropped |
| `JsParseInt.ScanAfterMinus` | src/pages/api/counter.ts:7 | the same after any leading white space |
| `JsParseInt.ParseIntNegative` | src/pages/api/counter.ts:7 | conversely to `ParseIntSign`: white space, `-` and a digit 1-9 give a negative integer whatever follows |
| `JsParseInt.DecimalStringExamples` | src/pages/api/counter.ts:7 | the printer writes 20 as `"20"` and -7 as `"-7"` |
| `JsParseInt.ParseIntTwenty` | src/pages/api/counter.ts:7 | `parseInt("20")` is 20 |
| `JsParseInt.ParseIntTwentyWithSuffix` | src/pages/api/counter.ts:7 | `parseInt("20x")` is 20: trailing text is ignored |
| `JsParseInt.ParseIntNegativeAfterWhiteSpace` | src/pages/api/counter.ts:7 | `parseInt("  -7")` is -7 |
| `JsParseInt.ParseIntSeven` | src/pages/api/counter.ts:7 | `parseInt("7")` is 7 |
| `JsParseInt.ParseIntNaNExamples` | src/pages/api/counter.ts:7 | `"abc"`, `""` and `"0x"` all give NaN |
| `JsParseInt.ParseIntLettersNaN` | src/pages/api/counter.ts:7 | `parseInt("abc")` is NaN |
| `JsParseInt.ParseIntEmptyNaN` | src/pages/api/counter.ts:7 | `parseInt("")` is NaN |
| `JsParseInt.ParseIntBareHexPrefixNaN` | src/pages/api/counter.ts:7 | `parseInt("0x")` is NaN: a `0x` prefix with no hexadecimal digit after it |
| `JsParseInt.ParseIntHexExample` | src/pages/api/counter.ts:7 | `"0x1A"` is read in radix 16 as 26 |

## Left out

- `Math.random()` is a parameter of the handler. It is modelled as an exact fraction in [0, 1), and the product with the bound is exact. Floating-point rounding is not modelled, and nothing is claimed about uniformity.
- JavaScript numbers are mathematical integers or NaN. The safe-integer range, `-0` (modelled as 0, which is falsy like `-0`) and non-integer numbers are not modelled.
- `res.status(...).json(...)` is modelled as a returned `Response` value. The JSON serialisation of NaN as `null` is not modelled; the body holds NaN.
- `parseInt`: strings are sequences of Unicode scalar values rather than UTF-16 code units. The approximation that the standard allows beyond twenty significant digits is not modelled (digit runs are read exactly). The radix argument is always absent in the source, so only radix 10 and the `0x` switch to 16 are modelled.
- `DecimalString` covers the integers that Number::toString writes without an exponent, that is, below 10^21.
- The `initialCounter` property is assumed fixed while the component is mounted. In React, `useState` keeps the first render's property as the start of the count (src/components/Counter/Counter.tsx:11), while Reset reads the property of the latest render (src/components/Counter/Counter.tsx:18). A property that changes while the component is mounted, and so a Reset to a new value, is not modelled. In this application the only parent, src/pages/counter/[initialCounter].tsx:31-37, derives the property from the route, so it does not change for a mounted component.
- `console.log` in the Counter component, React rendering and `useState` re-render scheduling are not modelled.
- src/pages/index.tsx (the fetch to the endpoint with `maxNumber=20`, which falls back to 0 on any failure) is I/O and rendering and is not part of this model.
- src/pages/counter/[initialCounter].tsx (routing, static paths, the blocking fallback) is not part of this model. Its `parseInt` of the path segment appears only in the client scenarios `ScenarioSevenTwiceReset` and `ScenarioNaNSeed`.
