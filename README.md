# Car listing search: filter and seeded shuffle

A Dafny model of the listing-search engine of the car-listings MCP server
(`api/mcp.ts`). A search takes the parsed listings, all of whose columns are
strings, and a set of optional filters. It keeps, in their original order, the
listings that pass every given filter. It then shuffles the survivors with a
Fisher–Yates shuffle. A linear congruential generator with the fixed seed 42
drives the shuffle, so the same search always returns the same order.

Files:

- `wrappers.dfy`: module `Wrappers`, the `Option` type.
- `js_strings.dfy`: module `JsStrings`. These are the JavaScript built-ins the filters use: `trim` (JavaScript
  whitespace and line terminators), `toLowerCase` (ASCII), `includes`, the
  string `||` default, and `Number` on integer text (a blank string is 0, NaN is `None`).
- `seeded_shuffle.dfy`: module `SeededShuffle`. The closure returned by
  `seededRandom` is the class `SeededRandom`, whose field `value` is the captured
  state. `ShuffleWithSeed` copies its input into a fresh array and swaps it in
  place with a descending loop. `Iterate` and `Shuffled` specify what the loop computes.
- `car_search.dfy`: module `CarSearch`. `CarListing` holds the columns the filters read
  (plus the VIN, the trim and a map of the other columns), and `Filters` holds the
  optional arguments. `Matches` is the filter callback. It is the conjunction of the
  eight tests in the source's order, with JavaScript truthiness written out: an
  absent or empty string filter and an absent or zero bound count as not given.
  `FilterListings` is `listings.filter(...)`. `SearchCarListings` filters and then
  shuffles with seed 42.

A blank or whitespace-only mileage or price is a valid 0, because the code reads
`Number(listing.Miles || '0')` (api/mcp.ts:117, 133). A blank year is invalid
(api/mcp.ts:91-92), so a listing with one fails every nonzero year bound. Only a
non-numeric mileage or price is invalid, and an invalid one fails every nonzero bound
on it (`AmountReadingRule`, `BlankFieldsDiffer`).
The body-type enumeration is checked only by the tool's input schema
(api/mcp.ts:212), and `searchCarListings` accepts any type string.

## Model

| member | source | states |
|---|---|---|
| `JsStrings.TrimEmptyIffAllWhitespace` | api/mcp.ts:86 | `s.trim() === ''` holds exactly when every character of `s` is JavaScript whitespace |
| `JsStrings.Trim` | api/mcp.ts:86 | definition, no contract; characterised by `TrimEmptyIffAllWhitespace` |
| `JsStrings.Lower` | api/mcp.ts:86 | definition (ASCII `toLowerCase`); characterised by `LowerIsLowerCase`, `LowerKeepsBlankness` and `TextFilterIgnoresCase` |
| `JsStrings.LowerIsLowerCase` | api/mcp.ts:86 | lower-casing is idempotent, leaves no character in `'A'..'Z'`, and leaves every character outside `'A'..'Z'` unchanged |
| `JsStrings.Contains` | api/mcp.ts:86 | definition, no contract; characterised by `ContainsIffOccurs` |
| `JsStrings.ContainsIffOccurs` | api/mcp.ts:86 | `hay.includes(needle)` holds exactly when `needle` occurs in `hay` at some offset, in both directions |
| `JsStrings.OrDefault` | api/mcp.ts:91 | definition, no contract: `s || d` yields `d` for the empty string and `s` otherwise; used by `YearValue` and `AmountValue` |
| `JsStrings.ParseNum` | api/mcp.ts:91 | `Number` of blank text is 0; sign and whitespace handling are shown by `ParseNumSigned`, digit reading by `ParseNumOfDecimal` |
| `JsStrings.ParseNumSigned` | api/mcp.ts:117 | `Number(" -" + digits + " ")` is the negated value and `Number("+" + digits)` the value: surrounding whitespace is stripped and an explicit sign is honoured |
| `JsStrings.ParseNumOfDecimal` | api/mcp.ts:117 | `Number` reads back the decimal spelling of every natural number |
| `JsStrings.LowerKeepsBlankness` | api/mcp.ts:86 | two strings equal after lower-casing are blank together |
| `SeededShuffle.Step` | api/mcp.ts:36 | each state update lands in `[0, 233280)` |
| `SeededShuffle.StateAfter` | api/mcp.ts:33-38 | the state after `n` draws from the seed; after at least one draw it lies in `[0, 233280)` |
| `SeededShuffle.StateAfterAdd` | api/mcp.ts:33-38 | the state after `m` draws and then `n` more is the state after `m + n` draws from the seed: the draw sequence is a function of the seed |
| `SeededShuffle.Fraction` | api/mcp.ts:37 | the emitted fraction `value / 233280` lies in `[0, 1)` |
| `SeededShuffle.SwapIndex` | api/mcp.ts:48 | `floor(frac * (i + 1))` lies in `[0, i]` for every fraction in `[0, 1)` |
| `SeededShuffle.SwapIndexExact` | api/mcp.ts:48 | in exact arithmetic, `floor(value / 233280 * (i + 1))` equals `value * (i + 1) / 233280` |
| `SeededShuffle.SwapPosition` | api/mcp.ts:48 | the integer swap position for step `i` is at most `i` |
| `SeededShuffle.Swap` | api/mcp.ts:49 | definition, no contract beyond keeping the length: the destructuring swap of positions `i` and `j`; characterised by `SwapPermutes` and `SwapAt` |
| `SeededShuffle.SwapPermutes` | api/mcp.ts:49 | exchanging two positions keeps the multiset of elements |
| `SeededShuffle.SwapAt` | api/mcp.ts:49 | exchanging positions `i` and `j` moves those two elements and no other |
| `SeededShuffle.Iterate` | api/mcp.ts:47-50 | the copy after `t` iterations of the loop keeps the input's length; characterised by `IteratePermutes` and `IterateKeepsDone` |
| `SeededShuffle.IteratePermutes` | api/mcp.ts:47-50 | after any number of loop iterations the copy is a permutation of the input |
| `SeededShuffle.IterateKeepsDone` | api/mcp.ts:47-50 | once the loop has passed a position, later iterations never change it |
| `SeededShuffle.Shuffled` | api/mcp.ts:42-53 | the shuffle returns a permutation of its input (same length, same multiset), and inputs of length 0 or 1 come back unchanged |
| `SeededShuffle.SeedFortyTwoKeepsPairs` | api/mcp.ts:162-163 | seed 42 gives first state 206659 and swap position 1, so `[A, B]` comes back as `[A, B]` |
| `SeededShuffle.SeededRandom.constructor` | api/mcp.ts:33-34 | a new generator holds the seed as its state, with no draws taken |
| `SeededShuffle.SeededRandom.Next` | api/mcp.ts:35-38 | a draw applies the update once, counts one draw, keeps the state equal to the seed's state after that many draws, and returns `value / 233280` in `[0, 1)` |
| `SeededShuffle.ShuffleWithSeed` | api/mcp.ts:42-53 | the loop returns exactly `Shuffled(input, seed)` and takes exactly `max(length - 1, 0)` draws; the input is a value and is left as it was |
| `CarSearch.TextGiven` | api/mcp.ts:86-112 | definition, no contract: a string filter is truthy unless absent or `""`; characterised by `BlankTextFilterIsNoOp` and `TypeFilterRule` |
| `CarSearch.BoundGiven` | api/mcp.ts:94-140 | definition, no contract: a numeric bound is truthy unless absent or `0`; characterised by `ZeroBoundIsUnset` |
| `CarSearch.TextPasses` | api/mcp.ts:86-88 | definition, no contract (the make, model, location and dealership test); characterised by `BlankTextFilterIsNoOp`, `TextFilterRule` and `TextFilterIgnoresCase` |
| `CarSearch.TypePasses` | api/mcp.ts:112-114 | definition, no contract; characterised by `TypeFilterRule` |
| `CarSearch.YearValue` | api/mcp.ts:91-92 | definition, no contract; characterised by `YearReadingRule` |
| `CarSearch.AmountValue` | api/mcp.ts:117 | definition, no contract (the mileage and price reading); characterised by `AmountReadingRule` |
| `CarSearch.RangePasses` | api/mcp.ts:93-104 | definition, no contract (the year, mileage and price test); characterised by `ZeroBoundIsUnset`, `InvalidReadingFailsClosed` and `ValidReadingInclusive` |
| `CarSearch.Matches` | api/mcp.ts:84-159 | definition, no contract: the eight tests in the source's order; characterised by the rule lemmas below and `NoFiltersMatchAll` |
| `CarSearch.FilterListings` | api/mcp.ts:84-159 | a listing is in the result exactly when it is in the input and passes every given filter; the result is no longer than the input |
| `CarSearch.FilterIsSubsequence` | api/mcp.ts:84 | the filter result is an order-preserving subsequence of the input |
| `CarSearch.FilterCount` | api/mcp.ts:84-159 | every matching listing is kept as often as it occurs in the input, and no other listing is kept |
| `CarSearch.FilterIdempotent` | api/mcp.ts:84-159 | filtering the filter result again with the same filters returns it unchanged |
| `CarSearch.NoFiltersMatchAll` | api/mcp.ts:84-159 | with no filter given, every listing passes the callback |
| `CarSearch.NoFiltersKeepAll` | api/mcp.ts:84-159 | with no filter given, the filter returns all listings in order |
| `CarSearch.SearchCarListings` | api/mcp.ts:68-164 | the result is the filter result shuffled with seed 42: a permutation of it, holding exactly the input listings that pass every given filter |
| `CarSearch.BlankTextFilterIsNoOp` | api/mcp.ts:86 | an empty or whitespace-only make, model, location or dealership filter acts as if it were left out |
| `CarSearch.TextFilterRule` | api/mcp.ts:107 | a non-blank substring filter adds exactly one condition to the other filters: the lower-cased field contains the lower-cased, untrimmed filter text |
| `CarSearch.TextFilterIgnoresCase` | api/mcp.ts:149 | two substring filter texts that are equal up to case keep the same listings |
| `CarSearch.TypeFilterRule` | api/mcp.ts:112-114 | a non-empty type filter adds exactly the literal equality of the body type; an empty one changes nothing |
| `CarSearch.ZeroBoundIsUnset` | api/mcp.ts:94-101 | a minimum or maximum of 0 on year, miles or price acts as if it were left out |
| `CarSearch.InvalidReadingFailsClosed` | api/mcp.ts:118-122 | a listing whose year, mileage or price is invalid passes exactly when the other filters pass and neither bound of that range is given |
| `CarSearch.ValidReadingInclusive` | api/mcp.ts:123-130 | a valid reading passes exactly when the other filters pass and it lies within every given bound, both bounds inclusive |
| `CarSearch.YearReadingRule` | api/mcp.ts:91-92 | the year is invalid exactly when it is blank or not a number; otherwise it is that number |
| `CarSearch.AmountReadingRule` | api/mcp.ts:117 | a mileage or price is invalid exactly when it is not a number; a blank one reads as 0, where a blank year is invalid |
| `CarSearch.MinPriceScenario` | api/mcp.ts:132-146 | with a minimum price of 10000, a BMW with a blank price is dropped and a Ford priced at any `n >= 10000` is kept |
| `CarSearch.BlankFieldsDiffer` | api/mcp.ts:91-146 | a blank price passes a maximum price, a blank year fails a maximum year, and the year "0" passes it |
| `CarSearch.NonNumericMilesScenario` | api/mcp.ts:116-130 | a mileage of "n/a" is dropped under a minimum mileage and kept when no mileage bound is given |
| `CarSearch.LowerCaseMakeExample` | api/mcp.ts:86 | the make filter "bmw" keeps a listing whose make is "BMW" |
| `CarSearch.UntrimmedMakeExample` | api/mcp.ts:86 | the make filter " bmw" drops a listing whose make is "BMW", because the filter text is not trimmed |
| `CarSearch.BlankMakeExample` | api/mcp.ts:86 | a make filter of spaces keeps every listing the other filters keep |

## Left out

- `fetchCarListingsCsv` (api/mcp.ts:55-66) fetches the CSV over the network and parses it with the PapaParse library. The model starts from parsed rows.
- The MCP handler, the echo tool, the widget resource, the CORS wrapper and `OPTIONS` (api/mcp.ts:166-265) are protocol and HTTP glue. The `count` the tool reports is the result's length.
- The input schema's body-type enumeration (api/mcp.ts:212) is checked only by the schema library, so the model has no invalid-filter error.
- A missing column (an `undefined` field, on which `toLowerCase` would throw) is not modelled, because every listing field is a string.
- JsStrings.ParseNum: only integer text is modelled (surrounding whitespace, an optional sign, decimal digits). JavaScript's `Number` also accepts fractions with or without a leading or trailing point ("1.5", ".5", "5."), exponents, hexadecimal `0x`, binary `0b` and octal `0o` prefixes, and `Infinity`. The model reads all of these as NaN. Bounds are integers for the same reason.
- JsStrings.Lower: only ASCII letters are lower-cased. Full Unicode `toLowerCase` is not modelled.
- SeededShuffle.SwapIndex: real arithmetic is exact, while the source computes `Math.floor(value / 233280 * (i + 1))` in IEEE doubles. When `value * (i + 1)` is a multiple of 233280 (other than 0) and the rounded floating-point product falls just below that integer, the source's index is one less than the model's. For example, `value = 64512` and `i = 404` give 111 in the source and 112 here. Seed 42 reaches state 64512 on its 210th draw, which is the draw for `i = 404` when 614 listings survive the filter. So the seed-42 order of 614 distinct survivors differs from `Shuffled`, and so do the orders at 1019, 1424, … survivors. For smaller results the model's order is the source's.
- SeededShuffle.ShuffleWithSeed: the seed is a natural number. Negative seeds are left out, because JavaScript's truncating `%` could then make the state and the swap index negative. Seeds large enough for `seed * 9301` to lose floating-point precision are also left out. The only caller passes 42.
- SeededShuffle.ShuffleWithSeed: the input is a sequence value, not a mutable array. "The caller's array is unchanged" holds by construction and is not a stated postcondition.
- src/App.tsx, src/hooks/useOpenAIGlobal.ts and src/types/global.d.ts are the React UI and its type declarations. They are not part of this model.
