# ta-playground position sampler, modelled in Dafny

The model covers the position sampler of ta-playground. The sampler draws
random `(open day, close day)` pairs over a table of daily closing prices and
technical-indicator values. For each pair it builds a labelled "position"
record: profit, profit percentage, the indicator values on both days, and
the class `green` or `red`.

Modules:

- `Utils` (`utils.dfy`): `generateRandomRange` and `percentage` from
  `utils.py`. Each `random.randrange(start, stop)` becomes
  `start + e % (stop - start)`, where the caller supplies the draw `e`. An
  empty range gives `None`, which stands for Python's `ValueError`.
- `PositionKeys` (`position_keys.dfy`): the dictionary key
  `f'{openDay}-{closeDay}'` as a string of decimal digits. It is proved to
  identify the pair.
- `Positions` (`positions.dfy`): `createPosition`, a pure record build from
  two table rows.
- `Sampling` (`sampling.dfy`): the key stream that a sequence of draws
  produces, and that stream with repeats removed.
- `Generator` (`generator.dfy`): `generatePositions`, an imperative method.
  It keeps the dictionary as a `map<string, Position>` and its `values()` in
  insertion order as a `seq<Position>`. It runs the outer `for` loop and the
  inner retry loop (`RetryUntilNew`, whose dictionary check and insert is
  `StoreIfNew`). The methods are proved against the recursive specification
  `SamplerAfter`, the state after a number of draws. Lemmas then show that
  this state is the positions of the first distinct keys drawn.

The retry loop in the source has no bound. The model consumes a finite
sequence of draws instead. When that sequence ends before `quantity` new keys
have come up, the result is `Err(OutOfDraws)`, which stands for a run that
would still be drawing. When `quantity` exceeds the number of keys that
`generateRandomRange` can produce, every draw sequence ends in an error,
because the source can never finish.

`createPosition` copies 17 indicator columns (`main.py:35-68`, including
`MACD_DEFAULT` and `MACD_200_50_20`), so 34 `OPEN_`/`CLOSE_` fields;
`Indicators` has 17 fields.

## Model

| member | source | states |
|---|---|---|
| Utils.Randrange | utils.py:5 | a draw exists exactly when the range is non-empty, and then lies in `[start, stop)` |
| Utils.DurationCap | utils.py:6-7 | the cap is `min(durationCap, max - open)`: at most both bounds, equal to one of them, and at least 2 when `open <= max - 2` and `durationCap >= 2` |
| Utils.GenerateRandomRange | utils.py:4-10 | a key comes out exactly when `max >= 2` and `durationCap >= 2`; then `open <= max - 2`, `1 <= duration < durationCap`, `duration <= max - open - 1`, `close == open + duration` and `close <= max - 1` |
| Utils.EveryValidKeyIsDrawn | utils.py:5-9 | every key meeting those bounds is produced by some pair of draws, so the bounds are exact and not merely sound |
| Utils.KeySpace | utils.py:5-9 | membership is exactly `ValidKey`; with the `ensures` of `Utils.GenerateRandomRange` (every output is valid) and `Utils.EveryValidKeyIsDrawn` (every valid key is an output), this is the set of keys `generateRandomRange` can return |
| Utils.Percentage | utils.py:13-14 | for a non-zero `whole`, `r * whole == 100 * part` |
| PositionKeys.Decimal | main.py:100 | definition of `str(n)` for a natural number: a non-empty string, whose digits and value are given by `PositionKeys.DecimalDigits` and `PositionKeys.DecimalRoundTrip` |
| PositionKeys.KeyString | main.py:100-104 | definition of the key `f'{openDay}-{closeDay}'`: the two decimal strings with a `-` at the position right after the open day's digits; `PositionKeys.KeyStringInjective` shows it identifies the pair |
| PositionKeys.DecimalRoundTrip | main.py:100 | reading back the digits of `str(n)` gives `n` |
| PositionKeys.DecimalDigits | main.py:100 | `str(n)` consists of decimal digits only |
| PositionKeys.KeyStringInjective | main.py:100-104 | two pairs with the same key `f'{open}-{close}'` are the same pair |
| Positions.ProfitPercent | main.py:32 | PROFIT_PERCENT is finite exactly when the open price is non-zero, and then it times the open price is 100 times the profit |
| Positions.CreatePosition | main.py:24-70 | the days and duration are the arguments; OPEN_PRICE and CLOSE_PRICE are the rows' CLOSE; PROFIT is their difference; PROFIT_PERCENT is as above; CLASS is green exactly when the open close is at most the close close; every OPEN_ and CLOSE_ indicator equals that row's column |
| Positions.LabelIsProfitSign | main.py:69 | green exactly when the profit is at least 0, red exactly when it is negative, so a flat move is green |
| Sampling.DrawnKeys | utils.py:4-10 | the keys drawn are all valid, one per draw when both ranges are non-empty, and none otherwise |
| Sampling.Dedup | main.py:100-104 | the result has no repeats and holds exactly the elements of the input |
| Sampling.DedupStep | main.py:100-104 | proof step: `Dedup` unfolded at `s + [x]`, appending `x` when new and dropping it when already there |
| Sampling.DrawnKeysStep | main.py:96-98 | proof step: `DrawnKeys` unfolded at one more successful draw, which appends its key |
| Sampling.DrawnKeysPrefix | main.py:96-98 | more draws only extend the drawn keys |
| Sampling.DedupPrefix | main.py:92-104 | removing repeats from a longer stream extends the result for its prefix |
| Sampling.DistinctBound | main.py:92-104 | a repeat-free sequence drawn from a finite set is no longer than the set |
| Sampling.AcceptedWithinKeySpace | main.py:92-104 | the distinct keys drawn are never more than the keys `generateRandomRange` can produce |
| Generator.Build | main.py:107 | definition of `positions.values()` for a sequence of accepted keys: one position per key, in order, the `j`-th carrying the `j`-th key's days and duration |
| Generator.Index | main.py:104 | definition of the dictionary after inserting the accepted keys one after another: never more entries than keys; exact contents in `Generator.IndexHasKey`, `Generator.IndexKeepsEntries`, `Generator.IndexSize` |
| Generator.Retry | main.py:97-105 | definition of one pass of the retry loop: a drawn key whose string is already in the dictionary leaves the state unchanged; a new one is stored and its position appended to the values; growth is stated by `Generator.SamplerOnlyGrows` |
| Generator.SamplerAfter | main.py:92-105 | definition of the loop state after the first `used` draws, one `Retry` per draw from the empty dictionary; `Generator.SamplerAfterAccepts` shows it is the positions of the distinct keys drawn, in order |
| Generator.IndexHasKey | main.py:100-102 | the dictionary lookup finds a key exactly when that key was accepted before |
| Generator.IndexKeepsEntries | main.py:100-104 | when no key is accepted twice, each accepted key still maps to its own position at the end, so nothing is overwritten |
| Generator.IndexSize | main.py:100-104 | the dictionary has exactly one entry per accepted key |
| Generator.SamplerWithinKeySpace | main.py:92-104 | after any number of draws the dictionary holds at most as many entries as there are keys `generateRandomRange` can return |
| Generator.BuildValidKeys | main.py:104-107 | the positions of distinct valid keys never share an (open day, close day) pair and keep the key bounds |
| Generator.RisingSeriesAllGreen | main.py:31-69 | on a strictly rising price series every position is green with a positive profit |
| Generator.SamplerAfterAccepts | main.py:92-107 | after any number of draws, the values are the positions of the drawn keys, repeats removed, in first-drawn order, and the dictionary stores each under its own key |
| Generator.SamplerOnlyGrows | main.py:100-104 | the dictionary only grows: later states keep every earlier entry unchanged and extend the earlier values |
| Generator.Append | main.py:104 | proof step: `Build` and `Index` unfolded at `keys + [k]`, appending the position and storing it under its key |
| Generator.AcceptsStep | main.py:96-104 | one pass of the retry loop keeps the dictionary and values in step with the accepted keys |
| Generator.AcceptedPrefix | main.py:92-105 | once some draws have produced `quantity` distinct keys, those are the first `quantity` distinct keys of the whole stream |
| Generator.SamplerFilled | main.py:92-107 | when the loop holds `quantity` positions, they are the first `quantity` distinct keys' positions, pairwise distinct and in range, and `quantity` is at most the number of valid keys |
| Generator.SamplerExhausted | main.py:92-105 | when the draws run out first, the stream holds fewer than `quantity` distinct keys |
| Generator.GeneratePositions | main.py:73-107 | raises exactly when `totalIndicators <= 1`, before any draw; a `ValueError` exactly when `maxDuration <= 1` and a draw is attempted; otherwise succeeds exactly when the draws hold `quantity` distinct keys, returning exactly `max(quantity, 0)` positions (the first distinct keys drawn, in order), with no shared pair and all in range; fails whenever `quantity` exceeds the number of valid keys |
| Generator.RetryUntilNew | main.py:93-105 | the inner loop stops right after inserting its first new entry (the state one draw earlier still has the old size), or on a `ValueError` for an empty first range, or when the draws run out; its state is always that after the draws consumed |
| Generator.StoreIfNew | main.py:100-105 | a key already present leaves the dictionary and values unchanged; a new key is stored with its position and appended to the values |

## Left out

- `indicators.py` is not part of this model. Its indicator maths (RSI, SMA, EMA, Bollinger bands, MACD) calls an external library and works in floating point. Indicator cells are copied through as opaque values (`Cell`).
- `getIndicators` (file reading and DataFrame column assignment) and `main()` (configuration constants and CSV writing) are I/O and are not modelled.
- Python's `random` generator is not modelled. Draws are caller-supplied naturals reduced into each `randrange` range. Uniformity is therefore not stated.
- Prices are `real`. IEEE rounding is not modelled, and neither are NaN comparison rules for prices. A zero open price makes PROFIT_PERCENT `NonFinite`, standing for numpy's infinity or NaN; the code does not guard against it.
- The 34 `OPEN_*`/`CLOSE_*` columns are held as two `Indicators` records (`atOpen`, `atClose`), not as 34 flat fields. Each record field has the same column name it has in a table row.
- Generator.GeneratePositions: requires `totalIndicators` to be at most the number of table rows. With a larger value, `iloc` would raise `IndexError` for a drawn day past the table; `main()` always passes the table length.
- Generator.GeneratePositions: an unbounded run of the retry loop is modelled as `OutOfDraws` once the supplied draws end. When `maxDuration <= 1` and no draws are supplied at all, the result is `OutOfDraws`, whereas the source raises `ValueError` on its first call.
- Only the values of the dictionary are returned, as in the source (`positions.values()`). The dictionary itself is described by `Generator.SamplerAfterAccepts` and the `Index` lemmas.
