# Where would you have been born — a Dafny model

"Where would you have been born" is a small web app backed by a Python data
pipeline. The user types a name and rolls a die, and the app picks a country
weighted by its share of the world population. This project models the
sequential logic around that roll and proves properties of it:

- **The seeded weighted sampler** (`SeededSampler`, in `seeded_sampler.dfy`).
  `HashSeed` is a 32-bit rolling hash, written as the source's loop over a
  signed accumulator and proved equal to an unsigned recurrence. That
  recurrence is in turn proved equal to Java's `String.hashCode` polynomial
  modulo 2^32. `GenerateRandomValue` is the value in [0, 1) derived from the
  trimmed, lower-cased name and a timestamp. `PickCountryByWeight` is the
  inverse-CDF pick over cumulative weights.
- **The bounded roll history** (`RollHistoryStore`, in `roll_history.dfy`). A
  class holds the history, newest first and capped at 50 after an addition,
  and a key/value store it writes through to after every change.
- **The roll controller of `App`** (`RollController`, in `roll_controller.dfy`).
  A class covers:
  - the roll guard;
  - the start of a roll;
  - the timed resolution that builds the roll record;
  - the cosmetic ticker;
  - the guarded clearing of the history.

  Browser timers are maps from handle to the values the callback closed over,
  and a timer firing is an event method.
- **The dataset loader** (`PopulationData`, in `population_data.dfy`). A class
  holds the `loading → ready | error` status, the `cancelled` flag and the
  world total.
- **The pipeline** (`MergeGeo`, in `merge_geo.dfy`, and `FetchPopulation`, in
  `fetch_population.dfy`). `MergeGeo` covers the Regional Indicator flag
  emoji, ISO3 resolution, GeoNames parsing, building one country entry, and
  the running cumulative weights. `FetchPopulation` covers the row filter and
  normaliser of `fetch_population.py`.

Shared text handling is in separate modules:

- `JsText` (`js_text.dfy`): UTF-16 code units, JavaScript `trim` and ASCII
  `toLowerCase`.
- `PyText` (`py_text.dfy`): Python `strip`, `split`, `str(n)`, truthiness and
  the insertion-ordered `dict`.
- `Trimming` (`trimming.dfy`): trimming over any whitespace predicate.
- `Common` (`common.dfy`): `Option`, `Result` and decimal digits.

Clocks, `Math.random`, the user's answer to the confirmation dialog, HTTP
responses, JSON encoding and number parsing are parameters of the
operations that use them.

## Model

| member | source | states |
|---|---|---|
| SeededSampler.HashSeed | web/src/lib/random.ts:3-10 | the signed 32-bit loop returns, as unsigned, the hash h = 31·h + c mod 2^32 over the code units; the result is below 2^32 and 0 for the empty string |
| SeededSampler.ToInt32 | web/src/lib/random.ts:7 | `x \| 0` lands in [-2^31, 2^31) and agrees with x modulo 2^32 |
| SeededSampler.ToUint32 | web/src/lib/random.ts:9 | `x >>> 0` lands in [0, 2^32) and agrees with x modulo 2^32 |
| SeededSampler.StepAgrees | web/src/lib/random.ts:6-7 | one signed step `(h << 5) - h + c`, then `\| 0`, matches one unsigned step 31·h + c mod 2^32 |
| SeededSampler.SeedHash | web/src/lib/random.ts:3-10 | the unsigned hash is always below 2^32 |
| SeededSampler.SeedHashAppend | web/src/lib/random.ts:5-8 | appending code unit c gives (31·hash(s) + c) mod 2^32 |
| SeededSampler.SeedHashIsPolynomial | web/src/lib/random.ts:3-10 | the hash equals String.hashCode's polynomial Σ s[i]·31^(n-1-i), reduced mod 2^32 |
| SeededSampler.GenerateRandomValue | web/src/lib/random.ts:12-17 | the value lies in [0, 1) |
| SeededSampler.SeedText | web/src/lib/random.ts:13-14 | the hashed text holds no upper-case ASCII letter, and the timestamp in decimal follows its last pipe |
| SeededSampler.SurroundingWhitespaceIgnored | web/src/lib/random.ts:13 | names that differ only in surrounding whitespace give the same value |
| SeededSampler.LetterCaseIgnored | web/src/lib/random.ts:13 | names equal after lower-casing give the same value |
| SeededSampler.TrimmedNameSameValue | web/src/lib/random.ts:13-14 | the trimmed name stored in a roll gives the same value as the typed name |
| SeededSampler.Clamp | web/src/lib/random.ts:26 | the clamped value lies in [0, 0.999999]; values below 0 become 0, above 0.999999 become 0.999999, and values in between are unchanged |
| SeededSampler.FirstCovering | web/src/lib/random.ts:27 | `find` returns the first index whose cumulative weight (missing read as 0) reaches the value, or none when no index does |
| SeededSampler.PickCountryByWeight | web/src/lib/random.ts:19-29 | the result is none exactly for an empty list, and otherwise a member of the list |
| SeededSampler.PickIsFirstCoveringOrLast | web/src/lib/random.ts:26-28 | the pick is the first entry covering the clamped value, or the last entry when none covers it |
| SeededSampler.PickIsBucket | web/src/lib/random.ts:26-28 | on weights sorted by cumulative value, the pick is the bucket (previous boundary, own boundary] holding the clamped value, and it is the only entry whose bucket holds it |
| SeededSampler.ClampedValuesPickAlike | web/src/lib/random.ts:26 | values below 0 pick like 0, and values above 0.999999 pick like 0.999999 |
| SeededSampler.ThreeBucketExample | web/src/lib/random.test.ts:21-28 | cumulative weights 0.25, 0.75, 1: values 0.2, 0.74, 0.99 pick entries 0, 1, 2 |
| JsText.ToLowerCase | web/src/lib/random.ts:13 | same length, each code unit lower-cased (ASCII letters) |
| JsText.Decimal | web/src/lib/random.ts:14 | `${n}` is, unit by unit, the digit characters of the decimal digits of n (most significant first, no leading zero), which denote n by `DigitsRoundTrip` |
| JsText.DecimalInjective | web/src/App.tsx:77 | different numbers are written differently |
| JsText.LowerTrimCommute | web/src/lib/random.ts:13 | lower-casing and trimming commute |
| Trimming.TrimShape | web/src/App.tsx:55 | trimming never lengthens and leaves no whitespace at either end |
| Trimming.TrimIdempotent | web/src/lib/random.ts:13 | trimming twice is trimming once |
| Trimming.SurroundingWhitespaceTrimmed | web/src/lib/random.ts:13 | whitespace added around a string is removed again |
| Trimming.BlankTrimsToEmpty | web/src/App.tsx:55 | a whitespace-only string trims to empty |
| RollHistoryStore.Prepend | web/src/hooks/useRollHistory.ts:31 | the new entry is first; the length is min(old + 1, 50); the rest are the first min(old, 49) old entries in order |
| RollHistoryStore.LoadFromStorage | web/src/hooks/useRollHistory.ts:7-18 | a missing key, an empty payload or one that fails to parse gives []; a parsed list is taken whole, without truncation |
| RollHistoryStore.AddAllKeepsNewest | web/src/hooks/useRollHistory.ts:30-32 | successive additions keep the newest 50 of everything, newest first |
| RollHistoryStore.FiftyNewestAfterFiftyOne | web/src/hooks/useRollHistory.ts:5 | after 51 additions exactly the 50 most recent remain, newest first |
| RollHistoryStore.LoadAfterWrite | web/src/hooks/useRollHistory.ts:23-28 | what the write-through stored loads back unchanged when the decoder inverts the encoder |
| RollHistoryStore.RollHistory.constructor | web/src/hooks/useRollHistory.ts:20-28 | the key defaults to `where-born-rolls`; the history is the loaded list; the store then holds its serialisation |
| RollHistoryStore.RollHistory.AddEntry | web/src/hooks/useRollHistory.ts:23-32 | the history becomes Prepend(entry, old) and the store holds the whole new history |
| RollHistoryStore.RollHistory.ClearHistory | web/src/hooks/useRollHistory.ts:34 | the history becomes empty and the store holds the empty list |
| PopulationData.TotalPopulation | web/src/hooks/usePopulationData.ts:41-44 | the left fold of populations; 0 for no data |
| PopulationData.FailureMessage | web/src/hooks/usePopulationData.ts:18 | the message is the fixed prefix, the status in decimal and `)`; the status can be read back between the parentheses |
| PopulationData.FailureMessageNamesStatus | web/src/hooks/usePopulationData.ts:18 | two messages are equal iff their statuses are |
| PopulationData.TotalOfConcat | web/src/hooks/usePopulationData.ts:42 | the total of a concatenation is the sum of the totals |
| PopulationData.MissingPopulationCountsZero | web/src/hooks/usePopulationData.ts:42 | a record without population adds nothing |
| PopulationData.TotalBoundsEntries | web/src/hooks/usePopulationData.ts:41-44 | with no negative population, the total is non-negative and bounds every entry |
| PopulationData.DatasetLoader.constructor | web/src/hooks/usePopulationData.ts:9-14 | starts loading, with no error, no data, not cancelled and the fetch in flight |
| PopulationData.DatasetLoader.Cancel | web/src/hooks/usePopulationData.ts:36-38 | sets `cancelled` and changes nothing else |
| PopulationData.DatasetLoader.ResolveWithPayload | web/src/hooks/usePopulationData.ts:22-28 | unless cancelled or already settled, data becomes the payload and status ready; otherwise nothing visible changes |
| PopulationData.DatasetLoader.RejectWithHttpStatus | web/src/hooks/usePopulationData.ts:16-19 | a non-ok status gives the error "Failed to load population data (status)" and status error, unless cancelled |
| PopulationData.DatasetLoader.RejectWith | web/src/hooks/usePopulationData.ts:29-35 | a failure sets the message and status error, unless cancelled or already settled |
| PopulationData.FinalStatesStay | web/src/hooks/usePopulationData.ts:13-39 | once ready or error, no later completion or cancellation changes status, error or data |
| RollController.ShortOrBlankNameCannotRoll | web/src/App.tsx:55 | a name of at most two code units, or of whitespace only, never enables the roll |
| RollController.CanRoll | web/src/App.tsx:55 | the guard implies a raw name longer than two code units, a ready dataset and no roll in progress |
| RollController.CanRollUntrimmedName | web/src/App.tsx:55 | for a name with no surrounding whitespace, the guard holds iff it is longer than two, the status is ready and no roll runs |
| RollController.GraceHopperEnablesRoll | web/src/App.test.tsx:56-68 | the empty name disables the roll and "Grace Hopper" enables it |
| RollController.RecordReproducesPick | web/src/App.tsx:69-89 | the record carries the picked country's code, name and weight; its seed starts with the stored name; that name and the timestamp reproduce the same pick |
| RollController.BuildRollRecord | web/src/App.tsx:76-89 | the stored name is the trimmed typed name; the record carries the timestamp, code, country name, weight, capital, flag, emoji and map link of the pick and its displayed city; the id is the time, a dash and the code; the seed is the stored name, a pipe and the time |
| RollController.StoredNameTrimmed | web/src/App.tsx:78 | the stored name has no surrounding whitespace |
| RollController.CityPrefersSpotlight | web/src/App.tsx:85 | the city is the spotlight city when non-empty, else the capital |
| RollController.City | web/src/App.tsx:85 | the city is the spotlight city or the capital, and non-empty whenever either is |
| RollController.IdDeterminesTimeAndCode | web/src/App.tsx:77 | the id `timestamp-iso3` determines both the timestamp and the code |
| RollController.App.constructor | web/src/App.tsx:13-18 | empty name, no latest roll, not rolling, no sample, no timers |
| RollController.App.TypeName | web/src/App.tsx:129 | the input sets the name and nothing else |
| RollController.App.HandleRoll | web/src/App.tsx:57-67 | nothing changes when the guard fails; otherwise any pending resolution timer is cleared, the roll starts, and one timer holding the current name and data is outstanding |
| RollController.App.StartRoll | web/src/App.tsx:62-66 | the previous timer is cleared, rolling starts with the ticker running when there is data, and exactly one timer holds the current name and data |
| RollController.App.StartTicker | web/src/App.tsx:37-45 | nothing on empty data; otherwise it shows the chosen sample and starts the interval |
| RollController.App.Tick | web/src/App.tsx:42-44 | a live interval shows the sample `Math.random` chose; a cleared one changes nothing |
| RollController.App.StopTicker | web/src/App.tsx:47-53 | clears the interval the ref names, nulls the ref and hides the sample |
| RollController.App.ResolveRoll | web/src/App.tsx:67-94 | a cleared timer never fires; with no pick only the rolling flag drops; with a pick the record becomes the latest roll, is added once, the name is cleared and rolling ends |
| RollController.App.FinishRoll | web/src/App.tsx:69-92 | with no pick only rolling ends; with a pick of the seeded draw, its record becomes the latest roll and the newest history entry, and the name is cleared |
| RollController.App.RecordRoll | web/src/App.tsx:90-93 | latest roll set, one history entry prepended and written through, name cleared, rolling ends |
| RollController.App.HandleResetHistory | web/src/App.tsx:97-104 | nothing on an empty history; otherwise the history is cleared exactly when the user confirms |
| RollController.App.Unmount | web/src/App.tsx:26-35 | the cleanup clears both outstanding timers |
| PyText.BlankIffAllSpace | scripts/merge_geo.py:27 | `not s.strip()` holds iff every character is whitespace |
| PyText.BlankIffStripsToEmpty | scripts/merge_geo.py:27 | a line is blank exactly when `strip()` leaves nothing |
| PyText.StripIdempotent | scripts/fetch_population.py:102-104 | stripping twice is stripping once |
| PyText.UpperIgnoresCase | scripts/merge_geo.py:50 | upper-casing forgets the original case |
| PyText.Split | scripts/merge_geo.py:29 | at least one piece, none containing the separator |
| PyText.JoinSplit | scripts/merge_geo.py:29 | joining the pieces of a split gives the string back |
| PyText.SplitJoin | scripts/merge_geo.py:25 | pieces without the separator are recovered by splitting their join |
| PyText.IntToString | scripts/fetch_population.py:105 | `str(n)` is, character by character, the decimal digits of n, which denote n by `DigitsRoundTrip`; it starts with '0' iff n is 0 |
| PyText.OrElse | scripts/merge_geo.py:78 | `a or b` is a when truthy, else b; truthy iff either is |
| PyText.Lookup | scripts/merge_geo.py:76 | `d.get(k)` is none iff k is not a key, otherwise a stored value of k |
| PyText.Insert | scripts/merge_geo.py:33 | `d[k] = v` keeps the key order and appends a new key last |
| PyText.LookupInsert | scripts/merge_geo.py:33 | after `d[k] = v`, k maps to v and every other key is unaffected |
| PyText.InsertKeepsKeysUnique | scripts/merge_geo.py:33 | insertion keeps keys distinct |
| MergeGeo.ReadPopulation | scripts/merge_geo.py:16 | keeps exactly the rows with a non-empty population, and never more rows |
| MergeGeo.ReadPopulationConcat | scripts/merge_geo.py:16 | the filter works piecewise, so it keeps input order |
| MergeGeo.RegionalIndicator | scripts/merge_geo.py:51 | `chr(127397 + ord(c))` succeeds iff the code point is at most U+10FFFF, and has that value |
| MergeGeo.FlagEmoji | scripts/merge_geo.py:47-51 | none unless exactly two characters; otherwise two characters, each 127397 + the upper-cased code, or ValueError past U+10FFFF |
| MergeGeo.FlagEmojiIgnoresCase | scripts/merge_geo.py:50-51 | the flag does not depend on the case of the code |
| MergeGeo.FlagOfLetters | scripts/merge_geo.py:47-51 | two letters map to the Regional Indicator Symbols, with 'A' at U+1F1E6 |
| MergeGeo.FlagOfUnitedStates | scripts/merge_geo.py:47-51 | "us" gives U+1F1FA U+1F1F8 |
| MergeGeo.FirstNameMatch | scripts/merge_geo.py:59-61 | the first record whose Country equals the location up to case, or none |
| MergeGeo.IsoFromPopulation | scripts/merge_geo.py:54-62 | the upper-cased own iso3 when non-empty; else the ISO3 cell of the first name match in insertion order; else none; the location is passed through |
| MergeGeo.ZipPrefix | scripts/merge_geo.py:30 | the zipped row has exactly the column names among the first n |
| MergeGeo.ZipRow | scripts/merge_geo.py:30 | the row has exactly the names among the first min(len(header), len(values)) columns |
| MergeGeo.ZipPrefixAt | scripts/merge_geo.py:30 | a name takes the cell at its last position within the first n columns |
| MergeGeo.ZipRowAt | scripts/merge_geo.py:30 | a name takes the cell at its last position |
| MergeGeo.ReadGeonames | scripts/merge_geo.py:19-34 | the loop gives the records of the line-by-line reading, keyed uniquely by upper-cased non-empty ISO3 |
| MergeGeo.ParseGeonames | scripts/merge_geo.py:23-33 | after any lines, every record has a non-empty ISO3 and sits under it upper-cased, and keys are distinct |
| MergeGeo.GeoStepWellKeyed | scripts/merge_geo.py:25-33 | one line of the reading loop keeps the records uniquely keyed by their upper-cased ISO3 |
| MergeGeo.InsertKeepsRecords | scripts/merge_geo.py:33 | insertion keeps every other pair and adds the new one |
| MergeGeo.GeonamesNextLine | scripts/merge_geo.py:23-33 | a `#` line sets the header only; a blank line or one without ISO3 changes nothing; a data line overwrites its code's record and leaves every other code alone |
| MergeGeo.ParsePopulation | scripts/merge_geo.py:73 | `int(row["population"])`: KeyError when absent, ValueError when unparsable |
| MergeGeo.BuildCountryEntry | scripts/merge_geo.py:65-106 | errors in Python's order (population, division by a zero total, flag); the weight is population/total, and the new cumulative is the old plus the weight |
| MergeGeo.EntryFieldSources | scripts/merge_geo.py:76-103 | capital from GeoNames, else the first REST capital, else none; spotlight city the first REST capital; emoji from REST else built; region prefers REST |
| MergeGeo.TotalPopulation | scripts/merge_geo.py:123 | the sum succeeds iff every row's population parses |
| MergeGeo.Accumulate | scripts/merge_geo.py:126-134 | a loop that completes yields at most one entry per row (exactly one per kept row, in order, by `AccumulateFollowsKeptRows`) |
| MergeGeo.MergeCountries | scripts/merge_geo.py:123-134 | the loop fails with the sum's error, or yields the accumulation over the rows from cumulative 0 |
| MergeGeo.AccumulateStep | scripts/merge_geo.py:126-134 | a skipped row leaves the rest to the remaining rows; a kept row builds its entry first |
| MergeGeo.AccumulateFollowsKeptRows | scripts/merge_geo.py:126-134 | entries correspond one-to-one, in order, to the rows with a resolvable ISO3 and a REST entry |
| MergeGeo.CumulativeIsRunningSum | scripts/merge_geo.py:124-134 | each cumulative weight is the previous one plus the entry's own weight |
| MergeGeo.CumulativeWithin | scripts/merge_geo.py:123-134 | every running total stays between the start and start + sum/total |
| MergeGeo.EntriesNeedTotal | scripts/merge_geo.py:74 | no entry is built from a zero total |
| MergeGeo.TotalNonNegative | scripts/merge_geo.py:123 | the total of non-negative populations is non-negative |
| MergeGeo.MergedCumulativeWithinUnit | scripts/merge_geo.py:123-134 | with no negative population, cumulative weights never decrease and lie in [0, 1] |
| FetchPopulation.FirstNonBlank | scripts/fetch_population.py:74-78 | the first of the keys whose cell is present and not blank, or none |
| FetchPopulation.FirstNonBlankAt | scripts/fetch_population.py:74-78 | a filled key with no filled key before it is the one found |
| FetchPopulation.PopulationSource | scripts/fetch_population.py:73-89 | the population text is present iff it is non-empty |
| FetchPopulation.NormalizeRow | scripts/fetch_population.py:64-107 | only a row in one of the two formats is kept or raises, and a kept row has the requested year |
| FetchPopulation.RowOutcomeCases | scripts/fetch_population.py:64-99 | rows with neither Time nor Year, a differing Variant or Sex, or another year are skipped; a kept row parsed its year to the target, has population text, and scaled it to a positive number; an escaping failure comes from the year or is a non-ValueError from the scaling |
| FetchPopulation.KeptIsRecordOf | scripts/fetch_population.py:100-107 | a kept row's record is the stripped fields with some population |
| FetchPopulation.SourceColumns | scripts/fetch_population.py:81-91 | the name and code columns are Location and `ISO3 Alpha-code` or else `ISO3` for a UN row; Country Name and Country Code otherwise |
| FetchPopulation.KeptRecordFields | scripts/fetch_population.py:81-107 | the text fields of a kept row's record come from those columns, stripped |
| FetchPopulation.NormalizeOne | scripts/fetch_population.py:65-93 | the guards of one row decide as the row outcome does |
| FetchPopulation.FindPopulation | scripts/fetch_population.py:73-89 | the inner search finds the population text |
| FetchPopulation.SearchColumns | scripts/fetch_population.py:74-78 | the loop over the population columns returns the first cell that is non-blank after stripping, or nothing |
| FetchPopulation.ScalePopulation | scripts/fetch_population.py:94-107 | ValueError and non-positive populations skip the row; another failure escapes; otherwise the record is built |
| FetchPopulation.NormalizePopulation | scripts/fetch_population.py:54-108 | the loop gives the outcome of the row-by-row specification |
| FetchPopulation.CollectStep | scripts/fetch_population.py:64-107 | one more row appends its record, adds nothing, or ends in its error |
| FetchPopulation.ErrorPersists | scripts/fetch_population.py:71 | after an escaping exception, later rows change nothing |
| FetchPopulation.CollectKeepsOrder | scripts/fetch_population.py:61-108 | the output is the records of the kept rows, in input order, and no longer than the input |
| FetchPopulation.CollectFailsIffSomeRowFails | scripts/fetch_population.py:61-108 | the loop fails iff some row's decision fails |
| FetchPopulation.KeptRowWellFormed | scripts/fetch_population.py:100-107 | a record has stripped text fields and a population of digits, without leading zero |
| FetchPopulation.RecordOfWellFormed | scripts/fetch_population.py:100-107 | a record built with a positive population is well formed |
| FetchPopulation.NormalizedRecords | scripts/fetch_population.py:54-108 | the output is a subsequence of the input in order, takes every kept row, and holds only well-formed records |
| FetchPopulation.NormalizeFailsIffSomeRowFails | scripts/fetch_population.py:71-97 | `normalize_population` raises iff some row's year or scaling raises an uncaught exception |
| FetchPopulation.SameCellsSameOutcome | scripts/fetch_population.py:66-107 | a UN row's outcome depends only on the filter cells, the year cell, the population text and the output columns |
| FetchPopulation.YearIgnoredWithTime | scripts/fetch_population.py:66-93 | `Time` takes precedence: the `Year` cell of a UN row is never read |
| FetchPopulation.FirstNonBlankIgnores | scripts/fetch_population.py:74-78 | a cell outside the population keys does not change the one found |

## Left out

- File and network I/O is not modelled. That covers downloading, zip and CSV reading, writing the CSV and JSON outputs, `read_rest_countries`, `fetch_flags.py` and `fetch_geonames.py`. The population rows, the GeoNames lines and the REST map come in as values.
- Command-line parsing and the rest of both `main` functions are not modelled. The accumulation loop of `merge_geo.py` is modelled (`MergeGeo.MergeCountries`).
- JSON encoding and decoding are the functions `parse` and `stringify`, fixed when the history is constructed. Browser storage is a map from key to string.
- RollHistoryStore.LoadFromStorage: `parse` yields either a list of records or a failure. The source casts `JSON.parse(raw)` to `RollRecord[]` without checking it (web/src/hooks/useRollHistory.ts:13), so a stored `null`, number, object or string becomes the history. A later `addEntry` would then throw on the spread, or for a string spread its characters. That case is not modelled, so "a corrupted payload gives []" holds here only for payloads that are not valid JSON.
- JsText.Decimal: `${n}` is modelled for integers below 10^21 only. From 10^21 JavaScript switches to exponent notation. Timestamps in milliseconds and HTTP statuses stay far below that.
- The `typeof window === 'undefined'` branches (server-side rendering) are left out: there is always a window here.
- React rendering, memoisation and effect scheduling are left out. The write-through effect is folded into each history change, and the unmount cleanup is `Unmount`.
- The display formatting of populations, odds and dates is left out.
- `Math.random` in the ticker is not modelled as randomness. The index it picks is a parameter of `StartTicker` and `Tick`.
- `Date.now()` is the `timestamp` parameter of `ResolveRoll`. Timer delays are not modelled: a timer fires when its event method is called.
- `window.confirm` is the `confirmed` parameter.
- Floating point is not modelled: weights, the random value and the cumulative weights are exact reals.
- `MergeGeo.BuildCountryEntry` does not apply `round(…, 8)` to the weight or the cumulative weight. It stores the exact values, so the rounding error between the stored and the carried cumulative is not modelled.
- Number parsing is an oracle:
  - `int(...)` is a partial function `parseInt`.
  - `int(float(...))` of the year and `int(round(float(x) * scale))` are functions returning a value or the Python exception.
  - `OverflowError`, from an infinite float, is one of those exceptions.
- Case mapping covers ASCII letters only, in both JavaScript and Python. Python's `upper()` can lengthen a string (ß becomes SS) and maps non-ASCII letters; neither is modelled. `MergeGeo.FlagEmoji` is therefore stated for the ASCII upper case of its input.
- Trimming uses the exact whitespace sets of ECMAScript `trim` and of Python `str.isspace`. Strings are plain code-unit or character sequences: lone surrogates and normalisation are not modelled.
- CSV cells that `csv.DictReader` fills with `None` (short rows) are treated as absent columns, since a row is a map from column name to text.
- In `build_country_entry`, a REST `flags` or `maps` field that is JSON `null` would raise `AttributeError` in Python. The model reads such a field as missing, because `RestEntry` holds only the fields read, with missing lists empty.
- A REST entry in the map is always taken as present. `read_rest_countries` only stores entries with a non-empty `cca3`, so `not rest_entry` never holds for them.
- The ticker's cosmetic sample is the country at a given index. Which country the ticker shows has no effect on the roll.
