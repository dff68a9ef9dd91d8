# Lunch Lotto popup: list handling

Lunch Lotto is a browser-extension popup. It searches for restaurants near the
user and turns the results into candidates. It drops candidates whose name was
already seen and shows up to eight of them, in random order, on a wheel. Each
selection is recorded in a history capped at ten entries. This project models
the list handling of `popup.js` in Dafny and proves what it guarantees:

- `records.dfy` (module `Records`): the records passed around. These are the
  raw place, the restaurant candidate, the wheel option and the history entry.
- `history.dfy` (module `History`): `addToHistory`. It appends the new entry and
  evicts the oldest one once, if the list then holds more than ten. Storage is a
  value passed in (`None` when nothing is stored) and the list to save is
  returned.
- `candidates.dfy` (module `Candidates`): building candidates from places. This
  covers the price label, which is `"$"` repeated `price_level` times or
  `"Unknown"`, and the maps link, which is a fixed prefix plus the place id.
  It also covers the left-to-right de-duplication with a `seen` set and the
  name-keyed index built afterwards.
- `wheel.dfy` (module `Wheel`): `updateWheel` and the result handling of
  `fetchRestaurants`. The module-level `options` and `restaurantDetails` are
  fields of a `Popup` class. The random shuffle is a permutation of the
  candidate indices, given as a parameter.
- `query.dfy` (module `Query`): the `minprice`/`maxprice` query values. They are
  the elements at indices 0 and 2 of the stored price string, taken as they are.
  A JavaScript string is a sequence of UTF-16 code units, and indexing counts
  code units. The model therefore indexes the UTF-16 encoding of the setting.
  An index past the end gives the text `undefined`, as JavaScript's template
  literal does. For text in the Basic Multilingual Plane, code unit `i` is
  character `i`. A character outside it takes two code units, which shifts
  the indices.

One might expect `"1,2,4"` to query prices 1 to 4. The code takes index 2,
which is `'2'`, and the model follows the code (`Query.MaxPriceIsSecondLevel`,
`Query.ThreeLevelExample`).

## Model

| member | source | states |
|---|---|---|
| `History.NewEntry` | popup.js:35-39 | the entry carries the restaurant's name and maps link and the given timestamp |
| `History.Recorded` | popup.js:35-44 | the new entry is last; below ten prior entries nothing is removed; from ten prior entries on, exactly the oldest is dropped and the rest keep their order; a history within the cap stays within it, and one already over the cap keeps its length |
| `History.AddToHistory` | popup.js:32-48 | a missing stored history counts as empty; the saved list is the stored one with the entry recorded; its last entry has the restaurant's name and maps link |
| `History.RecordAllKeepsNewest` | popup.js:41-44 | from a history of at most ten, any run of recordings that do not overlap leaves exactly the newest ten entries of everything recorded, in insertion order |
| `History.OverlappingRecordingsLoseEntry` | popup.js:32-46 | below nine entries, two recordings one after the other keep both selections; when both recordings read the same stored history, the later write does not contain the first selection |
| `Candidates.Dollars` | popup.js:77 | the string has `n` characters, all `'$'` |
| `Candidates.PriceLabel` | popup.js:77 | the label is "Unknown" exactly when the price level is absent or zero; otherwise it is as many dollar signs as the level |
| `Candidates.MapsLink` | popup.js:81 | the link starts with the maps place prefix and is as long as the prefix plus the place id |
| `Candidates.LinkRoundTrip` | popup.js:81 | the place id read back from a maps link is the one it was built from |
| `Candidates.PlaceIdRoundTrip` | popup.js:81 | every link with the maps prefix is the maps link of the place id it names |
| `Candidates.BuildCandidates` | popup.js:74-82 | one candidate per place, in order, with the place's name, coordinates and id, the shared distance text, the price label of its level, and a link that leads back to its place id |
| `Candidates.FirstIndexOf` | popup.js:87-91 | the index found holds the name and no earlier candidate has it; it is past the end exactly when the name does not occur |
| `Candidates.Deduplicate` | popup.js:85-92 | the scan with the growing `seen` set returns exactly the first-occurrence filter of the input |
| `Candidates.DeduplicatedNames` | popup.js:85-92 | every input name survives, and no other name appears |
| `Candidates.DeduplicatedDistinct` | popup.js:87-91 | the surviving names are pairwise distinct |
| `Candidates.DeduplicatedSubsequence` | popup.js:86 | the survivors are an order-preserving subsequence of the input |
| `Candidates.DeduplicatedKeepsFirst` | popup.js:87-91 | every survivor is the first input candidate with its name |
| `Candidates.DeduplicatedDistinctUnchanged` | popup.js:85-92 | a list whose names are already distinct is returned unchanged |
| `Candidates.IndexByName` | popup.js:97-100 | the index's keys are exactly the candidates' names, and each name maps to an input candidate of that name |
| `Candidates.IndexLastWins` | popup.js:97-100 | a candidate that no later candidate shares its name with is the value of its name: the last candidate of each name wins |
| `Candidates.IndexOfDistinct` | popup.js:97-100 | with distinct names, each name maps to its own candidate |
| `Candidates.IndexAfterDeduplication` | popup.js:84-100 | after de-duplication, each input name maps to the first input candidate with that name |
| `Wheel.PermutationCovers` | popup.js:129 | a shuffle of `n` indices contains every index below `n` (by the counting fact `Wheel.Collision`: more than `m` values below `m` repeat one) |
| `Wheel.Sample` | popup.js:129-138 | there are min(8, n) options; option k is the name and link of the k-th shuffled candidate; every option comes from an input candidate; distinct input names give distinct option names |
| `Wheel.SampleShowsAll` | popup.js:129-132 | with at most eight candidates, every candidate appears on the wheel |
| `Wheel.Popup.UpdateWheel` | popup.js:125-147 | the previous options are discarded; the options become the sample of the shuffled candidates; the selected details are the same list |
| `Wheel.Popup.ShowResults` | popup.js:65-109 | missing or empty results change nothing; otherwise the wheel holds between one and eight options sampled from the de-duplicated candidates, and the details are that sample |
| `Query.UnitOrUndefined` | popup.js:60 | an index inside the string gives that one code unit; an index past the end gives the code units of "undefined" |
| `Query.MinPrice` | popup.js:60 | `minprice` is code unit 0 of the price setting, or "undefined" for an empty setting |
| `Query.MaxPrice` | popup.js:60 | `maxprice` is code unit 2 of the price setting, or "undefined" when it has fewer than three |
| `Query.BmpMinPrice` | popup.js:60 | for a non-empty setting in the Basic Multilingual Plane, `minprice` is the encoding of its character 0 |
| `Query.BmpMaxPrice` | popup.js:60 | for a setting in the Basic Multilingual Plane, `maxprice` is the encoding of its character 2, or "undefined" when it is shorter than three characters |
| `Query.PricePairBounds` | popup.js:60 | a "lo,hi" setting of Basic Multilingual Plane characters queries `lo` to `hi` |
| `Query.DefaultPriceBounds` | popup.js:4 | the default "2,3" queries prices 2 to 3 |
| `Query.MaxPriceIsSecondLevel` | popup.js:60 | with three or more levels, the first two in the Basic Multilingual Plane, the upper bound is the second level, not the last |
| `Query.ThreeLevelExample` | popup.js:60 | "1,2,4" queries 1 to 2 |
| `Query.ShortSettingExample` | popup.js:60 | a one-character setting gives an "undefined" upper bound |
| `Query.AstralLevelSplits` | popup.js:60 | when the first level lies outside the Basic Multilingual Plane, `minprice` is a lone high surrogate and `maxprice` is the comma |

## Left out

- History.AddToHistory, History.RecordAllKeepsNewest: recordings are modelled as sequential and atomic. In the source, the read (popup.js:33) and the write (popup.js:46) are separate awaits, and the message listener does not await `addToHistory`. Two overlapping calls can both read the same list, and the later write then drops the other selection (`History.OverlappingRecordingsLoseEntry`).
- Storage: `chrome.storage.sync` reads and writes and their default merging are not modelled. The stored history and price setting are parameters, and the history to save is a result.
- Geolocation, the HTTP fetch and JSON parsing are not modelled. The search results are a parameter of `ShowResults`. The search fails when a result has no `geometry.location`; the model has no such failure.
- Query: the price setting is the UTF-16 encoding of a Dafny string, so a setting that holds a lone surrogate is not represented. A text input does not normally produce one.
- The rest of the query URL (location, radius, type, keyword, key) is not modelled. `milesToMeters` and the `toFixed(1)` distance text are floating-point arithmetic. The distance text is an opaque string parameter.
- `Wheel.Popup.ShowResults`: the 2-second timer before `updateWheel` runs is collapsed, so the name-keyed `restaurantDetails` is overwritten at once. During those two seconds the source's `restaurantDetails` holds the name-keyed index.
- The shuffle by `Math.random` is not modelled. Any permutation of the candidate indices may be passed, and no distribution is claimed.
- `Wheel.Popup.constructor`: the declarations of `options`, `restaurantDetails`, `drawWheel` and `spin` are not in `popup.js`. The constructor starts with no options and an empty index, and the drawing and spinning of the wheel are not modelled.
- Timestamps from `toLocaleString` are opaque strings. `loadHistory`'s newest-first sort parses them as dates, and the rest of that function renders HTML, so it is not modelled.
- The message listener that forwards `addToHistory` messages, and `background.js` as a whole (a daily alarm, a notification, a message relay), are platform glue and are not modelled.
- View toggling, alerts, the settings form and console logging are user interface only.
- A negative or fractional `price_level` would make `"$".repeat` throw or truncate. The model takes the level as a natural number, which is the range the places search returns.
