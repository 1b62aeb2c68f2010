# ksm: deduplicated best runs and the Mythic+ score table

This project models, in Dafny, the two data transformations at the centre of
the ksm web page, which compares World of Warcraft Mythic+ dungeon scores of
several characters.

- **Best-run deduplication** (`fetchRioMythicScore`, `utils/api.ts`): a
  character's Raider.io `mythic_plus_best_runs` list, possibly missing or
  `null`, is reduced through a JavaScript `Map` keyed by dungeon name to at
  most one run per dungeon. A run replaces the stored one only when its score
  is strictly higher, so the first of equally scored runs wins. Output order is
  the order in which each dungeon first appears, because re-setting an existing
  `Map` key keeps its position.
- **The score table** (`MythicScore`, `components/mythic-score.tsx`): the
  columns are the score keys of the first character. Each column's average is
  the sum over all characters divided by the number of characters. The columns
  are ordered by descending average with a stable sort, as section 23.1.3.30 of
  ECMA-262 (2023 edition) requires of `Array.prototype.sort`, so equal averages
  keep key order. The submit handler appends one row when the lookup succeeds.
  When it fails, the handler sets a fixed error message and leaves the rows
  alone.

Layout, one module per file:

- `wrappers.dfy` (`Wrappers`): `Option`, standing for `undefined`/`null`.
- `ordered_map.dfy` (`OrderedMaps`): an insertion-ordered dictionary. It stands
  for a JavaScript `Map` and for the own string keys of a plain object.
- `raiderio.dfy` (`RaiderIo`): the run and profile records, keeping only the
  fields that are read.
- `best_runs.dfy` (`BestRuns`): the deduplication and its properties.
- `stable_sort.dfy` (`StableSort`): a stable descending sort by rank. It is
  insertion sort, with its sortedness, stability and uniqueness lemmas.
- `score_table.dfy` (`ScoreTable`): columns, averages and column order.
- `submit_form.dfy` (`SubmitForm`): the form state and the submit transition.

Scores are exact `real`s, not IEEE doubles, so averages are exact rationals.
Stability is stated by rank class: `Ties(s, rank, v)` is the subsequence of `s`
with rank exactly `v`. A sort is stable when it leaves every rank class as it
was. `SortDescUnique` proves that descending order plus stability determine the
result. So any conforming `Array.prototype.sort` yields the order this model
computes.

The table follows the code of `components/mythic-score.tsx:57-62`:

- the columns are `Object.keys(characterScores[0].scores)`, the keys of the
  first character's scores;
- each column's sum is divided by `characterScores.length`, the count of all
  characters;
- no average key level is computed.

Rows that lack one of the first character's dungeons make the code read
`undefined` and produce `NaN`. The model therefore requires (`Columnar`) that
every row has a score for every dungeon of the first row. Extra keys in later
rows are allowed and ignored, as in the code. Within `Columnar`, dividing by
the count of all characters and dividing by the count of characters holding
the dungeon give the same result. The code's use of `characterScores.length`
would only make a difference on rows the model leaves out.

## Model

| member | source | states |
|---|---|---|
| OrderedMaps.Empty | utils/api.ts:31 | `new Map()` is well formed and holds no keys |
| OrderedMaps.Get | utils/api.ts:26 | `acc.get(k)` yields a value exactly when `k` is stored, and then the stored value |
| OrderedMaps.Values | utils/api.ts:32 | `Array.from(runsMap.values())` lists one value per key, in key order |
| Wrappers.Option.GetOr | utils/api.ts:24 | `runs \|\| []`: the run list when present, the empty list when it is missing |
| OrderedMaps.Set | utils/api.ts:28 | `Map.set` keeps the map duplicate-free; an existing key keeps its position and only its value changes, a new key is appended at the end |
| BestRuns.Absorb | utils/api.ts:26-29 | a run is stored exactly when its dungeon is not yet stored or its score is strictly higher than the stored one; a new dungeon is appended, a known one stays in place |
| BestRuns.Reduce | utils/api.ts:25-31 | after the reduce every dungeon of the input has an entry, and each entry is an input run of the dungeon it is stored under |
| BestRuns.ReduceValid | utils/api.ts:25-31 | the reduce keeps the `Map` well formed: every key is listed once, and exactly the keys with an entry are listed |
| BestRuns.AbsorbStored | utils/api.ts:27-28 | absorbing a run never lowers the score stored for a dungeon, and the stored run changes only for a strictly higher score |
| BestRuns.Dedup | utils/api.ts:25-32 | the output holds at most one run per dungeon, has the same set of dungeon names as the input, and contains only unaltered input runs |
| BestRuns.DedupProfile | utils/api.ts:23-34 | a missing or null run list is treated as empty and yields an empty list; the returned profile always has a run list, which is the deduplication of the input list: one run per dungeon, only input runs, the input's dungeon set; name, realm and region are unchanged |
| BestRuns.DedupProfileIdempotent | utils/api.ts:23-34 | post-processing a profile that was already post-processed returns it unchanged |
| BestRuns.ReduceKeepsHighest | utils/api.ts:26-28 | every input run scores at most the run stored for its dungeon |
| BestRuns.ReduceKeepsFirstOnTie | utils/api.ts:27 | a run tying with the stored run of its dungeon is preceded by, or is, the stored run, because the comparison is strict |
| BestRuns.ReduceFirstOccurrenceOrder | utils/api.ts:25-31 | a key stored before another occurs in the input before every occurrence of the later key |
| BestRuns.DedupKeepsHighest | utils/api.ts:26-28 | each kept run scores at least as much as every input run for its dungeon |
| BestRuns.DedupKeepsFirstOnTie | utils/api.ts:27 | of equally scored runs of one dungeon the earliest is kept |
| BestRuns.DedupFirstOccurrenceOrder | utils/api.ts:25-32 | output order is first-occurrence order of the dungeon names in the input |
| BestRuns.ReduceOfDistinct | utils/api.ts:25-31 | on input without duplicate dungeons, every run is stored under its own dungeon and keys follow input order |
| BestRuns.DedupOfDistinct | utils/api.ts:25-32 | a run list already free of duplicate dungeons is returned unchanged |
| BestRuns.DedupIdempotent | utils/api.ts:25-32 | deduplicating the output again returns it unchanged |
| StableSort.Insert | components/mythic-score.tsx:64 | inserting one element yields a permutation of the old sequence plus that element |
| StableSort.InsertSorted | components/mythic-score.tsx:64 | inserting into a descending sequence keeps it descending |
| StableSort.InsertTies | components/mythic-score.tsx:64 | the inserted element joins the front of its rank class; every other rank class is unchanged |
| StableSort.SortDesc | components/mythic-score.tsx:64 | the sort with comparator `rank[b] - rank[a]` returns a permutation, non-increasing by rank, with every rank class in input order (stable) |
| StableSort.TiesMembers | components/mythic-score.tsx:64 | an element is in a rank class exactly when it is in the sequence with that rank |
| StableSort.SortedTiesDetermine | components/mythic-score.tsx:64 | two descending sequences with the same rank classes in the same order are equal |
| StableSort.SortDescUnique | components/mythic-score.tsx:64 | any descending, stable rearrangement of the keys is the model's sort result |
| ScoreTable.Sum | components/mythic-score.tsx:59 | the inner reduce starts from 0, so no characters give a sum of 0 |
| ScoreTable.SumAppend | components/mythic-score.tsx:59 | each further character adds exactly its score for the column to the sum |
| ScoreTable.ColumnAverages | components/mythic-score.tsx:55-62 | no characters give no averages; otherwise there is an average for exactly the first character's keys, each the sum over all characters divided by the number of characters |
| ScoreTable.Summarize | components/mythic-score.tsx:54-67 | no characters give empty columns and averages; the columns are a permutation of the first character's keys; the averages have an entry for exactly the columns; the columns are non-increasing by average and equal averages keep key order |
| ScoreTable.ColumnOrderForced | components/mythic-score.tsx:64 | any column order that is descending by average and stable equals the model's column order |
| ScoreTable.ColumnsDistinct | components/mythic-score.tsx:57-64 | each dungeon column appears exactly once |
| ScoreTable.SumBounds | components/mythic-score.tsx:59 | column scores within `[lo, hi]` sum to between `n * lo` and `n * hi` |
| ScoreTable.AverageWithinScores | components/mythic-score.tsx:58-62 | a column's average lies between the lowest and the highest score in that column |
| ScoreTable.SingleCharacterAverages | components/mythic-score.tsx:58-62 | with one character each average is that character's score |
| ScoreTable.AverageAfterAppend | components/mythic-score.tsx:59-60 | adding a row turns average `a` over `n` rows into `(n * a + x) / (n + 1)`, where `x` is the new row's score |
| SubmitForm.Initial | components/mythic-score.tsx:32-36 | the page starts with empty inputs, no rows, not loading and no error |
| SubmitForm.Enter | components/mythic-score.tsx:77-97 | typing changes the two inputs and nothing else |
| SubmitForm.BeginSubmit | components/mythic-score.tsx:38-41 | starting a submit captures the typed realm and name, sets loading, clears the error and keeps the rows |
| SubmitForm.CompleteSubmit | components/mythic-score.tsx:42-51 | on success one row with the captured realm, name and scores is appended to the current rows and both inputs are cleared; on failure the rows and inputs are kept and the fixed message is set; loading is false either way |
| SubmitForm.HandleSubmit | components/mythic-score.tsx:38-52 | a successful submit appends exactly one row at the end, keeps earlier rows, clears both inputs and shows no error; a failed one keeps the rows and inputs and sets the fixed message; loading ends false |
| SubmitForm.SubmitKeepsColumns | components/mythic-score.tsx:44-57 | a submit whose record covers the existing columns keeps the table well defined and never changes its set of columns once a first row exists |
| SubmitForm.SessionAppendsSuccesses | components/mythic-score.tsx:38-52 | after a sequence of submits the rows are the initial rows followed by one row per successful attempt, in order |
| SubmitForm.SessionEndsIdle | components/mythic-score.tsx:47-51 | after a non-empty sequence of submits the page is not loading, and the fixed message shows exactly when the last attempt failed |

## Left out

- The HTTP fetch (`utils/api.ts:4-21`): URL building, the `!response.ok` throw and JSON parsing are I/O against an external service. The fetched profile is an input to `DedupProfile`, and a failed request is not modelled there.
- The mock `fetchMythicScore` (`components/mythic-score.tsx:16-29`) uses a timer and `Math.random`, so its values are unconstrained inputs. Its success or failure is the `FetchOutcome` input of the submit transition.
- JSX rendering, `toFixed(2)`, the `disabled={loading}` button, the inputs' `required` attribute and `e.preventDefault()` are UI behaviour with no data transformation.
- The theme components and the Next.js layout and page files hold only browser-storage and routing glue.
- Floating point: scores and averages are exact reals, so `NaN`, rounding and the order of floating-point additions are not modelled.
- Object.keys enumeration: integer-like keys are listed first in numeric order by JavaScript. The model takes the recorded key order as the enumeration order.
- A property key named `__proto__` has special meaning for a plain object and is not modelled.
- Profile fields other than name, realm, region and the run list are dropped, as are run fields other than dungeon, level, keystone upgrades and score. None of them is read by the modelled code.
- Summarize: requires every row to score every dungeon of the first row. The source instead reads `undefined` and yields `NaN`. With `NaN` the comparator is inconsistent and the sort order is implementation-defined. The program never builds such rows: the mock (`components/mythic-score.tsx:19-28`) always returns the same eight dungeon keys, so `Columnar` holds at the only call site.
- Submissions that overlap while a lookup is pending are covered only by `CompleteSubmit`, which appends to the rows current at completion. `Session` models submissions that settle one after another.
