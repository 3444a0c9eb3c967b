# Hiring ETL: a verified model of `etl.py`

`etl.py` reads a `;`-separated CSV of hiring candidates and cleans its header
row (extract). It normalises and classifies every row (transform) and loads
the result into a SQLite star schema (load). That schema has four
one-to-a-value dimensions (`DimTechnology`, `DimSeniority`, `DimCountry`,
`DimCandidate` keyed by e-mail), a `DimDate` keyed by `date_id`, and an
append-only `FactHiring`. This project models that pipeline in Dafny:

- `wrappers.dfy`: `Option` and `Result`.
- `pystr.dfy` (`PyStr`): the Python `str` behaviours the script relies on.
  These are `strip`, `lower`, `title`, `replace`, slicing, `int()` on digit
  strings, zero-padding of dates, negative list indexing, and the code-point
  ordering used by `sorted`.
- `extract.dfy` (`Extract`): header normalisation. It also gives the first
  column, in read order, that stops the run: one the cleaned header lacks,
  which raises `KeyError`, or one it holds twice, which pandas rejects.
- `transform.dfy` (`Transform`): `COUNTRY_FIX`, `HIRED_THRESHOLD`, and the
  per-row transform. That transform covers the date text and `date_id`, `yoe`
  truncation, stripped text, the canonical country, the `hired` flag and the
  experience band. It also covers the frame-wide failure when one date is
  `NaT`.
- `dimensions.dfy` (`Dimensions`): pure definitions of each dimension's
  `INSERT OR IGNORE` batch. These cover the sorted distinct values of
  `insert_unique`, e-mail deduplication (`drop_duplicates('email')`), and the
  derived `DimDate` rows with their column-by-column conversion errors.
- `schema.dfy` (`Schema`): the tables as a value (`Tables`) and `LoadTables`,
  the specification of one `load_to_dw` call. It also holds the lemmas about
  what a load promises:
  - it keeps the schema's constraints;
  - it changes no existing row;
  - it appends one fact per frame row, and that fact leads back to its row;
  - loading twice adds no dimension row but repeats the facts;
  - loading into an empty warehouse yields exactly the distinct values.
- `loader.dfy` (`Loader`): the imperative loader.
  - A `Dimension` class represents each one-column table.
  - A `Warehouse` class holds the tables that `load_to_dw` updates.
  - Its loop methods do the inserts, `build_map` and the fact loop.
  - `Warehouse.Load` is proved to leave the tables as `Schema.LoadTables`
    says.
  - `Warehouse.Run` is the whole pipeline of `main`.

Surrogate ids are row positions plus one. That is what SQLite assigns to an
`INTEGER PRIMARY KEY` in a table that only ever receives inserts.

## Model

| member | source | states |
|---|---|---|
| `PyStr.Strip` | etl.py:61-62 | the result has no surrounding whitespace, is the input with whitespace runs removed from both ends, and is the input itself when that has none |
| `PyStr.RemoveChar` | etl.py:72 | `replace('-', '')` leaves no `-` and never lengthens the text |
| `PyStr.RemoveCharConcat` | etl.py:72 | removing a character distributes over concatenation |
| `PyStr.RemoveCharAbsent` | etl.py:72 | removing a character that does not occur changes nothing |
| `PyStr.Slice` | etl.py:99-101 | `str.slice(lo, hi)` never lengthens the text and is the ordinary slice when the bounds fit |
| `PyStr.ParseInt` | etl.py:99-101 | `int()` succeeds exactly on non-empty strings of ASCII digits |
| `PyStr.Pad` | etl.py:55 | a zero-padded number has the requested width, only digits, and reads back as the number |
| `PyStr.DigitsValueConcat` | etl.py:72 | the value of concatenated digit blocks is the first block shifted left by the second's length plus the second |
| `PyStr.TitleFrom` | etl.py:65 | `title()` keeps the length and lower-cases exactly the characters that follow a cased one, upper-casing the rest |
| `PyStr.Title` | etl.py:65 | `title()` upper-cases a letter that starts a run of letters and lower-cases the rest of the run. It changes only letter case and leaves every other character as it is |
| `PyStr.Lower` | etl.py:47 | `lower()` leaves no upper-case letter, turns each upper-case letter into its lower-case form, and changes nothing else |
| `PyStr.ReplaceChar` | etl.py:47 | `replace(' ', '_')` turns every space into `_`, keeps every other character, and leaves no space |
| `PyStr.PyIndex` | etl.py:104 | `month_names[i]` exists exactly for `-len <= i < len`, and a negative index counts from the end |
| `PyStr.RemoveCharMembers` | etl.py:72 | removing `-` keeps exactly the other characters |
| `PyStr.LowerOfTitle` | etl.py:65 | lower-casing a title-cased string gives the lower-cased original |
| `PyStr.TitleIdempotent` | etl.py:65 | `title()` is idempotent |
| `PyStr.BelowIrreflexive` | etl.py:115 | the order `sorted` uses on strings is irreflexive |
| `PyStr.BelowAsymmetric` | etl.py:115 | the order is asymmetric |
| `PyStr.BelowTransitive` | etl.py:115 | the order is transitive |
| `PyStr.BelowTotal` | etl.py:115 | any two different strings are ordered one way or the other |
| `Extract.NormalizeHeader` | etl.py:47 | a cleaned header has no surrounding whitespace, no space and no upper-case letter, and is no longer than the raw one |
| `Extract.NormalizeHeaderIdempotent` | etl.py:47 | cleaning a cleaned header changes nothing |
| `Extract.NormalizeHeadersIdempotent` | etl.py:47 | cleaning a whole cleaned header row changes nothing |
| `Extract.CleanEmail` | etl.py:47 | `Email` and `email` both clean to `email` |
| `Extract.CaseVariantsCollide` | etl.py:47 | two raw names that clean to the same name put that column in the cleaned header twice |
| `Extract.FirstFault` | etl.py:55-62 | the first name, in read order, that the header does not hold exactly once, with every earlier one held once. It is `Absent` exactly when the name does not occur. There is none exactly when every name occurs once |
| `Extract.ColumnFaultOf` | etl.py:47-62 | the column that stops the run: a required column the cleaned header lacks (`KeyError`) or holds twice, which makes `df[name]` a frame that `to_datetime`, `to_numeric` and `.str` reject. There is none exactly when each of the ten occurs once |
| `Transform.IsoDate` | etl.py:55 | a date prints as ten characters with `-` at positions 4 and 7 |
| `Transform.DateText` | etl.py:55 | the date text is `NaT` exactly when the date did not parse, and otherwise has the ISO layout |
| `Transform.DateId` | etl.py:72 | `int()` of the dash-free text succeeds exactly when the text holds only digits and dashes, with at least one digit |
| `Transform.DateIdOfIsoDate` | etl.py:72 | the key of an ISO date is `year*10000 + month*100 + day` |
| `Transform.DateIdOfNaT` | etl.py:72 | the text `NaT` of an unparsed date has no integer key |
| `Transform.DateIdOfText` | etl.py:55-72 | the key converts exactly when the date parsed, and is then YYYYMMDD |
| `Transform.TruncateToInt` | etl.py:56 | `astype(int)` truncates toward zero, from below for non-negative values and from above for negative ones |
| `Transform.Yoe` | etl.py:56 | an unparsed `yoe` becomes 0, and a non-negative one becomes its whole part |
| `Transform.BandLabels` | etl.py:76 | band `k` is written as the `k`-th label `0-2`, `3-5`, `6-10`, `11+`, and the four texts differ |
| `Transform.ExperienceBand` | etl.py:75-77 | the band is label `k` exactly when `yoe` lies in `(bins[k], bins[k+1]]`, and there is none exactly outside `(-1, 10^6]` |
| `Transform.BinsPartition` | etl.py:75-77 | every value from 0 to 10^6 lies in exactly one interval |
| `Transform.BandBoundaries` | etl.py:75-77 | the boundary values 0, 2, 3, 5, 6, 10, 11 and 10^6 get the expected bands, and -1 and 10^6+1 get none |
| `Transform.Hired` | etl.py:68-69 | hired exactly when both scores are present and at least 7; a missing score never hires |
| `Transform.Cleaned` | etl.py:61-62 | a cleaned cell has no surrounding whitespace |
| `Transform.CanonicalCountry` | etl.py:65 | an alias of `COUNTRY_FIX`, matched after lower-casing, gives its canonical name; anything else is title-cased |
| `Transform.UnitedStatesAliases` | etl.py:32-35 | `USA`, `usa`, `U.S.A.` and `EE.UU.` all become `United States` |
| `Transform.OtherAliases` | etl.py:35-36 | the United Kingdom and Brazil aliases become their canonical names |
| `Transform.UnlistedCountry` | etl.py:65 | a country outside the table is title-cased |
| `Transform.CanonicalNamesAreFixed` | etl.py:32-37 | every canonical name of `COUNTRY_FIX` normalises to itself |
| `Transform.CanonicalCountryIdempotent` | etl.py:65 | country normalisation is idempotent |
| `Transform.TransformRow` | etl.py:50-79 | a row fails exactly when its date did not parse, and then with the error of `int("NaT")` |
| `Transform.TransformRowFields` | etl.py:55-77 | a transformed row carries every field of the rules: the ISO date text and its YYYYMMDD key, the truncated `yoe` and its band, the `hired` rule, the stripped name, e-mail, seniority and technology cells, the canonical country of the stripped country cell, and both scores unchanged |
| `Transform.EmptyCellsAsNan` | etl.py:61-65 | an empty text cell reaches the row as the text `nan`, and an empty country as `Nan` |
| `Transform.TransformAll` | etl.py:50-79 | the frame transforms exactly when every date parsed, into every row transformed in order; otherwise the run fails with `int("NaT")` |
| `Dimensions.InsertOrIgnore` | etl.py:114-119 | one `INSERT OR IGNORE`: existing rows keep their ids, the value is present afterwards, nothing else is added, and uniqueness is kept |
| `Dimensions.Upsert` | etl.py:112-120 | a batch of inserts: existing rows keep their ids, exactly the old and the new values are present, and uniqueness is kept |
| `Dimensions.UpsertPresent` | etl.py:112-120 | inserting values that are all present changes nothing |
| `Dimensions.UpsertIdempotent` | etl.py:112-120 | inserting the same batch twice is inserting it once |
| `Dimensions.UpsertFresh` | etl.py:112-120 | distinct values that are all new are appended in order |
| `Dimensions.SortedNoDup` | etl.py:115 | a strictly sorted list has no duplicates |
| `Dimensions.InsertSorted` | etl.py:115 | inserting into a strictly sorted list keeps it strictly sorted and adds exactly the value |
| `Dimensions.SortedDistinct` | etl.py:115 | `sorted(unique(values))` is strictly sorted and holds exactly the values |
| `Dimensions.StrictlySortedUnique` | etl.py:115 | two strictly sorted lists with the same elements are equal |
| `Dimensions.SortedDistinctCanonical` | etl.py:115 | the sorted distinct list depends only on which values occur |
| `Dimensions.UpsertSortedIntoEmpty` | etl.py:112-120 | into an empty table the batch lands exactly as sorted |
| `Dimensions.DedupByEmail` | etl.py:123 | `drop_duplicates('email')` keeps only input rows, one per e-mail, every e-mail, and the first row of each |
| `Dimensions.InsertCandidate` | etl.py:124-128 | one candidate insert: existing rows kept, the e-mail present afterwards, unique e-mails kept, a new row is the candidate |
| `Dimensions.UpsertCandidates` | etl.py:124-128 | the candidate batch: existing rows keep their ids, exactly the old and new e-mails are present, unique e-mails kept, new rows come from the batch |
| `Dimensions.UpsertCandidatesPresent` | etl.py:124-128 | candidates whose e-mails are all present change nothing |
| `Dimensions.UpsertCandidatesIdempotent` | etl.py:124-128 | inserting the same candidates twice is inserting them once |
| `Dimensions.UpsertCandidatesFresh` | etl.py:124-128 | candidates with unique, new e-mails are appended in order |
| `Dimensions.DedupThenUpsert` | etl.py:123-128 | deduplicating before inserting changes nothing, because the insert ignores repeated e-mails |
| `Dimensions.DedupIsInsertIntoEmpty` | etl.py:123-128 | deduplication is inserting the rows into an empty table |
| `Dimensions.Distinct` | etl.py:95-97 | `drop_duplicates()` on the date pairs leaves no duplicate and loses no pair |
| `Dimensions.MonthName` | etl.py:103-104 | `month_names[m-1]` exists exactly for `-11 <= m <= 12`, names months 1 to 12 correctly, and gives December for 0 |
| `Dimensions.Quarter` | etl.py:102 | months 1 to 12 fall in quarters 1 to 4, three months each |
| `Dimensions.DateRowOf` | etl.py:99-104 | a date row exists exactly when its three slices convert and its month has a name, and it keeps the key and the date text |
| `Dimensions.FirstNonInteger` | etl.py:99-101 | the first text of a column that `astype(int)` rejects, with every earlier one accepted |
| `Dimensions.FirstUnnamedMonth` | etl.py:104 | the first month with no name, with every earlier one named |
| `Dimensions.DateColumnsError` | etl.py:99-104 | the columns convert without error exactly when every date pair parses |
| `Dimensions.DateDimRows` | etl.py:94-104 | the `DimDate` rows exist exactly when every pair yields its row, and are then those rows in order |
| `Dimensions.ParsePadded` | etl.py:99-101 | a zero-padded number converts back to itself |
| `Dimensions.DateRowOfIsoDate` | etl.py:99-104 | an ISO date yields the row with its day, month, English month name, quarter and year |
| `Dimensions.InsertDate` | etl.py:105-109 | one `DimDate` insert adds the key, keeps every stored row, and stores the row under a new key |
| `Dimensions.UpsertDates` | etl.py:105-109 | the date batch: the keys are the old ones plus the rows' ones, stored rows are kept, and a new key holds a row of the batch with that key |
| `Dimensions.UpsertDatesIdempotent` | etl.py:105-109 | inserting the same date rows twice is inserting them once |
| `Schema.DateKeysCovered` | etl.py:94-109 | every row's `date_id` is the key of one of the derived date rows |
| `Schema.TransformedDateParses` | etl.py:55-72 | the date pair of a transformed row always parses |
| `Schema.RowsDatesParse` | etl.py:94-104 | rows whose date pairs all parse yield their date rows |
| `Schema.TransformedRowsLoad` | etl.py:99-104 | the date rows of any frame `transform` returns convert without error |
| `Schema.FilledHoldsKeys` | etl.py:94-128 | the dimension inserts (`Filled`) leave the facts alone, and each one-column dimension and the candidates hold exactly their old keys and the frame's |
| `Schema.FilledCovers` | etl.py:94-128 | after the dimension inserts every key of every row is present |
| `Schema.FilledWellFormed` | etl.py:94-128 | the dimension inserts keep the schema's constraints: unique keys, dates under their own key, existing facts resolvable |
| `Schema.IndexOf` | etl.py:131-137 | the position of the first occurrence of a key |
| `Schema.FactForDescribes` | etl.py:141-153 | the fact `FactFor` builds for a covered row resolves every id and leads back to the row's keys and measures |
| `Schema.NewFacts` | etl.py:141-153 | one fact per row, each describing its row |
| `Schema.LoadTables` | etl.py:81-162 | a load succeeds exactly when the date rows derive, and otherwise raises that error |
| `Schema.AppendKeepsWellFormed` | etl.py:154-160 | appending facts that describe rows keeps every fact resolvable |
| `Schema.LoadKeepsWellFormed` | etl.py:81-162 | a load keeps unique keys, dates under their own key, and every fact resolvable |
| `Schema.LoadGrows` | etl.py:94-160 | a load changes no existing row of any table |
| `Schema.LoadAppendsDescribingFacts` | etl.py:141-160 | a load appends exactly one fact per row, in order, each leading back to its row |
| `Schema.ReloadRepeatsFacts` | etl.py:105-160 | loading the same frame again leaves every dimension as it is and appends the same facts once more |
| `Schema.FilledDateKeys` | etl.py:94-109 | the derived date rows carry exactly the frame's date keys |
| `Schema.LoadIntoEmpty` | etl.py:112-120 | into an empty warehouse each one-column dimension receives exactly the sorted distinct values |
| `Schema.LoadIntoEmptyCandidates` | etl.py:123-128 | into an empty warehouse the candidates are the first row of each e-mail |
| `Schema.LoadDateKeys` | etl.py:94-109 | a load adds exactly the frame's date keys to `DimDate` |
| `Loader.FirstMissingKey` | etl.py:142-147 | the reported key is the first failing lookup in the tuple's order: e-mail, then technology, seniority, country |
| `Loader.FactOfPointsBack` | etl.py:143-153 | the tuple the loop builds (`FactOf`) maps each key to the id of a table row holding that key, and carries the row's measures |
| `Loader.BuildMap` | etl.py:131-137 | the map holds every key of the table, each mapped to a row holding it, and to the last such row |
| `Loader.IdMapIsPosition` | etl.py:131-137 | on a table with unique keys the map gives each key its position plus one |
| `Loader.FactOfIsFactFor` | etl.py:141-153 | with maps read from well-formed tables, every lookup of a covered row succeeds and builds the specified fact |
| `Loader.BuildFactRows` | etl.py:141-153 | the loop succeeds exactly when every lookup succeeds and then builds each row's fact in order; otherwise it raises for the first failing row and lookup |
| `Loader.FactRowsAreNewFacts` | etl.py:141-153 | with maps read from the filled tables, the loop's facts are the specified ones |
| `Loader.FilledResolves` | etl.py:131-145 | after the dimension inserts every lookup of every row succeeds |
| `Loader.FilledThenAppended` | etl.py:131-160 | appending the loop's facts to the filled tables is the specified load and keeps the constraints |
| `Loader.FactsForLoad` | etl.py:141-160 | the fact loop never raises after the inserts, and its facts complete the specified load |
| `Loader.Dimension.constructor` | etl.py:89-90 | a new dimension table is empty |
| `Loader.Dimension.Insert` | etl.py:114-119 | one `INSERT OR IGNORE` leaves the table as `InsertOrIgnore` says |
| `Loader.Dimension.InsertUnique` | etl.py:112-120 | `insert_unique` leaves the table as `Upsert` of the sorted distinct values says |
| `Loader.Warehouse.constructor` | etl.py:89-90 | a new schema is well formed and every table is empty |
| `Loader.Warehouse.InsertDates` | etl.py:105-109 | the `DimDate` inserts leave the date table as `UpsertDates` says, and nothing else changes |
| `Loader.Warehouse.InsertCandidates` | etl.py:123-128 | the `DimCandidate` inserts leave the candidates as `UpsertCandidates` says, and nothing else changes |
| `Loader.Warehouse.FillDimensions` | etl.py:94-128 | the dimension inserts leave the tables as `Filled` says |
| `Loader.Warehouse.ReadMaps` | etl.py:131-137 | the four maps are read back from the current tables |
| `Loader.Warehouse.Load` | etl.py:81-162 | the tables become what `LoadTables` says and the fact count is returned; on error nothing changes; the constraints are kept |
| `Loader.Warehouse.Write` | etl.py:94-160 | once the date rows derive, the writes complete `LoadTables` and insert one fact per row |
| `Loader.Warehouse.Run` | etl.py:164-172 | the run succeeds exactly when each required column occurs once in the cleaned header and every date parsed. A missing or repeated column and a failed transform give their errors and write nothing. Otherwise the tables become the load of the transformed frame |

## Left out

- Reading the CSV file, the `FileNotFoundError` check, `--csv/--db/--schema` parsing, directory creation and the Rich console output are I/O. The model starts from the header row and the cells as pandas parsed them.
- The header row is the one `read_csv` returns. `read_csv` has already renamed exact repeats of a raw name to `name.1`, `name.2`, and so on. Names that differ only in case or surrounding spaces are not repeats there, and they collide at etl.py:47. A raw header that already holds a derived name (`hired`, `date_id`, `yoe_band`) more than once is not modelled.
- `pd.to_datetime` and `pd.to_numeric` are not modelled. A date cell is given as a calendar date or as unparsed (`NaT`). A number cell is given as a real or as unparsed (`NaN`).
- Transform.TransformAll: does not model an infinite `yoe` (`inf`, `1e999`). `to_numeric` returns it, and `astype(int)` at etl.py:56 then raises, so that run fails even when every date parsed. The model's numbers are finite reals.
- Loader.Warehouse.Run: the same infinite-`yoe` failure is not modelled, so such a run is one the model calls successful.
- Transform.TruncateToInt: the cast is unbounded. The source's `astype(int)` is an int64 cast, and numpy leaves its result platform-defined for a `yoe` of magnitude 2^63 or more.
- Scores are exact reals, not IEEE doubles. `float(...)` in the fact tuple is the identity.
- `lower` and `title` are modelled for the ASCII letters only. `strip` is modelled for Python's whitespace characters below U+0100. Python's Unicode case and space tables are not modelled beyond that.
- `int()` is modelled on plain digit strings. Signs, surrounding spaces and underscores never reach it here, because every string it sees is a slice of an ISO date or the date with its dashes removed.
- `dw/schema.sql` is not part of this model. The model assumes what the loader relies on: `date_id` is the key of `DimDate`, and technology, seniority, country and e-mail are UNIQUE. Ids are `INTEGER PRIMARY KEY` values assigned in insertion order.
- The DDL script (`executescript`) and the SQLite engine are not modelled. Every table is a sequence or map in memory.
- The model assumes pandas 1.x or 2.x, where `astype(str)` turns an empty cell into the text `nan` (`Transform.EmptyCellsAsNan`). pandas 3's default string dtype keeps the missing value instead. `dropna()` then drops it from the dimension, and the fact loop raises `KeyError` at etl.py:145. That behaviour is not modelled.
- `insert_unique`'s `dropna()` and `str(v)` change nothing under that assumption, because the columns are already strings. The model omits them.
- The `yoe_band` column is computed but never loaded. The model computes it as well.
- The experience bands: the label `11+` reads as open-ended, but the last bin edge is 10^6, so a larger `yoe` gets no band. A negative `yoe` (a negative input truncated) gets none either. The model follows the bins as written.
- Transactions: the only error a load can raise is in deriving the date rows. That happens before the first insert, so the model's failed load changes nothing. That is what the `with` block's rollback guarantees. A `KeyError` in the fact loop is modelled, and it is proved never to happen after the inserts.
- The CLI entry points `main`/`parse_args`, `kpi/visualizations.py` and `run_all.py` are outside the modelled core. `Warehouse.Run` stands for `main`'s extract, transform and load sequence.
