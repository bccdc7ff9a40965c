# Wheel-running activity pipeline, modelled in Dafny

This project models the two processing scripts of the wheel-running repository,
`scripts/process.py` and `scripts/new_process.py`. Each script reads a wide
export: a timestamp column plus one column of wheel-revolution counts per mouse.
It then runs these steps:

- cleans and renames the column labels;
- converts the timestamp column with the `%d/%m/%Y %H:%M:%S` pattern;
- melts the table to long form, one `(Datetime, MouseID, Revolutions)` row per cell;
- sorts by `(MouseID, Datetime)`;
- resamples each mouse's readings to contiguous one-hour buckets, summing the counts;
- adds a `Period` column ("Day"/"Night", in `process.py`) or a `Meters` column (in `new_process.py`);
- writes one combined table and one table per mouse.

Timestamps are whole seconds since 1970-01-01 with no time zone. Counts are natural numbers, and an empty cell counts as 0.

Modules, in dependency order:

- `Wrappers`: `Option` and `Result`.
- `Arith`: uniqueness of Euclidean quotient and remainder.
- `Calendar`: the proleptic Gregorian calendar (years 1 to 9999), days from the civil date, and the clock fields of a seconds count.
- `DateParse`: the strict parser. Day, month, hour, minute and second take one or two ASCII digits, the year exactly four, and the separators must match exactly. It also holds the all-or-nothing column conversion and the strict-then-fallback chain.
- `Ordering`: Python's code-point order on strings, and the sorted distinct keys that `groupby` visits.
- `Reshape`: cells, observations, `melt`, and the sort by `(MouseID, Datetime)`.
- `Hourly`: `groupby("MouseID").resample("1H").sum()`. Buckets are aligned to the clock hour and run from the hour of a subject's first reading to the hour of its last. Each bucket holds the sum of its readings.
- `Enrich`: `label_period`, `Meters`, the added column, and the per-subject row groups.
- `Text`: `str.strip()` on labels and `rename`.
- `Pipeline`: the raw table, the `WideFrame` class for the in-place changes to `df`, the per-subject loop, and one entry method per script. Each entry method is proved equal to a specification function.
- `RunProperties`: end-to-end guarantees of both scripts.

Three behaviours of the scripts that the model follows:

- `pd.to_datetime` with an explicit format raises on a value it cannot convert (`scripts/process.py:52`, `scripts/new_process.py:32`). A column therefore converts only when every one of its values does.
- `scripts/new_process.py:28` renames only a column labelled exactly "Time". The comment on line 27 says the first column is renamed, but a first column with any other label keeps its label.
- `melt(..., value_name="Revolutions")` raises a `ValueError` in pandas 2 when a column is already labelled "Revolutions" (`scripts/process.py:68`, `scripts/new_process.py:36`). Such a run stops after the date conversion.

## Model

| member | source | states |
|---|---|---|
| DateParse.Number | scripts/process.py:52 | a numeric field is read exactly when the digit run at the front has the allowed length (1–2, or 4 for the year); the text splits into that numeral and the rest; the value read is the numeral's decimal value, below 10 to the power of the longest allowed length |
| DateParse.NumeralValue | scripts/process.py:52 | a number with at most w digits reads back from its w-digit numeral |
| DateParse.NumeralOfDecimal | scripts/process.py:52 | every digit string is the numeral of its own value, at its own length, leading zeros included |
| DateParse.MatchFields | scripts/process.py:52 | the fields of every match fit the pattern: day, month, hour, minute and second below 100, the year below 10000 |
| DateParse.RenderMatches | scripts/process.py:52 | the pattern reads back the six fields of any rendering that writes each field with one or two digits and the year with four |
| DateParse.MatchedWidths | scripts/new_process.py:32 | every text the pattern accepts is the rendering of the fields it read, with the one- or two-digit widths found in the text |
| DateParse.MatchFieldsIff | scripts/process.py:52 | the pattern reads the fields dt from a text exactly when the text is dt written with one or two digits per field, four for the year, and the separators `/`, ` ` and `:` |
| DateParse.ParseStrict | scripts/process.py:52 | a value parses exactly when the pattern matches and the fields form an existing calendar date with a 24-hour time; the result is the six fields the pattern matched |
| DateParse.StrictSeconds | scripts/process.py:52 | a value converts exactly when it parses strictly and the instant fits pandas' nanosecond timestamp range; the result is the seconds count of the parsed fields |
| DateParse.StrictSecondsClock | scripts/process.py:52 | the hour, minute and second of a converted timestamp are the ones written in the text |
| DateParse.StrictSecondsOrdered | scripts/new_process.py:39 | two converted timestamps are ordered, and equal, exactly as the dates and times written in the texts |
| DateParse.ParseFormat | scripts/process.py:52 | for every zero-padded `DD/MM/YYYY HH:MM:SS` text, the parser accepts it exactly when the fields form a valid date and time, and then returns exactly those six fields |
| DateParse.ParsedIsFormat | scripts/new_process.py:32 | a 19-character value that parses strictly is the zero-padded text of the fields returned |
| DateParse.ConvertColumn | scripts/new_process.py:32 | a column converts exactly when every value converts; the result has the column's length and element i is the conversion of value i |
| DateParse.ConvertWithFallback | scripts/process.py:50-65 | the strict values are used whenever every value parses strictly; the fallback's values are used only when some strict parse fails; the conversion fails exactly when both the strict pattern and the fallback fail on some value |
| Calendar.YearLength | scripts/process.py:52 | a year has 365 or 366 days, 366 exactly in leap years |
| Calendar.DaysInMonth | scripts/process.py:52 | a month has 28 to 31 days, 29 exactly for February of a leap year |
| Calendar.YearStep | scripts/process.py:52 | the day count of 1 January grows by the year's length from one year to the next |
| Calendar.DaysFromCivil | scripts/process.py:52 | the day number of a valid date lies within the span of day numbers of its year |
| Calendar.ToSeconds | scripts/process.py:52 | the seconds count divided by 86400 is the day number of the date, and the remainder is the seconds elapsed on the clock that day |
| Calendar.DaysOrdered | scripts/process.py:52 | an earlier valid date has a smaller day count |
| Calendar.ToSecondsOrdered | scripts/process.py:52 | for valid dates and times, field-wise chronological order holds exactly when the seconds counts are ordered, and equal fields exactly when equal counts |
| Calendar.ClockFields | scripts/process.py:52 | the hour, minute and second read back from the seconds count are the written fields |
| Calendar.HourOfDay | scripts/process.py:85 | the clock hour of any timestamp is in 0..23 |
| Ordering.StrLtIrreflexive | scripts/process.py:71 | no label sorts before itself |
| Ordering.StrLtTransitive | scripts/process.py:71 | the order on labels is transitive |
| Ordering.StrLtTotal | scripts/process.py:71 | any two different labels are ordered one way or the other |
| Ordering.SortedDistinct | scripts/process.py:95 | the group keys are strictly increasing and are exactly the labels that occur |
| Ordering.IncreasingUnique | scripts/new_process.py:60 | two strictly increasing key sequences with the same members are equal |
| Reshape.Melt | scripts/process.py:68 | the long table has rows × subject-columns observations; observation k pairs the timestamp of row k mod rows with the label of column k div rows and that cell's value |
| Reshape.MeltHasEveryCell | scripts/new_process.py:36 | the cell in row i and column j appears at position j × rows + i |
| Reshape.ObsLeTransitive | scripts/process.py:71 | the (MouseID, Datetime) order is transitive |
| Reshape.ObsLeTotal | scripts/process.py:71 | any two observations are comparable in the (MouseID, Datetime) order |
| Reshape.SortObs | scripts/process.py:71 | the sorted table is ascending in (MouseID, Datetime) and is a permutation of the melted table |
| Reshape.InsertObs | scripts/new_process.py:39 | inserting into a sorted table keeps it sorted and adds exactly that observation |
| Hourly.HourStart | scripts/process.py:78 | a bucket start is a multiple of 3600 seconds, at or before the timestamp and less than an hour before it |
| Hourly.Earliest | scripts/process.py:74-81 | the subject's earliest timestamp belongs to one of its readings and is at or before all of them |
| Hourly.Latest | scripts/process.py:74-81 | the subject's latest timestamp belongs to one of its readings and is at or after all of them |
| Hourly.Buckets | scripts/new_process.py:42-49 | bucket k starts k hours after the first and holds the subject's readings in [start, start + 3600) |
| Hourly.Resample | scripts/process.py:74-81 | a subject with readings gets at least one bucket; the first starts at the hour of its earliest reading and the last at the hour of its latest; starts are consecutive hours; each bucket holds the sum of the subject's readings in its hour |
| Hourly.Keys | scripts/process.py:77 | the groups are visited in strictly increasing label order, one for each subject with readings |
| Hourly.Aggregate | scripts/process.py:74-81 | every bucket start has zero minutes and seconds, and every bucket belongs to a subject with readings |
| Hourly.SubjectRows | scripts/new_process.py:42-49 | a subject's rows in the hourly table are its resampled series, or none if it has no readings |
| Hourly.AggregateOrdered | scripts/process.py:74-81 | the hourly table is strictly ordered by (MouseID, hour), so no (MouseID, hour) pair appears twice |
| Hourly.ObservationBucketed | scripts/process.py:74-81 | every reading's own hour has a bucket for its subject |
| Hourly.ResampleEmptyHour | scripts/new_process.py:42-49 | a bucket of a subject's series that holds none of its readings is 0 |
| Hourly.EmptyHourIsZero | scripts/process.py:74-81 | a row of the hourly table whose hour holds no reading of its subject is 0 |
| Hourly.BucketsSum | scripts/process.py:79 | consecutive buckets together hold the subject's readings over their whole span |
| Hourly.ResampleConserves | scripts/process.py:79 | a subject's series sums to the subject's total revolutions |
| Hourly.SubjectTotalConserved | scripts/new_process.py:47 | a subject's rows in the hourly table sum to its total revolutions, also when it has none |
| Hourly.TotalConserved | scripts/process.py:74-81 | the hourly table sums to the revolutions of the whole long table |
| Hourly.SumInPermutation | scripts/process.py:71 | reordering the readings leaves every window sum unchanged |
| Hourly.ResampleIgnoresOrder | scripts/new_process.py:39-49 | a subject's series depends only on which readings there are |
| Hourly.AggregateIgnoresOrder | scripts/process.py:71-81 | the hourly table of any permutation of the long table is the same, so the sort does not change it |
| Enrich.LabelPeriod | scripts/process.py:84-85 | the label is "Day" or "Night", and "Day" exactly when the clock hour is 7 to 18 |
| Enrich.PeriodOfDateTime | scripts/process.py:84-85 | the label of a parsed value is decided by its written hour field alone |
| Enrich.HourOfHourStart | scripts/process.py:87 | the bucket start has the same clock hour as every timestamp in the bucket |
| Enrich.PeriodWithinHour | scripts/process.py:87 | a bucket's label equals the label of every reading in it |
| Enrich.ReadingLabelled | scripts/process.py:87 | every reading lies in a row of its subject and hour whose label is the reading's own period |
| Enrich.Meters | scripts/new_process.py:52 | metres are never negative and are zero exactly for zero revolutions |
| Enrich.MetersMonotone | scripts/new_process.py:52 | more revolutions never give fewer metres |
| Enrich.Derive | scripts/process.py:84-87 | the Period cell is "Day" or "Night", and "Day" exactly when the bucket's clock hour is 7 to 18; the Meters cell is never negative and is zero exactly for zero revolutions |
| Enrich.AddColumn | scripts/process.py:87 | the added column leaves every row's MouseID, Datetime and Revolutions as they were and gives each row its own derived value |
| Enrich.DropColumn | scripts/new_process.py:52 | removing the added column gives back the hourly table |
| Enrich.RowsOf | scripts/new_process.py:60 | a group holds exactly the rows with its MouseID |
| Enrich.RowsOfAddColumn | scripts/new_process.py:52-60 | grouping after adding the column equals adding the column after grouping |
| Enrich.SubjectGroup | scripts/new_process.py:60-63 | each subject's group is its hourly series with the added column |
| Enrich.MetersOfSum | scripts/new_process.py:52 | the Meters column sums to the metres of the summed revolutions |
| Enrich.MetersConserved | scripts/new_process.py:52 | a subject's metres in the hourly table are the metres of all its readings |
| Text.SkipSpaces | scripts/process.py:41 | the leading whitespace ends at the first position that is not whitespace; everything before it is whitespace |
| Text.SkipSpacesBack | scripts/process.py:41 | the trailing whitespace starts after the last position that is not whitespace; everything after it is whitespace |
| Text.Strip | scripts/process.py:41 | the result neither starts nor ends with whitespace |
| Text.StripCut | scripts/process.py:41 | the result is cut out of the label by removing whitespace at both ends only |
| Text.StripTrimmed | scripts/process.py:41 | a label without surrounding whitespace is left unchanged |
| Text.StripIdempotent | scripts/process.py:41 | stripping twice is stripping once |
| Text.StripAll | scripts/process.py:41 | every label is replaced by its stripped form, in place and order |
| Text.RenameLabel | scripts/new_process.py:28 | exactly the columns labelled with the old name get the new one; all other labels are unchanged |
| Pipeline.ConvertOutcome | scripts/new_process.py:32 | a missing-column error exactly when no column is labelled "Datetime"; success exactly when the first column alone has that label and the whole column converts, and then the converted column, one timestamp per row; a date error in every other case |
| Pipeline.HourlyTable | scripts/process.py:68-87 | the output table is the hourly aggregate of the unsorted long table with the column added, so the sort does not change it |
| Pipeline.FileName | scripts/new_process.py:62 | the file name is the MouseID followed by ".csv" |
| Pipeline.Groups | scripts/new_process.py:60-62 | each group is named after its MouseID and holds exactly that MouseID's rows, and the groups come in strictly increasing MouseID order |
| Pipeline.ProcessColumns | scripts/process.py:41-46 | one label per column, and the first label is "Datetime" |
| Pipeline.NewProcessColumns | scripts/new_process.py:28 | one label per column; a label becomes "Datetime" exactly when it was "Time" or "Datetime"; every label other than "Time" is unchanged |
| Pipeline.Run | scripts/new_process.py:32-63 | a run fails exactly when the date conversion fails, with its error, or when the conversion succeeds and a column is labelled "Revolutions", with the melt error |
| Pipeline.GroupsOf | scripts/new_process.py:60-62 | one file per key, named after it and holding that key's rows |
| Pipeline.WideFrame.constructor | scripts/new_process.py:18 | the frame starts with the labels, timestamp texts and counts as read |
| Pipeline.WideFrame.StripColumnNames | scripts/process.py:41 | every label is stripped; the data is unchanged |
| Pipeline.WideFrame.RenameColumns | scripts/process.py:44-46 | every column with the given label is relabelled; the data is unchanged |
| Pipeline.WideFrame.ConvertDatetime | scripts/process.py:50-65 | the timestamps become the converted column, or the error is returned and nothing changes |
| Pipeline.WriteSubjectFiles | scripts/new_process.py:60-63 | the loop writes exactly the groups, one per distinct MouseID in increasing order |
| Pipeline.RunProcess | scripts/process.py:41-114 | the script's result is its specification: strip, rename the first label, strict then fallback parse, melt, sort, hourly sums, Period, groups |
| Pipeline.RunNewProcess | scripts/new_process.py:28-79 | the script's result is its specification: rename "Time", strict parse, melt, sort, hourly sums, Meters, groups |
| RunProperties.ProcessColumnsClean | scripts/process.py:41-46 | after cleanup no label has surrounding whitespace, the first is "Datetime", and every other is its stripped original unless that equals the first one's stripped label |
| RunProperties.ProcessDatetimePlacement | scripts/process.py:44-46 | there is always a "Datetime" column, and it is the only one exactly when no other label strips to the first label or to "Datetime" |
| RunProperties.NewProcessDatetimePlacement | scripts/new_process.py:28 | "Datetime" exists exactly when some label is "Time" or "Datetime", and is only the first column exactly when only the first label is one of those |
| RunProperties.ConvertChain | scripts/process.py:50-65 | with a single "Datetime" column first, the conversion fails exactly when the strict pattern and the fallback each fail on some value, and yields the strict values when all of them parse |
| RunProperties.ProcessDateChain | scripts/process.py:50-65 | when the first label is the only one that is "Datetime" after cleanup, `process.py` stops with a date error exactly when both the strict pattern and the fallback fail on some value, and any other stop is the melt error; the timestamps are the seconds counts of the written dates and times when every value parses strictly, and the fallback's values otherwise |
| RunProperties.NewProcessStrictOnly | scripts/new_process.py:32 | when the first label is the only one that is "Datetime" after the rename, `new_process.py` stops with a date error exactly when some value fails the strict pattern, succeeds exactly when none does and no label is "Revolutions", and its timestamps are the seconds counts of the written dates and times |
| RunProperties.NewProcessMissingColumn | scripts/new_process.py:28-32 | `new_process.py` stops at the missing column exactly when no label is "Time" or "Datetime" |
| RunProperties.OccurrencesOnce | scripts/new_process.py:60 | a key occurs once among the group keys |
| RunProperties.TotalRowsStep | scripts/new_process.py:60-63 | a row lands in as many groups as its MouseID has keys |
| RunProperties.TotalRowsAll | scripts/new_process.py:60-63 | with distinct keys covering every MouseID, the groups hold as many rows as the table |
| RunProperties.FileNameInjective | scripts/new_process.py:62 | different subjects get different file names |
| RunProperties.GroupsDistinct | scripts/new_process.py:60-62 | different groups have different subjects and file names |
| RunProperties.GroupsCover | scripts/new_process.py:60 | there is a group for a MouseID exactly when some row has it |
| RunProperties.GroupsContents | scripts/new_process.py:60-63 | each group is named after its subject and holds exactly the rows of that subject |
| RunProperties.GroupsSize | scripts/new_process.py:60-63 | the groups together hold as many rows as the combined table |
| RunProperties.GroupsPartition | scripts/process.py:95-98 | the groups partition the combined table: one per distinct MouseID, distinct names, exactly the rows of each subject, no row lost or repeated |
| RunProperties.SumAllConcat | scripts/process.py:68 | the revolutions of two tables put together add up |
| RunProperties.MeltColumnTotal | scripts/process.py:68 | a melted subject column carries that column's counts |
| RunProperties.MeltColumnsTotal | scripts/new_process.py:36 | melting the first n subject columns carries their counts |
| RunProperties.MeltTotal | scripts/process.py:68 | the long table carries every count of the wide table once |
| RunProperties.TableConservesCounts | scripts/process.py:68-98 | the hourly table of a melted export sums to all its counts, and each group to its subject's readings |
| RunProperties.TableMetersTotal | scripts/new_process.py:36-52 | the Meters column of a melted export's hourly table sums to the metres of all its counts |
| RunProperties.RunValue | scripts/new_process.py:36-63 | when the conversion succeeds and no label is "Revolutions", the run's combined table is the hourly table of the unsorted long table with the column added, grouped by subject |
| RunProperties.GroupsAreSeries | scripts/process.py:95-98 | each group of the hourly table is its subject's hourly series with the added column |
| RunProperties.RunSeries | scripts/new_process.py:36-63 | in a successful run each subject's file is its hourly series, from its first reading's hour to its last, with the added column |
| RunProperties.GroupsConserve | scripts/process.py:74-98 | the hourly table sums to all readings and each group to its subject's readings |
| RunProperties.RunConservesCounts | scripts/process.py:68-98 | a successful run carries every count of the export into the combined table once, and each subject's file sums to that subject's readings |
| RunProperties.NewProcessMetersTotal | scripts/new_process.py:52-56 | the Meters column of `new_process.py` sums to the metres of every count of the export |
| RunProperties.ProcessPeriods | scripts/process.py:84-91 | every row of `process.py`'s output is labelled with the period of its own hour |

## Left out

- Reading the file (`pd.read_csv`, the separator and skip-row fallbacks): the model starts from the parsed table. It assumes at least one column, because the reader raises on a file without a header.
- Directory creation, CSV writing, console diagnostics and plotting: these are I/O and rendering. A written file is modelled by its subject, its name and its rows.
- The day-first auto-detection fallback of `process.py` relies on heuristics that cannot be seen. It is a parameter that converts each value or fails.
- DateParse.ParseStrict does not accept everything Python's `strptime` accepts. These inputs are rejected:
  - a day written with a leading space (`" 5"`);
  - several blanks, or other whitespace, between date and time;
  - non-ASCII decimal digits.
- DateParse.ParseStrict rejects seconds 60 and 61. pandas' own parser for an explicit format matches them and does not check the second, so pandas may accept such values where the model reports a date error.
- DateParse.StrictSeconds: the text "NaT" and empty values, which pandas turns into missing timestamps, are treated as failures.
- DateParse.Representable bounds the timestamp range at whole seconds. It does not model the nanosecond edge of pandas' range.
- Pipeline.ConvertOutcome: a single "Datetime" column that is not the first always fails with a date error. That case only arises in `new_process.py`: from a "Time" column that is not the first, or from a later column already labelled "Datetime", while the first label is neither. In pandas such a column holds counts: numbers fail, and a column with no rows or only empty cells converts to missing timestamps.
- Pipeline.WideFrame.ConvertDatetime keeps the converted timestamps beside the original text instead of overwriting the column in place. It does not model column dtypes.
- Empty cells: only their effect on sums is modelled, as 0, which is what pandas' `sum` does. NaN propagation and the float dtype of a column with missing cells are not modelled.
- Enrich.Meters is exact real arithmetic. IEEE float rounding of `Revolutions * 0.060198` is not modelled.
- Reshape.SortObs guarantees the order and the permutation but not the relative order of equal (MouseID, Datetime) keys. The hourly table does not depend on that order (Hourly.AggregateIgnoresOrder).
- Pipeline.Run follows pandas 2 for a column labelled "Revolutions". pandas before 2.0 only warns and melts such a table; that behaviour is not modelled.
- Time zones and daylight saving: timestamps are naive, as in the scripts.
