# Road-traffic-accident dashboard: data preparation and row rules

This project models the logic core of a Streamlit dashboard over the
Ethiopian road-traffic-accident dataset, and proves properties of that core.
The dashboard comes in an English and a Chinese version. Its core is a small
pure pipeline. It turns the raw accident table into a cleaned table, and a
few row-level rules then consume that table.

The pipeline appears in three near-identical variants (four functions):

- `clean_and_engineer_features` in `utils/prep.py` runs each derivation only
  when its source column exists. This is module `Prep`.
- `load_data` in `utils/io.py` and its copy in `app.py` read every source
  column unguarded, so a missing column raises `KeyError`. This is module `Loader`,
  functions `LoadData` and `Load`.
- `load_data` in `Chinese.py` also maps each English severity to its Chinese
  label before the cast. This is `Loader.LoadDataZh` and `Loader.LoadZh`.

Every copy runs the same steps:

1. Canonicalise headers (`Headers`): delete every character outside
   `[A-Za-z0-9_]`, then lower-case.
2. Clear sentinels (`Sentinels`): the exact strings `Unknown`, `unknown`,
   `na`, `-1` and `Other` become missing.
3. Parse `time` as `%H:%M:%S` (`Parsing`), and derive `hour` from it.
4. Read `casualty_count` numerically from `number_of_casualties`.
5. Cast day, severity, age band and education onto fixed ordered lists
   (`Categories`).

The dashboards then apply a few rules to the cleaned table:

- the sidebar's area options and the severity-and-area row filter (`Dashboard`);
- the severe/fatal rate (`Dashboard`, `Overview`);
- group counts and top-k selections that feed the charts (`Groups`, `DeepDives`).

Modelling choices:

- A table (`Tables.Table`) is a header sequence and a sequence of positional
  rows. Two columns may share a name.
- A lookup finds the first column with the name. Assigning to an existing
  name overwrites that column in place. Assigning to a new name appends a
  column at the right end.
- A cell (`Cells.Cell`) is one of:
  - missing;
  - raw text;
  - a parsed time of day;
  - an integer;
  - an ordered category: a label and its rank in the category list.
- The unguarded loaders return `Result`. A `Failure(KeyError(name))` names
  the first required column the table lacks, where pandas would raise.
- The dashboard rules require the columns they read to be present.

Two consequences of the header rule are worth stating:

- The loader makes no collision check. Two raw headers that canonicalise
  to the same key are both kept (`Headers.CollisionIsKept`).
- Underscores survive canonicalisation, so `Number_of_Casualties` becomes
  `number_of_casualties` (`Headers.CanonChar`).

## Model

| member | source | states |
|---|---|---|
| Headers.Canon | utils/prep.py:15 | The canonical key holds only `[a-z0-9_]` characters and is never longer than the raw header. |
| Headers.CanonHeaders | utils/io.py:8 | The header keeps its number and order of columns. Each header is canonicalised in place. |
| Headers.CanonIdempotent | utils/prep.py:15 | Canonicalising a canonical header changes nothing. |
| Headers.CanonFixedPoint | app.py:22 | A header is left unchanged by canonicalisation iff it consists only of `[a-z0-9_]`. |
| Headers.CanonKeepsWordChars | utils/prep.py:15 | The key has one character per ASCII letter, digit or underscore of the raw header, in order. It is a subsequence of the lower-cased raw header. |
| Headers.CanonConcat | Chinese.py:22 | Canonicalisation acts character by character: it distributes over concatenation. |
| Headers.CanonChar | utils/prep.py:15 | A single character is kept, lower-cased, iff it is in `[A-Za-z0-9_]`. Otherwise it is deleted, so underscores survive and spaces do not. |
| Headers.CollisionIsKept | utils/io.py:8 | `Time` and `time ` both become `time`, and both columns are kept: no collision check is made. |
| Sentinels.ClearCell | utils/prep.py:16 | A cell becomes missing iff it was missing or is text equal to one of the five sentinels. Any cell not made missing is unchanged. |
| Sentinels.ClearTable | utils/io.py:9 | Every cell of every column is cleared. The header, the row count and the row shape are kept. |
| Sentinels.ClearTableLeavesNoSentinel | app.py:24 | No cell of the cleared table is a sentinel string. |
| Sentinels.ClearTableIdempotent | utils/prep.py:16 | Clearing twice equals clearing once. |
| Sentinels.SentinelsMatchExactly | Chinese.py:23 | Matching is whole-string and case-sensitive: `Unknowns`, `NA` and `other` stay, while `-1` and `na` become missing. |
| Parsing.ParseTime | utils/prep.py:18 | A successful parse yields hour < 24, minute < 60 and second < 60. |
| Parsing.ParseFormatTime | utils/io.py:10 | Every valid time of day, written as `HH:MM:SS`, parses back to itself. |
| Parsing.ParseTimeOutOfRange | app.py:26 | `25:61:00` is rejected: a field outside its range makes the time missing. |
| Parsing.ParseTimeExample | Chinese.py:24 | `08:15:00` parses to 8:15:00. |
| Parsing.ParseInt | utils/prep.py:33 | A parsed number comes from a non-empty string. It is negative only when the text starts with `-`. |
| Parsing.ParseShowInt | utils/prep.py:33 | Every integer written in decimal is read back as itself. |
| Parsing.ParseIntRejects | utils/io.py:22 | Text containing any character other than a digit (or a leading sign) is not a number. |
| Categories.Cast | utils/prep.py:20-39 | A cast value is a category iff its label is in the list, and it keeps that label. Anything else, missing included, becomes missing. The rank is the label's position in the list. |
| Categories.CastIdempotent | utils/io.py:11-20 | Casting an already-cast value onto the same list changes nothing. |
| Categories.TranslateSeverity | Chinese.py:32-37 | The mapped value is text iff the input's label is one of the three English severities. Everything else, missing included, becomes missing. |
| Categories.SeverityMapFollowsOrder | Chinese.py:32-36 | The map's keys are exactly the English severities, and the k-th English severity maps to the k-th Chinese one. |
| Categories.TranslateKeepsRank | Chinese.py:37-42 | Mapping to Chinese and then casting onto the Chinese order equals casting onto the English order and then relabelling by rank. Ranks 0, 1 and 2 are kept. |
| Categories.CriticalIsTopTwoRanks | app.py:7-8 | On a cast severity, membership in the critical list is exactly rank ≥ 1. |
| Categories.CriticalIsTopTwoRanksZh | Chinese.py:7-8 | The same holds for the Chinese order and critical list. |
| Tables.MapColumn | utils/prep.py:32-33 | `df[dst] = f(df[src])`: `dst` holds `f` of `src` in every row. Every other column keeps its cells. A new name is appended at the end. |
| Tables.Guarded | utils/prep.py:35-36 | The row count is kept. The header gains `dst` at the end exactly when `src` exists and `dst` does not. When `src` exists, `dst` holds `f` of `src` in every row. Every other column keeps its cells, so an absent `src` leaves the table unchanged. |
| Tables.MapColumnCommute | utils/io.py:16-21 | Two column updates that do not touch each other's columns can be swapped. This is why deriving `hour` after the casts equals deriving it first. |
| Prep.Normalize | utils/prep.py:15-16 | The header is canonicalised and every cell cleared. The row count is kept. |
| Prep.TimeCell | utils/prep.py:18 | A time cell is a valid time of day iff the text parses, and then it is the parsed time. Otherwise it is missing. |
| Prep.HourCell | utils/prep.py:19 | The hour is missing iff the time is missing. The hour of a valid time is a number in 0..23. |
| Prep.TimeAndHourOfFormatted | utils/prep.py:18-19 | A time of day written as `HH:MM:SS` is parsed back to that time, and its derived hour is the hour it was written with. |
| Prep.CasualtyCell | utils/prep.py:33 | The numeric reading is a number or missing. A number is left as it is. Text is a number iff it parses as an integer, and then it is that integer. Any other cell, missing included, becomes missing. |
| Prep.CleanAndEngineer | utils/prep.py:6-40 | The row count is preserved and the result stays rectangular. |
| Prep.PrepHeader | utils/prep.py:6-40 | The output header is the canonical header, plus `hour` when `time` exists and `hour` does not. `casualty_count` is added likewise when `number_of_casualties` exists. Nothing else is added. |
| Prep.PrepNoTimeNoHour | utils/prep.py:17-19 | When no raw header canonicalises to `time` or to `hour`, no `hour` column appears. |
| Prep.PrepTimeAndHour | utils/prep.py:17-19 | `time` is the parse of the cleared text. `hour` is missing iff `time` is missing, and otherwise equals the parsed hour, in 0..23. |
| Prep.PrepCategories | utils/prep.py:20-39 | Each ordered field that is present holds the cast of its cleared value onto its fixed list. |
| Prep.PrepCasualties | utils/prep.py:32-33 | `casualty_count` exists and holds the numeric reading of the cleared `number_of_casualties`. |
| Prep.PrepUntouched | utils/prep.py:6-40 | A column the pipeline does not write keeps its cleared raw cells, at the same position. |
| Prep.CasualtyReading | utils/prep.py:16-33 | A raw `-1` is already missing when the numeric reading sees it. Any other integer is read as itself. |
| Loader.Assign | utils/io.py:10 | An unguarded assignment fails iff its source column is absent, with a `KeyError` naming it. On success the row count is kept, the header is unchanged or gains `dst` at the end, `dst` holds `f` of `src` in every row, and every other column keeps its cells. |
| Loader.LoadData | utils/io.py:5-27 | A successful load keeps the row count and yields a rectangular table. |
| Loader.LoadFailure | utils/io.py:8-26 | The load fails iff a required column is absent after canonicalisation. The error names the first absent one in reading order. |
| Loader.ReadTailFailure | app.py:41-47 | The last three reads fail iff `number_of_casualties`, `age_band_of_driver` or `educational_level` is absent. The error names the first such column. |
| Loader.LoadMatchesEngineer | app.py:17-49 | When the unguarded load succeeds, it equals the guarded pipeline on the same normalised table. |
| Loader.LoadAllPresent | app.py:17-49 | When all six source columns are present, the unguarded load succeeds with the guarded pipeline's table. |
| Loader.LoadMatchesPrep | utils/prep.py:15-39 | When `load_data` succeeds on a raw table, it equals `clean_and_engineer_features` on that table. |
| Loader.LoadDataZh | Chinese.py:18-53 | A successful Chinese load keeps the row count and yields a rectangular table. |
| Loader.LoadZhMatchesLoad | Chinese.py:32-44 | The Chinese load fails exactly when the English one does, with the same error. Otherwise it is the English result with the severity column relabelled by rank. |
| Loader.LoadDataZhMatchesLoadData | Chinese.py:18-53 | This is the same statement for raw tables: the same failure with the same error, or the English result relabelled by rank. |
| Loader.LoadedSeverity | app.py:33-37 | Every severity in a loaded table is missing or an English severity tagged with its rank. |
| Loader.LoadedSeverityZh | Chinese.py:37-42 | Every severity in a table from the Chinese loader is missing or a Chinese severity tagged with its rank. |
| Groups.GroupSizes | sections/deep_dives.py:14 | `groupby(...).size()` computed by accumulating one unit per present key. |
| Groups.GroupSizesSpec | sections/deep_dives.py:14 | The keys are distinct, and a key is listed iff it occurs. Each count is that key's number of occurrences, so it is ≥ 1. The counts sum to the number of present keys. |
| Groups.RegroupCounts | sections/deep_dives.py:104 | After regrouping by `f`, keys are distinct. The keys are exactly the images under `f` of the present keys, both directions. Each total is the number of rows whose present key `f` sends to it. |
| Groups.TopKDominates | sections/deep_dives.py:105 | A line whose key `nlargest` does not keep counts no more than any kept line. |
| Groups.RegroupTopK | sections/deep_dives.py:104-105 | A present key's image is listed after regrouping. If `nlargest` does not keep it, its total is no more than any kept total. |
| Groups.TopKCountsDominate | sections/deep_dives.py:120 | A present key that `value_counts().head(k)` leaves out occurs no more often than any kept key. |
| Groups.SortDesc | app.py:184 | The ordering behind `nlargest`: the sorted count is a permutation of the input in non-increasing count order. |
| Groups.TopKSpec | app.py:184-185 | `nlargest(k)` keeps `min(k, n)` lines in non-increasing order. Kept and dropped lines together form the input. Every dropped line counts no more than any kept line. |
| Dashboard.Uniques | app.py:75 | The distinct labels: no duplicates, and a value is listed iff some cell carries it as a label. |
| Dashboard.AreaOptionsSpec | Chinese.py:78 | The area options have no duplicates and no missing value. A value is an option iff some row's area carries it. |
| Dashboard.KeepRows | app.py:90-93 | A boolean mask keeps the header and keeps exactly the rows satisfying it, in their original order. Each kept row appears as often as in the input. |
| Dashboard.SelectRows | app.py:90-93 | A row is kept iff its severity is selected and its area is selected, so a missing value never passes. The result is an order-preserving subsequence, and each selected row appears as often as in the input. |
| Dashboard.SelectMonotone | Chinese.py:93-96 | Widening either selection never loses a row. |
| Dashboard.SelectDefault | app.py:67-93 | With all severities and all area options selected, exactly the rows with a present severity and a present area are kept. |
| Dashboard.SevereSubset | sections/deep_dives.py:66 | The severe subset is the order-preserving subsequence of rows whose severity is critical. Each such row appears as often as in the input. |
| Dashboard.CriticalRate | app.py:128 | The rate lies between 0 and 100 percent, and it is 0 for an empty table. |
| Dashboard.CriticalRateRanks | app.py:128 | On a cast table the rate is 100 × the rows of severity rank 1 or 2, over the row count. |
| Dashboard.CriticalRateRanksZh | Chinese.py:131 | The same holds for the Chinese dashboard and its critical severities. |
| Overview.Show | sections/overview.py:3-9 | The total is the row count. Without `casualty_count` the average is 0. Without rows or without `accident_severity` the rate is 0. The rate lies in [0, 100]. |
| Overview.ShowMatchesDashboard | sections/overview.py:9 | With a severity column, the overview's rate is the dashboard's rate for the English critical severities. |
| Overview.Mean | sections/overview.py:7 | The mean is NaN (`None`) iff no cell is numeric. Otherwise its denominator is positive. |
| Overview.MeanBounds | sections/overview.py:7 | When every numeric cell lies in [lo, hi], the numeric sum lies between lo and hi times the numeric count, and the mean `Mean` returns, when there is one, lies in [lo, hi]. |
| DeepDives.ColumnKeys | sections/deep_dives.py:120 | A row has a key iff its value is present, and the key is that value. |
| DeepDives.PairKeys | sections/deep_dives.py:14 | A row has a pair key iff both values are present, and the key is the pair. |
| DeepDives.GroupCount2Spec | sections/deep_dives.py:14 | There is one line per distinct observed pair of present values. Each count is that pair's number of rows, so it is ≥ 1. The counts sum to the rows with both values present. |
| DeepDives.KeepTopCollisions | sections/deep_dives.py:51 | A line of the hour-by-type count is kept iff its collision type is among the top types. Kept lines are an order-preserving subsequence. |
| DeepDives.TopCollisionsSpec | sections/deep_dives.py:49-50 | Exactly min(5, number of types) types are kept. The totals list exactly the types of the rows with hour and type present, each with its number of such rows. The type of any such row that is not kept totals no more than every kept type. |
| DeepDives.KeepTopCauses | sections/deep_dives.py:106 | A line of the cause-by-severity count is kept iff its cause is among the top causes, in order. |
| DeepDives.TopCausesSpec | sections/deep_dives.py:103-105 | Exactly min(10, number of causes) causes are kept. The totals list exactly the causes of the rows with a present severity, each with its number of such rows. The cause of any such row that is not kept totals no more than every kept cause. |
| DeepDives.CollisionFrequenciesSpec | sections/deep_dives.py:120 | There are exactly min(5, number of types) lines, largest count first. Each line counts the rows of its collision type. Any collision type that occurs but is not kept occurs no more often than every kept type. |

## Left out

- Reading the CSV file and the Streamlit cache are left out: they are I/O and framework plumbing. The raw table is a parameter.
- Streamlit widgets, layout, images and narrative text are left out, including the intro and conclusion sections. They have no behaviour to state.
- Altair chart construction and styling are left out (`utils/viz.py` is not part of this model). Chart sort orders are presentation.
- The casualty mean and standard deviation in floating point, the `max(0, mean - std)` clamp, and the `:.1f` / `:.2f` formatting are left out. The rate and the mean are exact fractions (`Dashboard.Ratio`).
- Prep.CasualtyCell reads decimal integers only. `pd.to_numeric` also accepts floats and exponents, which are not modelled. The dataset's casualty counts are integers.
- Parsing.ParseTime accepts one- or two-digit fields. The exact digit-width rules of the library's `%H:%M:%S` parser are not modelled.
- The raw CSV is modelled as text or missing cells. Column type inference at read time is not modelled.
- Groups.TopK breaks ties among equal counts by position in the group count. The library's own tie order in `nlargest` and `value_counts` is not modelled. Only the size, ordering and dominance properties are stated.
- Groups.GroupSizes lists groups in reverse order of last appearance (the accumulation folds from the right and appends new keys). The library sorts groupby keys; the order is not part of any stated property.
- Dashboard.AreaOptionsSpec does not state the order of the options (first appearance in `Uniques`).
- Prep.PrepUntouched is stated on `Engineer(Normalize(raw))`, which is the body of `CleanAndEngineer`.
- Columns that share a name are looked up by their first occurrence. The dataframe library's duplicate-label behaviour (returning several columns) is not modelled.
- The deep-dive charts that draw a two-key group count with no selection (area by severity, hour by severity, weather by surface) are modelled by `DeepDives.GroupCount2`. The single-column counts of the severe subset (by age band, experience and sex) are `Groups.GroupSizes` over `DeepDives.ColumnKeys`. Neither is restated per chart.
