# SCANPLOT ingestion core in Dafny

SCANPLOT reads what the SCANTEC verification batch job writes and turns it into in-memory collections:

- **Statistics tables.** Text tables, one per statistic and experiment, are read by `get_dataframe`.
- **Field files.** Sequential unformatted binary files are read by `get_dataset`. Each holds one record per lead time and variable.

Both functions do the following:
- fan out over statistics × experiments, optionally also over every day of the evaluation period (`series`);
- build each file name from the statistic, the experiment, the two `%Y%m%d%H` stamps, a kind letter (`T` or `F`) and the extension `tExt`;
- look the name up in the output directory and register what exists under its base name, in insertion order;
- optionally name a pickle cache file.

`get_dataset` also does three more things:
- It derives the grid size and the number of lead times from the configuration, truncating like `np.int`.
- It decodes each record: reshape in Fortran order, replace the `-999.9` sentinel with NaN, transpose to latitude × longitude.
- It stamps the lead times with the evaluation period's date range.

The plotting functions `plot_lines`, `plot_scorecard` and `plot_fields` take those registry keys apart again with fixed-position slices and `split`. They choose table columns by lower-casing variable codes for current (`scan`) tables, select tables with a substring filter, and build figure file names with `str.replace`.

The model has one module per concern:

- **Wrappers**: `Option` and `Result`.
- **PyStr**: the Python string operations on keys, namely slices with clamped bounds, `find`, `split(sep)[0]` and `[1]`, `in`, `replace`, and ASCII `lower`/`upper`.
- **Paths**: `os.path.join` and `ntpath.basename`.
- **Options**: the shared module-level defaults (`class Globals`), and how an explicit `tExt` overwrites its default.
- **Geometry**: the configuration, grid and lead-time counts, and `pd.date_range`.
- **Naming**: file names, the loops that fan out over them, and cache names.
- **Registry**: the insertion-ordered dictionary, as a value (`Dict`) and as a mutable object (`class Store`), plus what a lookup pass over a list of names collects.
- **Tables**: `get_dataframe`.
- **Records**: decoding one record. `Reshape` fills an `array2` in Fortran order and `MaskInPlace` masks it in place.
- **Fields**: reading a field file lead time by lead time, collecting all field files with their error and log behaviour, and `get_dataset`.
- **Keys**: the key slicing, column casing, table selection and figure names of the plotting functions.

Things the source takes from the outside world are parameters:

- The file system is a map from path to content; a path is present exactly when it is a key.
- `strftime("%Y%m%d%H")` is a function `fmt` from whole hours to strings. Where lemmas need it, `fmt` is constrained to ten digits.
- A table's parsed content is an opaque type parameter `V`.
- A field file is its sequence of records.
- Console messages are returned as a log.

## Model

| member | source | states |
|---|---|---|
| Options.Globals.constructor | data_structures.py:73-90 | the shared defaults start as period mode, `scan` naming and no cache file |
| Options.Globals.UseExt | data_structures.py:80-85 | an explicit `tExt` is used and becomes the new shared default; otherwise the shared default is used unchanged |
| Options.Globals.Resolve | data_structures.py:196-213 | each option is the keyword argument if given, else the shared default; only `tExt` is written back |
| PyStr.Slice | plot_functions.py:1133-1137 | a slice is never longer than the string; within bounds it is the characters from `i` up to `j`, and an end past the string stops at the end |
| PyStr.Find | plot_functions.py:230 | `find` gives -1 exactly when the text never occurs; otherwise a position where it occurs, with no earlier occurrence |
| PyStr.ContainsFind | plot_functions.py:173 | `in` holds exactly when `find` finds the text |
| PyStr.Head | plot_functions.py:209 | `split(sep)[0]` is the text before the first separator, or the whole string without one |
| PyStr.SplitAtChar | plot_functions.py:1129-1131 | splitting at a character the first part lacks gives that part first and the rest's head second |
| PyStr.HeadKeepsPrefix | plot_functions.py:1129-1134 | a separator that does not start within the first `n` characters leaves them in the head |
| PyStr.ReplaceAll | plot_functions.py:298-300 | `str.replace`: the non-overlapping occurrences of the pattern, found left to right, become the replacement; an empty pattern inserts it around every character |
| PyStr.ReplaceAbsent | plot_functions.py:298-300 | `replace` leaves a string without the pattern unchanged |
| PyStr.ReplaceOnce | plot_functions.py:230-232 | with one occurrence of the pattern, `replace` rewrites exactly that occurrence |
| PyStr.ReplaceSuffix | plot_functions.py:298-300 | a pattern found only as the suffix is replaced there |
| PyStr.ReplaceConcat | plot_functions.py:230-232 | `replace` distributes over concatenation when no occurrence straddles the join |
| PyStr.RemoveChar | plot_functions.py:298-300 | replacing a character by nothing removes every occurrence and shortens the string by their number |
| PyStr.Lower | plot_functions.py:614 | `lower` keeps the length and leaves no capital: each capital becomes the lower-case letter whose capital it is, and every other character is kept |
| PyStr.LowerIdempotent | plot_functions.py:613-616 | lowering twice is lowering once, and a string without upper-case letters is unchanged |
| PyStr.CaseRoundTrip | plot_functions.py:613-616 | lowering loses only case: upper-casing the lowered string is upper-casing the original, and the other way round |
| PyStr.Upper | plot_functions.py:693 | `upper` keeps the length and leaves no lower-case letter: each becomes the capital whose lower case it is, and every other character is kept |
| Paths.Join | data_structures.py:107 | an absolute name is returned as is; otherwise the result ends in the name, preceded by nothing or by a `/`-terminated prefix |
| Paths.BasenameSuffix | data_structures.py:114 | the base name is a suffix of the path containing no separator, and whatever precedes it ends in a separator |
| Paths.BasenameAfterSep | data_structures.py:114 | a plain name after an empty or separator-terminated prefix is the base name |
| Paths.BasenameOfJoin | data_structures.py:107-114 | the registry key of a file looked up under a plain name is that name |
| Paths.Basename | data_structures.py:114 | `ntpath.basename`: the characters after the last `/` or `\` |
| Geometry.Trunc | data_structures.py:221-223 | `np.int` truncates toward zero: within one unit of its argument, on the side of zero |
| Geometry.ResolveDims | data_structures.py:221-252 | the dimensions exist exactly when the analysis step and both resolutions are non-zero and neither point count is negative; they are then the truncated counts; the first failing statement decides the error |
| Geometry.PointsFitDomain | data_structures.py:247-248 | on an increasing axis there is at least one point, the last one is not past the upper bound, and one more step would pass it |
| Geometry.PointsAligned | data_structures.py:247-248 | a domain exactly `k` steps wide has `k + 1` points |
| Geometry.GlobalGridExample | data_structures.py:221-252 | a global 2.5-degree grid with a 48-hour forecast verified every 24 hours gives 144 × 73 points and 3 lead times |
| Geometry.TruncationExamples | data_structures.py:223-248 | truncation, not rounding: a domain narrower than a step has one point; a slightly reversed one has none; a negative horizon gives no lead time |
| Geometry.DateRangeAt | data_structures.py:226 | `date_range` is empty exactly when start is after end; element `k` is `start + k*step`; the last element is not past end and one more step would be |
| Geometry.DateRangeCount | data_structures.py:226 | `date_range` holds `(end - start) / step + 1` stamps when `start <= end`, none otherwise |
| Geometry.DateRangeReach | data_structures.py:226 | `date_range` reaches position `t` exactly when `start + t*step` is not past end |
| Geometry.StampAvailable | data_structures.py:309 | lead time `t` has a stamp exactly when `start + t*step` is within the evaluation period, because the stamps come from the period, not from the forecast horizon |
| Geometry.DateRange | data_structures.py:226 | `pd.date_range(start, end, freq)`: every `step` hours from start while not past end |
| Naming.StatNames | data_structures.py:129-131 | one name per experiment, in order, for a fixed statistic and dates |
| Naming.FanOut | data_structures.py:124-131 | the nested statistic/experiment loops produce `RunNames` |
| Naming.FileNames | data_structures.py:95-131 | the period or the day-stepped loops produce `PlannedNames` |
| Naming.RunNamesLength | data_structures.py:124-131 | one name per statistic × experiment |
| Naming.RunNameAt | data_structures.py:124-131 | name number `i` × (number of experiments) + `j` is the file of statistic `i` and experiment `j`: statistics outer, experiments inner |
| Naming.RunNamesMembers | data_structures.py:124-131 | a name is visited exactly when it is the file of some statistic and experiment of the call |
| Naming.SeriesNamesLength | data_structures.py:97-116 | one name per day × statistic × experiment |
| Naming.SeriesNameAt | data_structures.py:97-116 | days outermost, each day visiting the period names of the one-day period |
| Naming.SeriesVisits | data_structures.py:97-116 | there are `(end - start)/24 + 1` days; the visit of day `k`, statistic `i` and experiment `j` uses the day's stamp twice |
| Naming.SeriesNamesMembers | data_structures.py:97-116 | a series name is visited exactly when it is a period name of one of the days |
| Naming.SeriesOfOneDay | data_structures.py:95-131 | on a one-day period, series and period mode visit the same names |
| Naming.FileNamePlain | data_structures.py:106-107 | with plain statistic, experiment and extension, and digit stamps, a file name holds no directory separator |
| Naming.FileName | data_structures.py:106 | statistic, experiment, `_`, both formatted stamps, the kind letter, `.` and the extension |
| Naming.RunNames | data_structures.py:124-131 | the names of one period run, statistics outer and experiments inner |
| Naming.SeriesNames | data_structures.py:97-116 | the names of a series run: the period names of each day in turn, the day standing for both dates |
| Naming.PlannedNames | data_structures.py:95-131 | the names a call looks up: series or period names by mode |
| Naming.CacheName | data_structures.py:120 | `scantec_ds_` + `table` or `field` + `-series` in series mode + `.pkl` |
| Naming.CacheNamesDistinct | data_structures.py:119-143 | the four cache file names are pairwise different: they differ exactly when the kind or the mode differs |
| Registry.EmptyDict | data_structures.py:93 | the empty registry is well formed and has no entry |
| Registry.Insert | data_structures.py:139 | assignment keeps the registry well formed and updates the entry; a new key goes last in order, an existing key keeps its place |
| Registry.Store.constructor | data_structures.py:93 | a new store holds the empty registry |
| Registry.Store.Put | data_structures.py:139 | storing under a key is `Insert` on the contents |
| Registry.Collected | data_structures.py:124-139 | the registry collected by a lookup pass is well formed |
| Registry.Existing | data_structures.py:136-139 | a name is kept exactly when it is in the list and its path exists |
| Registry.Absent | data_structures.py:375-377 | a name is kept exactly when it is in the list and its path does not exist |
| Registry.CollectedEntries | data_structures.py:124-139 | with plain names, the entries are exactly the existing files under their names, with the contents found there |
| Registry.CollectedOrder | data_structures.py:124-139 | with plain, distinct names, the registry order is the lookup order of the files that exist |
| Tables.IngestTables | data_structures.py:129-139 | the lookup loop's store holds `Collected` for the names |
| Tables.GetDataframe | data_structures.py:73-145 | the registry is `Collected` over the period or series names built with the resolved options; a cache file named after the mode is written exactly when `save` holds; only `tExt` among the shared defaults may change |
| Tables.PlannedPlain | data_structures.py:131 | with plain parts every planned name is plain |
| Tables.PeriodTables | data_structures.py:124-139 | in period mode a key is registered exactly when its table exists and it is the name of some statistic and experiment of the call over the whole period; the value is that file's content |
| Tables.SeriesTables | data_structures.py:95-116 | in series mode the same holds with some day of the period standing for both dates |
| Records.MaskSentinel | data_structures.py:358 | masking keeps the record length |
| Records.MaskSentinelEffect | data_structures.py:358 | after masking no `-999.9` remains; exactly the sentinel values change, to NaN; masking twice is masking once |
| Records.LatLon | data_structures.py:356-367 | the decoded grid has `ydef` rows of `xdef` values |
| Records.FlattenLatLon | data_structures.py:356-367 | reading the grid row by row gives the record back: decoding loses and invents nothing |
| Records.Placement | data_structures.py:356-367 | value `k` of a record lands at latitude `k / xdef`, longitude `k % xdef` (Fortran order, then transpose) |
| Records.Reshape | data_structures.py:356 | the Fortran-order array holds, at longitude `i` and latitude `j`, the value the transposed grid has at `j`, `i` |
| Records.MaskInPlace | data_structures.py:358 | every cell of the array is replaced by its masked value and nothing else changes |
| Records.Transposed | data_structures.py:367 | the transpose has `Length1` rows of `Length0` values, and cell `lat`, `lon` is array cell `lon`, `lat` |
| Records.DecodeRecord | data_structures.py:299-311 | reshape, mask in place and transpose give the lat/lon grid of the masked record |
| Fields.FirstFailureNone | data_structures.py:294-311 | no read fails from position (`t`, `i`) on exactly when every later record exists, has `xdef*ydef` values and has a stamp |
| Fields.FailureAt | data_structures.py:355-365 | what fails first at lead time `t`, variable `i`: a missing record, then a record not of `xdef*ydef` values, then a lead time past the stamps |
| Fields.NoFailure | data_structures.py:294-309 | when nothing fails, every lead time has a stamp |
| Fields.VarsAtKeys | data_structures.py:296-306 | after the first `n` variables of a lead time, the dataset holds the earlier keys and those `n` codes, each bound to the grid of its last record |
| Fields.VarsAtBase | data_structures.py:346-362 | variables left from the previous lead time are all overwritten: the dataset of a lead time does not depend on them |
| Fields.ReadLeadTime | data_structures.py:296-311 | one lead time either stores every variable's decoded record and advances the record cursor by `nvars`, or reports the first failure from that lead time |
| Fields.ReadFieldFile | data_structures.py:292-317 | the read loop computes `ReadFile` |
| Fields.ReadFile | data_structures.py:345-373 | the snapshots of an existing file, or the first failure in reading order; no lead time or no variable is an error |
| Fields.ReadFileOk | data_structures.py:292-317 | reading succeeds exactly when there are lead times and variables, every lead time has a stamp, and the first `tdef*nvars` records exist with `xdef*ydef` values each |
| Fields.ReadFileSteps | data_structures.py:309-317 | a successful read has `tdef` snapshots stamped with the first `tdef` stamps, each holding exactly the variable codes |
| Fields.ReadFileRecord | data_structures.py:294-311 | a variable's grid at lead time `t` is the decoded, masked record `t*nvars + i` |
| Fields.ReadFileConsumes | data_structures.py:294-300 | files that agree on their first `tdef*nvars` records read the same: later records are never read |
| Fields.CodesOf | data_structures.py:259-262 | variable codes are the first element of each entry; the first empty entry stops the call with its index |
| Fields.VariableCodes | data_structures.py:259-262 | the collection loop computes `CodesOf` |
| Fields.CodesStop | data_structures.py:259-262 | once an entry fails, later entries do not matter |
| Fields.CollectFields | data_structures.py:336-377 | a successful collection is a well-formed registry |
| Fields.CollectFieldsStops | data_structures.py:336-377 | a failure in a prefix of the names ends the collection there |
| Fields.SkippedAsMissing | data_structures.py:375-377 | a file skipped as ending early is handled exactly as if it were missing from the directory |
| Fields.ShortFileOutcome | data_structures.py:343-377 | a file that ends early is reported with the "does not exist" message and skipped when the end-of-file error is caught, and ends the call with `ShortFile` otherwise |
| Fields.CollectFieldsOk | data_structures.py:336-377 | collection succeeds exactly when every existing file reads, or ends early while the end-of-file error is caught |
| Fields.CollectFieldsRegistry | data_structures.py:336-377 | on success the registry is `Collected` over the read files, and the log holds one "does not exist" message per missing or skipped path, in order |
| Fields.CollectFieldsFailure | data_structures.py:336-377 | on failure, the error is that of the first existing file that does not read and is not skipped, and it names that file |
| Fields.IngestFields | data_structures.py:336-377 | the loop over the names computes `CollectFields` into a fresh store |
| Fields.GetDataset | data_structures.py:196-381 | configuration errors and empty variable entries stop the call before any file is read; otherwise the files of the resolved mode and extension are collected from the configuration's output directory, and a cache file is named exactly when the call succeeds with `save` |
| Fields.FieldEntries | data_structures.py:373 | with plain names, a successful call registers each existing file that reads under its name as the snapshots it reads to; every other existing file was skipped as ending early |
| Keys.TableKeyParts | plot_functions.py:280 | for a table key built from a four-character statistic, `key[0:4]` is the statistic and `split('_')[0][4:]` is the experiment |
| Keys.StatisticOf | plot_functions.py:255 | `table[0:4]`: the statistic a key starts with |
| Keys.ExperimentLabel | plot_functions.py:209 | `table.split('_')[0][4:]`: the legend label of a table |
| Keys.LegendNames | plot_functions.py:207-209 | one legend label per table, in order, each the table's experiment segment |
| Keys.LegendOfStatistic | plot_functions.py:173-211 | for the tables of one statistic, the legend lists the experiments |
| Keys.FieldKeyRoundTrip | plot_functions.py:1129-1137 | splitting a field key gives back its statistic, experiment and both stamps, whatever the extension, though the split is on `F.scan` |
| Keys.SplitFieldKey | plot_functions.py:1129-1137 | the statistic, experiment and two stamps sliced from a field key; None where the key has no `_` and `[1]` raises |
| Keys.FieldFigureOfKey | plot_functions.py:1129-1169 | a field figure is named after the key's statistic and experiment, then variable and time |
| Keys.FieldFigureName | plot_functions.py:1169 | `stat_exp_var-time.png` from the split key; None where the split fails |
| Keys.FigureRowAt | plot_functions.py:1127-1169 | the loop over variables names one figure per variable, in order, and fails exactly when there is a variable and the key has no `_` |
| Keys.PlottedStepsMissLast | plot_functions.py:1123-1125 | every lead time but the last is drawn; a dataset with one lead time draws nothing |
| Keys.PlottedSteps | plot_functions.py:1123-1125 | `range(len(time) - 1)`: the lead times drawn |
| Keys.FieldFigures | plot_functions.py:1121-1170 | the nested loops name one figure per drawn lead time and variable; they fail exactly when there is something to draw and the key has no `_` |
| Keys.ColumnKeyCases | plot_functions.py:613-616 | for current tables the column has no capital, keeps every character of the code that is not a capital, differs from the code only in case (same upper case), lowering it again changes nothing, and a code without capitals is used as is; for old tables the code is used as given |
| Keys.ColumnKey | plot_functions.py:613-616 | the column of a variable: its code lowered for current tables, as given otherwise |
| Keys.TablesFor | plot_functions.py:173 | the selection never holds more tables than there are keys |
| Keys.TablesForMembers | plot_functions.py:173 | a key is selected exactly when it is a registry key containing the statistic |
| Keys.TablesForAppend | plot_functions.py:173 | selection distributes over concatenation, so it keeps registry order |
| Keys.TablesForFirst | plot_functions.py:619-622 | the first selected table is the first key in registry order containing the statistic |
| Keys.LineFigureOfTable | plot_functions.py:297-300 | the figure of a table and variable is the table name without `T.` + extension, `_`, and the code without `:` (current) or `-` (old tables) |
| Keys.LineFigureName | plot_functions.py:297-300 | the key without `T.` + extension, `_`, the code without `:` or `-`, `.png` |
| Keys.CombinedFigureOfTable | plot_functions.py:229-232 | as written, the combined name equals the intended one when the experiment occurs in the key only after the statistic |
| Keys.CombinedFigureYearClash | plot_functions.py:230 | as written, an experiment named like the year the dates start with is replaced inside the dates too; the name differs from the intended one |
| Keys.CombinedFigureFixedOfTable | plot_functions.py:229-232 | the intended combined name of a table key is statistic, `EXPS_`, the two stamps and the stripped code, whatever the experiment |
| Keys.CombinedFigureName | plot_functions.py:229-232 | as written: every occurrence of the key's experiment segment becomes `EXPS`, then `T.` + extension is removed and the stripped code and `-combined.png` appended |
| Keys.CombinedFigureNameFixed | plot_functions.py:229-232 | as intended: only the segment between the statistic and the first `_` becomes `EXPS` |
| Keys.CombinedFigureFor | plot_functions.py:171-232 | with the corrected replacement, the combined figure of a statistic is named after the last of its tables; None when it has none |
| Keys.CombinedFigureOfPeriod | plot_functions.py:171-232 | with the corrected replacement: when all tables of the statistic belong to one period, the combined figure is named after the statistic and the period, whichever table comes last |
| Keys.CandidatesMembers | plot_functions.py:619-622 | a key is a candidate for an experiment exactly when it contains the statistic and the experiment |
| Keys.ScorecardDrawn | plot_functions.py:573-622 | a scorecard is drawn exactly when there are two experiments and each has a table of the statistic |
| Keys.FirstCandidate | plot_functions.py:621-622 | the chosen table contains the statistic and the experiment, and no earlier table of the statistic contains the experiment |
| Keys.ScorecardPicks | plot_functions.py:621-622 | both compared tables are first candidates of their experiments |
| Keys.Scorecard | plot_functions.py:573-693 | exactly two experiments, then for each the first table of the statistic containing its name, and the scorecard figure name; the first missing table is the error |
| Keys.ScorecardDates | plot_functions.py:693 | characters 9-19 and 19-29 of a key with an eight-character prefix are its two stamps |
| Keys.ScorecardColumns | plot_functions.py:573-616 | a wrong experiment count stops the call before the shared `tExt` is touched; otherwise `tExt` is resolved and one column per variable follows the casing rule |

## Left out

- Floating point: values are reals, so `float32` rounding of bounds, resolutions and record values is not modelled. The coordinate values from `np.linspace` are not modelled either; only their counts are.
- Geometry.Trunc: `np.int` of an infinite or NaN quotient raises. Those cases are the zero-resolution errors; no other overflow is modelled.
- Paths.Basename: Windows drive letters and UNC prefixes are not treated specially. `ntpath.basename` gives `""` for `//server/share`, while the model gives `share`.
- PyStr.Lower, PyStr.Upper: only ASCII letters change case.
- Table parsing (`pd.read_csv`) is not modelled: a table's content is an opaque value stored as found.
- The pickle caches are modelled as the path that would be written; their serialised content is not.
- File existence and reading are map lookups. I/O errors other than a missing file are not modelled.
- Fields.CollectFields: an existing file with fewer records than requested yields `ShortFile`. Whether the call then prints the "does not exist" message and skips the file, or ends, depends on whether `scipy`'s end-of-file error is an `IOError`, the only error the handler at data_structures.py:375 catches. `scipy` is not part of this model, so this is an assumption the model leaves open as the `eofCaught` flag, and the collection lemmas hold for both values.
- Fields.GetDataset: requires a positive forecast step. `pd.date_range` with a zero or negative frequency is outside the model.
- The fan-out is computed as a list of names before the lookups. The source interleaves them; nothing observable differs, because the names do not depend on the lookups.
- Keys.CombinedFigureFor: when a statistic has no table, `plot_lines` raises. It is a `NameError` at plot_functions.py:185 when no table was seen before; otherwise `pd.concat` of no frames raises `ValueError` at :190/:197. The model returns None there.
- Keys.Scorecard: the heat-map arithmetic (gain, fractional change) and its `NaN` filling are not modelled, and neither is the case of a statistic other than `ACOR`, `RMSE` or `VIES` under `ganho`. Only the choice of tables and the figure name are.
- `plot_fields` splits keys on the fixed text `F.scan` whatever `tExt` is. The model does the same, and Keys.FieldKeyRoundTrip shows that the stamps still come out right.
- `range(len(time) - 1)` skips the last lead time. This is modelled as written (Keys.PlottedSteps) rather than reported as a finding, because the intent is not evident.
- Rendering, titles, colour bars, `showFig`/`saveFig` handling, notebook detection and the figure directory are not modelled.
- Where the specification and the code differ, the model follows the code:
  - Counts are truncated, not rounded.
  - A count of zero is accepted; only a negative count is a configuration error.
  - The lead times are stamped from the evaluation period rather than from the forecast horizon.
  - A malformed record, a missing stamp, zero variables or zero lead times abort the whole `get_dataset` call instead of one file.
  - `get_dataset` ignores its `outDir` argument in favour of the configuration's output directory.

## Findings

| source | as written | input that shows it | evidently intended | confidence | as-written member | corrected member |
|---|---|---|---|---|---|---|
| plot_functions.py:230-232 | `table.replace(table[4:table.find('_')], 'EXPS')` replaces every occurrence of the experiment name in the key | experiment `2020`, key `VIES2020_20200101002020013100T.scan`: the stamps become `EXPS010100` and `EXPS013100` | replace only the experiment segment after the statistic, giving `VIESEXPS_20200101002020013100…` | medium, not executed | Keys.CombinedFigureName (Keys.CombinedFigureYearClash) | Keys.CombinedFigureNameFixed (Keys.CombinedFigureFixedOfTable, Keys.CombinedFigureOfPeriod) |
