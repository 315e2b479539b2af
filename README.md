# Stack Overflow survey: data-science language usage

This project models the analysis core of a small Python/pandas tool. The tool
combines five years (2017–2021) of the Stack Overflow developer survey. It keeps
only respondents in data-science roles. It then works out, for each year, which
share of them worked with, or want to work with, Python, R and Julia.

- `process_survey_data.py` (module `SurveyPipeline`, with `Classifiers` and `Frames`):
  1. Stamps each yearly export with its year.
  2. Takes four columns out of each export and renames older column labels to the 2021 ones.
  3. Appends the five slices in the order 2021, 2020, 2019, 2018, 2017.
  4. Adds an `IsDataScientist` flag and keeps the rows where it is set.
  5. Adds six language indicator columns.
  6. Drops rows that lack a language answer.
- `main.py:17-28` (module `Aggregation`): for each survey year, divides the number
  of rows whose indicator is true by the number of rows of that year, filling six
  dictionaries keyed by year.

Files:
- `wrappers.dfy`: `Result` and `Option`.
- `text.dfy`: ASCII `lower()`/`upper()` and Python's substring test `in`.
- `classifiers.dfy`: `check_for_lang` and `check_for_dev_types`.
- `frames.dfy`: the part of pandas' DataFrame that the code uses:
  - column selection with `KeyError`, `rename(columns=…)` and column assignment;
  - `append`, which aligns columns and fills the gaps with NaN;
  - boolean-mask and equality filtering, and `dropna(subset=…)`.
- `pipeline.dfy`: `main()` of `process_survey_data.py`, as methods that reassign the combined frame one stage at a time.
- `aggregation.dfy`: the ratio loop of `main.py`, as a method with a `for` loop over the years that fills six maps.

A frame is a list of column labels plus rows of cells. A cell is one of:
- `Null`, which is NaN;
- a string;
- an integer;
- a boolean.

`CellText` is Python's `str()` applied to a cell, so a missing answer reads as `"nan"`.

`SurveyPipeline.Processed` is the reference for the whole cleaned data set, one
source row at a time:
- A row is kept when `check_for_dev_types(str(DevType))` holds and both language answers are non-null.
- Each kept row is extended with `True` for the role flag and with the six values
  `check_for_lang(lang, str(field))`, for Python, R and Julia on the worked-with and want-to-work-with fields.

`ProcessSurveyData` is proved to produce exactly `Processed` of the concatenated slices,
or the exception the program raises first:
- a `KeyError` naming the fields missing from the first export that lacks some;
- a `ValueError` when no response is left to assign a column to. On a frame without rows,
  pandas' `apply(axis=1)` returns a copy of the frame instead of a Series. Assigning that
  frame to one label fails: at line 68 when every export is empty, at line 82 when no
  response has a data-science role.

### Behaviour as coded

- `dropna(subset=(…))` uses pandas' default `how='any'` (`process_survey_data.py:102`). A row is dropped
  when **either** language field is null, not only when both are (`Frames.DropNa`,
  `SurveyPipeline.DropLanguageNulls`).
- `check_for_dev_types("ML Engineer")` is false: the text contains none of
  "data scientist", "machine learning" or "statistics". Such a respondent is not kept
  (`Classifiers.CheckForDevTypesRejects`).

## Model

| member | source | states |
|---|---|---|
| Text.Lower | process_survey_data.py:11-14 | definition, no ensures: `str.lower()`, one character at a time, mapping ASCII capitals to lower case and keeping everything else |
| Text.Contains | process_survey_data.py:11-13 | definition, no ensures: Python's `sub in s`, true when `sub` is a prefix of `s` or of some suffix of it; `ContainsIff` relates it to offsets |
| Text.ContainsIff | process_survey_data.py:11-13 | Python's `sub in s` holds exactly when `sub` occurs at some offset of `s` |
| Text.ContainsLower | process_survey_data.py:11-13 | a substring of a text stays a substring after lower-casing both |
| Classifiers.CheckForLang | process_survey_data.py:10-14 | definition, no ensures: `check_for_lang(lang, s)`, the four tests on the lower-cased strings (`lang;`, `;lang`, `; lang` contained, or equal); the lemmas below state its properties |
| Classifiers.CheckForLangIgnoresCase | process_survey_data.py:10-14 | two language/text pairs that agree after `lower()` get the same answer |
| Classifiers.CheckForLangCaseChange | process_survey_data.py:10-14 | upper- or lower-casing either argument never changes the answer |
| Classifiers.CheckForLangExactMatch | process_survey_data.py:14 | a text equal to the language, ignoring case, is a mention |
| Classifiers.CheckForLangBeforeDelimiter | process_survey_data.py:11 | a text containing the language followed by `;` is a mention |
| Classifiers.CheckForLangAfterDelimiter | process_survey_data.py:12-13 | a text containing `";" + lang` or `"; " + lang`, in any case, is a mention |
| Classifiers.CheckForLangListedEntry | process_survey_data.py:10-14 | a language standing as a whole entry of a list separated by `;` or `; ` (first, middle, last or alone) is always found |
| Classifiers.CheckForLangNeedsDelimiter | process_survey_data.py:10-14 | a text without `;` that differs from the language (ignoring case) is never a mention, so "nan" mentions nothing |
| Classifiers.CheckForLangNeedsEveryLetter | process_survey_data.py:10-14 | a text lacking a letter of the lower-cased language is never a mention |
| Classifiers.CheckForLangFindsListed | process_survey_data.py:11-14 | "python;c++;java" mentions Python; "r" and "Python; R" mention R |
| Classifiers.CheckForLangRejectsUnlisted | process_survey_data.py:10-14 | "java;c++" does not mention Python; "nan" mentions none of Python, R, Julia |
| Classifiers.CheckForLangLooseMatches | process_survey_data.py:11-12 | the heuristic reports R for "Elixir;Python" and "Python;Ruby" |
| Classifiers.CheckForDevTypes | process_survey_data.py:17-20 | definition, no ensures: `check_for_dev_types(s)`, true when the lower-cased text contains "data scientist", "machine learning" or "statistics" |
| Classifiers.CheckForDevTypesIgnoresCase | process_survey_data.py:17-20 | texts equal after `lower()` classify alike |
| Classifiers.CheckForDevTypesFragment | process_survey_data.py:17-20 | a text containing any of the three role fragments, lower- or upper-case, is selected |
| Classifiers.CheckForDevTypesNeedsLetter | process_survey_data.py:17-20 | a text lacking a letter common to all three fragments is rejected |
| Classifiers.CheckForDevTypesSelects | process_survey_data.py:17-20 | "Data Scientist" and "Biostatistics" are selected |
| Classifiers.CheckForDevTypesRejects | process_survey_data.py:17-20 | "Backend Developer", "nan" and "ML Engineer" are rejected |
| Frames.CellText | process_survey_data.py:66-95 | definition, no ensures: `str(x[...])` of a cell; a null cell reads `"nan"`, a string itself, an integer its decimal digits, a boolean `True` or `False` |
| Frames.RenameNames | process_survey_data.py:7 | same number of labels; each label is replaced by its mapping entry or kept |
| Frames.RenameNamesUnmapped | process_survey_data.py:7 | labels outside the mapping are unchanged |
| Frames.RenameFrame | process_survey_data.py:4-7 | a copy whose rows are unchanged and whose columns are renamed |
| Frames.Select | process_survey_data.py:42 | `KeyError` exactly when a requested label is missing, naming exactly the missing labels; otherwise the requested columns in that order, one row per input row, each cell the input's cell under that label |
| Frames.SelectMissing | process_survey_data.py:42 | the `KeyError` lists the absent labels in the order they were requested |
| Frames.WithColumn | process_survey_data.py:35 | `df[name] = values`: the label is added at the end when new; each row's cell under it is the given value; every other cell is unchanged |
| Frames.AssignApplied | process_survey_data.py:65-68 | `df[name] = df.apply(fn, axis=1)`: a `ValueError` for that label exactly when the frame has no rows and other than one column; otherwise the column is added as by `WithColumn` |
| Frames.IndexOf | process_survey_data.py:42 | the position of the first occurrence of a label |
| Frames.Append | process_survey_data.py:47 | columns are the first frame's followed by the second's new labels; row count is the sum; with equal columns the rows are simply stacked |
| Frames.AppendLookups | process_survey_data.py:47 | each result row holds its source row's cell under every label, and NaN under labels its source frame lacks |
| Frames.Keep | process_survey_data.py:69 | filtering keeps exactly the rows meeting the criterion and never adds rows |
| Frames.KeepConcat | process_survey_data.py:69 | filtering commutes with concatenation, so row order is preserved |
| Frames.WhereTrue | process_survey_data.py:69 | `df[df[name]]` keeps exactly the rows whose cell is `True`, with the same columns |
| Frames.DropNa | process_survey_data.py:102 | a row survives exactly when none of the named fields is NaN; the columns are unchanged |
| Frames.WhereEqual | main.py:21 | `df[df[name] == v]` keeps exactly the rows whose cell equals `v` |
| Frames.CountIsKeep | main.py:22 | counting rows that meet a criterion gives the size of the filtered rows |
| SurveyPipeline.SourceLayouts | process_survey_data.py:42-62 | the three source layouts have distinct labels; both mappings turn the older layouts into the 2021 one |
| SurveyPipeline.ProcessedDistinct | process_survey_data.py:68-98 | the eleven output columns are distinct |
| SurveyPipeline.StampYear | process_survey_data.py:35-39 | every row's `Year` is the survey year; every other cell is unchanged; `Year` is added when new |
| SurveyPipeline.SliceStamped | process_survey_data.py:42-60 | slicing a stamped export fails exactly when a field is missing; otherwise each row starts with the year followed by the three fields |
| SurveyPipeline.AppendRenamed | process_survey_data.py:46-62 | appending a renamed slice to the combined frame keeps the canonical columns and stacks the rows |
| SurveyPipeline.StampedAbsent | process_survey_data.py:35-45 | after stamping, a slice misses exactly the fields the export itself lacks, since `Year` is always present |
| SurveyPipeline.AppendSlice | process_survey_data.py:45-47 | one year's slice, rename and append: fails exactly when the export lacks a field, with a `KeyError` listing exactly those fields; otherwise adds that year's canonical rows after the combined rows |
| SurveyPipeline.FirstMissing | process_survey_data.py:42-60 | the fields missing from the first export (2021 first) that lacks any; empty exactly when every export has all its fields |
| SurveyPipeline.CombineYears | process_survey_data.py:35-62 | fails exactly when some export lacks a field, with a `KeyError` listing the fields the first such export lacks; otherwise the canonical columns, with the five years' rows in the order 2021, 2020, 2019, 2018, 2017 |
| SurveyPipeline.RoleSeries | process_survey_data.py:65-67 | one cell per row, as `apply(axis=1)` yields on a frame with rows; each cell is `check_for_dev_types(str(DevType))` of its row |
| SurveyPipeline.RoleStage | process_survey_data.py:65-68 | the role series is each row's `check_for_dev_types(str(DevType))`, added as a fifth column |
| SurveyPipeline.RoleFilterOne | process_survey_data.py:69 | a flagged row is kept exactly when its role text is a data-science role |
| SurveyPipeline.KeepDataScientists | process_survey_data.py:65-69 | a `ValueError` for `IsDataScientist` exactly when the combined frame has no rows; otherwise the flag column and exactly the flagged rows whose role is data science, in order |
| SurveyPipeline.RoleFilterEmpty | process_survey_data.py:65-69 | the role filter leaves some row exactly when some response has a data-science role |
| SurveyPipeline.LanguageSeries | process_survey_data.py:73-95 | one cell per row, as `apply(axis=1)` yields on a frame with rows; each cell is `check_for_lang(lang, str(field))` of its row |
| SurveyPipeline.IndicatorColumn | process_survey_data.py:73-82 | a language series assigned under a new label appends `check_for_lang(lang, str(field))` to every row |
| SurveyPipeline.AddIndicator | process_survey_data.py:73-84 | one indicator assignment: a `ValueError` for that label exactly when the frame has no rows; otherwise the columns gain one label and each row that indicator |
| SurveyPipeline.AddWorkedIndicators | process_survey_data.py:73-84 | the three worked-with indicators: a `ValueError` for `PythonWorkedWith` exactly when the frame has no rows; otherwise three labels and, on each row, the three flags of its worked-with field |
| SurveyPipeline.AddWantIndicators | process_survey_data.py:87-98 | the three want-to-work-with indicators: a `ValueError` for `PythonWantWorkWith` exactly when the frame has no rows; otherwise three labels and, on each row, the three flags of its want-to-work-with field |
| SurveyPipeline.IndicatorsInOrder | process_survey_data.py:82-98 | the six indicator assignments in source order give every row its six language flags |
| SurveyPipeline.AddLanguageIndicators | process_survey_data.py:73-98 | a `ValueError` for `PythonWorkedWith` exactly when the frame has no rows; otherwise the eleven output columns, and each row extended by its six flags |
| SurveyPipeline.DropLanguageNulls | process_survey_data.py:102 | dropping NaN in the two language fields keeps exactly the rows whose third and fourth cells are non-null |
| SurveyPipeline.DropNaOne | process_survey_data.py:102 | a single row survives exactly when both language cells are non-null |
| SurveyPipeline.FlagsOfKeptRole | process_survey_data.py:65-98 | a data-science row, flagged and given its indicators, is its reference enriched row and keeps its language answers |
| SurveyPipeline.StagesOnOneRow | process_survey_data.py:65-102 | the four stages map one source row to its reference result: the enriched row or nothing |
| SurveyPipeline.StagesMatchReference | process_survey_data.py:65-102 | flag, filter, indicators and dropna on any rows give exactly the reference `Processed` |
| SurveyPipeline.ProcessedRows | process_survey_data.py:65-102 | the cleaned set is no larger than its input; each output row is the enriched form of a retained input row; every retained input row appears enriched |
| SurveyPipeline.ProcessedConcat | process_survey_data.py:42-102 | processing the appended years equals appending each year's processed rows, so no year influences another |
| SurveyPipeline.ProcessSurveyData | process_survey_data.py:34-102 | fails exactly when some export lacks a field or no response has a data-science role. Errors: a `KeyError` with the first incomplete export's missing fields; a `ValueError` for `IsDataScientist` when every export is empty; a `ValueError` for `PythonWorkedWith` when no response has such a role. Otherwise the eleven output columns and exactly the reference `Processed` rows of the combined years |
| Aggregation.YearRows | main.py:21 | one year's rows keep the frame's columns |
| Aggregation.Total | main.py:21-22 | definition, no ensures: `total_entries`, the count of rows whose `Year` equals the year; `TotalIsSize` ties it to the selection |
| Aggregation.Hits | main.py:21-28 | definition, no ensures: the count of that year's rows whose indicator is True; `HitsIsSize` and `HitsAtMostTotal` state its properties |
| Aggregation.TotalIsSize | main.py:22 | the denominator is the number of rows of that year |
| Aggregation.HitsIsSize | main.py:23-28 | the numerator is the number of that year's rows whose indicator is True |
| Aggregation.HitsAtMostTotal | main.py:22-28 | the numerator never exceeds the denominator |
| Aggregation.RatioBounds | main.py:23-28 | a count over a positive total gives a ratio in [0, 1] that is 0 exactly for no hits, 1 exactly for all, and times the total gives the hits |
| Aggregation.Share | main.py:21-28 | a ratio exists exactly when the indicator column exists and the year has rows; otherwise `KeyError` for the missing column, else `ZeroDivisionError` for the empty year |
| Aggregation.ShareIsProportion | main.py:22-28 | the ratio is the hit count over the shared per-year total; it lies in [0, 1], is 0 exactly when no row is true and 1 exactly when every row is |
| Aggregation.YearFailure | main.py:21-28 | one iteration succeeds exactly when the year has rows and all six columns exist; a failure names a missing indicator column or the empty year |
| Aggregation.FailureStep | main.py:20-28 | the loop stops at the first failing year; otherwise it goes on to the rest |
| Aggregation.FailureNone | main.py:20-28 | the loop completes exactly when all six columns exist and every listed year has rows |
| Aggregation.FailureMissingColumn | main.py:23-28 | a column failure names one of the six indicator columns, absent from the frame |
| Aggregation.FailureEmptyYear | main.py:20-22 | a division failure names the first listed year without rows |
| Aggregation.ShareIgnoresOtherYears | main.py:21-28 | adding rows of other years changes no year's ratio |
| Aggregation.ProcessedLayoutOnlyEmptyYears | main.py:20-28 | on the cleaned layout the loop can fail only by division by zero, and it completes exactly when all five years have rows |
| Aggregation.FilledStep | main.py:23-28 | storing one year's ratio extends a map that is correct on the earlier years to the next year |
| Aggregation.YearlyShares | main.py:17-28 | fails with `KeyError('Year')` without a `Year` column, otherwise exactly when some year fails, reporting the first failure; on success the six maps have exactly the keys 2021–2017, each holding that year's ratio for its column |

## Left out

- Reading the five CSV exports (`process_survey_data.py:26-32`), including the `dtype=object` read of 2018: I/O. The exports are parameters of `ProcessSurveyData`.
- Writing `processed_survey_data.csv` and reading it back (`process_survey_data.py:103`, `main.py:11-15`): I/O and a file-existence check. The cached file is not modelled. `YearlyShares` takes the frame it aggregates as a parameter, and `ProcessedLayoutOnlyEmptyYears` links it to the pipeline's output layout.
- The CSV round trip: the index column that `to_csv` writes, and the re-parsing of cell types by `read_csv`, are not modelled. Years are compared as integers.
- The charts and messages (`main.py:30-111`, the `print` calls): plotting and console output.
- Index names in `rename_df_index_and_columns` (`process_survey_data.py:6`): the row index is implicit. Rows are identified by position, and series returned by `apply` are aligned with the frame positionally, as their index is the frame's own.
- `Text.Lower`: lower-casing covers ASCII letters only; Python's full Unicode case mapping is not modelled.
- `Aggregation.YearlyShares`: stores each ratio as an exact fraction `hits/total` with a real `Value()`, not as a 64-bit float, so float rounding is not modelled.
- `Frames.AssignApplied`: the `ValueError` assumes the pandas 1.x releases current with the 2021 survey (1.3 and 1.4). On a frame without rows, their `apply(axis=1)` first calls the row function on an empty Series. Indexing that Series raises, `apply` catches it and returns a copy of the frame. A release that instead probes with an all-NaN Series indexed by the columns behaves differently, and that behaviour is not modelled: `str(x["DevType"])` reads `"nan"`, the function returns False, `apply` reduces to an empty Series and the assignment succeeds, leaving an empty result where the model has a `ValueError`.
- `Frames.WhereTrue`: a mask cell that is not a boolean is treated as `False`; pandas would raise or coerce.
- Error messages: `FrameError.KeyError` carries the missing labels and `AggregateError` the column or year, but no message text.
- `DataFrame.append` was removed in pandas 2.0: the model follows the behaviour of the pandas versions the code was written for.
- `copy()` calls: frames are values here, so a copy is the value itself, and aliasing is not modelled.
