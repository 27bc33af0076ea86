# DataPipeline: a verified model of the ingestion, validation and export pipeline

This project models the record pipeline of a dashboard scaffold. The pipeline
loads a tabular file, removes duplicate rows and validates every row against the
record schema `Data`. Rows that pass become the validated table, indexed by an
identifier column. Rows that fail go to an error table with numbered diagnostics.
Either table, or both, can then be exported as sheets of one workbook.

The model follows the source's own shape:

- `Pipeline.DataPipeline` is a class. Its fields are the pipeline's configuration
  and the four tables the stages store (raw, validated, transformed and errors).
  Its methods change those fields, and each method is proved against a
  specification function on values. The error table it stores is the one the
  source's loop builds: a row with K failing fields adds K error rows, each
  reporting K errors, so the summary reports the sum of K squared over the rows.
- `Loader.Load`, `Cleaning.CleanData`, `Frames.Validate` and
  `Export.ExportOutcomeOf` are those specification functions. The lemmas about
  the stages are stated over them.
- What the pipeline gets from outside is passed in as a parameter:
  - the set of existing files;
  - the two file readers;
  - the per-field checks of the schema;
  - the identifier-to-timestamp conversion;
  - the file system used by the export (create a folder, write a sheet, save the
    workbook, each answering with a status).
- An exception the source raises becomes a `Failure` value in the model.
- A message the source prints becomes a returned value:
  - the validation summary is `AllPassed` or `InputsFailed(n)`;
  - every branch of the export has its own `ExportOutcome`.

Modules, leaf to root:

- `Results`: the Option and Result types.
- `Text`: joining strings, rendering numbers, ASCII lower-casing.
- `Tables`: cells, rows and tables.
- `Paths`: joining path components, a file's name and suffix.
- `Loader`: choosing a reader by suffix, and loading.
- `Cleaning`: dropping duplicate rows.
- `Records`: the schema and the check of one row.
- `Validation`: how rows are split between records and error rows, the error
  totals and the summary. It holds both the error table as the source's loop
  builds it (one error row per failure) and a corrected validator (one error row
  per failing row), with each one's properties proved.
- `Frames`: building the validated table and its index, and the whole
  validation stage.
- `Export`: which sheets are written and what an export reports.
- `Pipeline`: the `DataPipeline` class.

The identifier column is a constructor parameter. In the source it is the
placeholder `'insert here'`, which no field of `Data` carries.
`Frames.PlaceholderWithData` proves the consequence: with that placeholder,
validation succeeds only when no row passes, and then the validated table is
empty.

## Model

| member | source | states |
|---|---|---|
| Pipeline.DataPipeline.constructor | src/pipeline/data_pipeline.py:22-46 | no table is held; the read options are the caller's, or parse `Start` and `Finish` as dates; the file path is cwd / input folder / file name |
| Loader.Load | src/pipeline/data_pipeline.py:57-80 | a missing file fails with NotFound; an existing file whose lower-cased suffix is not .xls, .xlsx or .csv fails as Unsupported with that suffix and the path; .xls and .xlsx give exactly what the sheet reader gives and .csv exactly what the csv reader gives, a reader failure becoming ReadFailed with its detail; any success has an existing path with one of the three suffixes |
| Loader.ReadWith | src/pipeline/data_pipeline.py:70-74 | a read with the chosen reader fails only as a read failure |
| Loader.ConfiguredSuffix | src/pipeline/data_pipeline.py:46-68 | the suffix seen when loading the configured path `cwd / input folder / file name` is the lower-cased suffix of the file name's last part |
| Loader.ReaderFor | src/pipeline/data_pipeline.py:64-76 | an unsupported suffix is reported with the lower-cased suffix and the full path; choosing a reader never fails as a read failure |
| Loader.ReaderChoice | src/pipeline/data_pipeline.py:64-76 | both directions: not found exactly when the path is missing; the sheet reader exactly for names ending in .xls/.xlsx in any case; the csv reader exactly for .csv; unsupported exactly otherwise |
| Loader.LowerSuffixIsExtension | src/pipeline/data_pipeline.py:68-74 | the lower-cased suffix equals an extension exactly when the name ends with it, ignoring case |
| Loader.ReaderIgnoresCase | src/pipeline/data_pipeline.py:68-74 | two paths whose names differ only in letter case get the same reader |
| Pipeline.DataPipeline.LoadData | src/pipeline/data_pipeline.py:57-80 | the result is Load of the configured path; the raw table is stored only on success and is left alone on every failure |
| Paths.Append | src/pipeline/data_pipeline.py:46 | joining a relative part keeps the base as a prefix; joining an absolute part starts again at the root |
| Paths.AppendName | src/pipeline/data_pipeline.py:46-68 | the name of a joined path is the last part of the relative text; with no part it is the base's name, or empty after an absolute part |
| Paths.LastComponentNotRoot | src/pipeline/data_pipeline.py:46 | no part of a path string is the root |
| Paths.SplitOnRoundTrip | src/pipeline/data_pipeline.py:46 | splitting a path on `/` and joining the pieces back gives the original text |
| Paths.Kept | src/pipeline/data_pipeline.py:46 | exactly the pieces that are non-empty and not `.` are kept, and no more pieces than the input had |
| Paths.KeptAppend | src/pipeline/data_pipeline.py:46 | keeping works piece by piece: the kept pieces of two lists joined are the kept pieces of each, in order |
| Paths.LastDot | src/pipeline/data_pipeline.py:68 | the position found holds the last dot of the name; None exactly when the name has no dot |
| Paths.Suffix | src/pipeline/data_pipeline.py:68 | the suffix is empty, or a dot and at least one more character, no further dot, and a proper tail of the name |
| Paths.SuffixIsTail | src/pipeline/data_pipeline.py:68 | a non-empty suffix leaves a non-empty stem, and stem plus suffix is the name |
| Paths.LastDotLower | src/pipeline/data_pipeline.py:68 | lower-casing a name does not move its last dot |
| Paths.SuffixLower | src/pipeline/data_pipeline.py:68 | the suffix of the lower-cased name is the lower-cased suffix |
| Text.Lower | src/pipeline/data_pipeline.py:68 | lower-casing keeps the length |
| Text.LowerSpec | src/pipeline/data_pipeline.py:68 | no upper-case letter remains, and exactly the upper-case letters change |
| Text.LowerDrop | src/pipeline/data_pipeline.py:68 | lower-casing commutes with dropping a prefix |
| Cleaning.CleanData | src/pipeline/data_pipeline.py:88 | the columns are unchanged; the same rows occur before and after; no row is added |
| Cleaning.DropDuplicatesSpec | src/pipeline/data_pipeline.py:88 | the result has no duplicate, is a subsequence of the input (order kept), and holds every input row |
| Cleaning.DropDuplicatesIsFirstOccurrences | src/pipeline/data_pipeline.py:88 | the result equals an independent definition: row i is kept exactly when it does not occur among rows 0 to i-1 |
| Cleaning.DropDuplicatesIdempotent | src/pipeline/data_pipeline.py:88 | removing duplicates twice is removing them once |
| Cleaning.CleanDataKeepsDistinct | src/pipeline/data_pipeline.py:88 | a table without duplicate rows is returned unchanged |
| Cleaning.KeepFirstLength | src/pipeline/data_pipeline.py:88 | the filter never lengthens the rows |
| Cleaning.KeepFirstElements | src/pipeline/data_pipeline.py:88 | a row is kept exactly when it occurs and was not seen before |
| Cleaning.KeepFirstNoDuplicates | src/pipeline/data_pipeline.py:88 | the filter's output has no duplicates |
| Cleaning.KeepFirstSubsequence | src/pipeline/data_pipeline.py:88 | the filter's output keeps the input order |
| Cleaning.KeepFirstSnoc | src/pipeline/data_pipeline.py:88 | appending a row keeps it exactly when it is new |
| Cleaning.KeepFirstOfDistinct | src/pipeline/data_pipeline.py:88 | distinct rows, none seen before, all pass the filter |
| Records.Lookup | src/pipeline/data_pipeline.py:110 | a full row has a value under a name exactly when the name is a column; the value is the row's cell for that column |
| Records.ValidateRow | src/pipeline/data_pipeline.py:108-115 | a rejected row always carries at least one failure |
| Records.ValidateRowSpec | src/pipeline/data_pipeline.py:108-115 | a row passes exactly when every field's check passes; a rejected row reports every failing field's failures in field order; a record has one entry per field, named as the field, holding the checked value |
| Records.RowFailuresAppend | src/pipeline/data_pipeline.py:108-115 | the failures of a concatenated schema are the failures of the parts, in order |
| Records.RowFailuresEmpty | src/pipeline/data_pipeline.py:108-115 | no failure is reported exactly when every field passes |
| Records.EveryFailingFieldReported | src/pipeline/data_pipeline.py:108-115 | a row has at least as many failures as failing fields |
| Records.Coerce | src/pipeline/data_pipeline.py:110-113 | the record has one entry per field, named as the field, in order |
| Records.SchemaCheckReportsFailures | src/pipeline/data_pipeline.py:108-115 | checking rows against a schema never rejects a row without a failure |
| Validation.Numbered | src/pipeline/data_pipeline.py:121-125 | there is one message per failure |
| Validation.NumberedSnoc | src/pipeline/data_pipeline.py:121-125 | the message list grows by one message, numbered from 1, per failure |
| Text.JoinSnoc | src/pipeline/data_pipeline.py:126 | joining one more part appends the separator and that part |
| Text.JoinPrefix | src/pipeline/data_pipeline.py:126 | the joined text of the first n messages is a prefix of the joined text of all of them |
| Text.NatToString | src/pipeline/data_pipeline.py:124 | a number is rendered as a non-empty string of decimal digits without a leading zero |
| Text.NatToStringRoundTrip | src/pipeline/data_pipeline.py:124 | reading the rendered digits back gives the number |
| Validation.MessageNumber | src/pipeline/data_pipeline.py:124 | a message starts with the digits of its number, read back as that number, then `) `, then the failing input, `: ` and the failure message |
| Pipeline.AppendErrorRows | src/pipeline/data_pipeline.py:118-132 | the inner loop over one row's failures appends exactly the as-written error rows of that row: one per failure, each with the messages so far joined by `.` and a newline |
| Validation.ErrorRowsAsWrittenSpec | src/pipeline/data_pipeline.py:118-132 | as written, a row with n failures yields n error rows, each with the row data and total n; row k's details are the first k messages, each extending the one before |
| Validation.ErrorRowIsLastAsWritten | src/pipeline/data_pipeline.py:118-132 | the corrected single error row equals the last row the source appends; each earlier one carries a prefix of its details |
| Validation.RowGoesOneWayAsWritten | src/pipeline/data_pipeline.py:107-132 | as written, a row adds no error row exactly when it passes, and one record exactly when it adds no error row; a failing row adds no record; a failing row adds one error row per failure, the last of them being the corrected error row |
| Validation.ErrorCountAsWritten | src/pipeline/data_pipeline.py:107-132 | as written, the error table has one row per failure over all rows |
| Validation.ErrorsFromRowsAsWritten | src/pipeline/data_pipeline.py:107-132 | as written, an error row is in the error table exactly when it is among the error rows of some row |
| Validation.CorrectedAmongAsWritten | src/pipeline/data_pipeline.py:107-132 | every error row of the corrected validator is also in the as-written error table |
| Validation.SquareTotalZero | src/pipeline/data_pipeline.py:151-153 | the sum of squared failure counts is zero exactly when there is no failure at all |
| Validation.AllClearAsWrittenIff | src/pipeline/data_pipeline.py:151-160 | as written, the summary is all-clear exactly when every row passes, exactly when the error table is empty; otherwise it reports the sum of squared failure counts |
| Validation.AsWrittenOvercounts | src/pipeline/data_pipeline.py:118-151 | as written, one row with two failing fields yields two error rows and a reported total of 4; the corrected error row reports 2 |
| Validation.ConstantTotal | src/pipeline/data_pipeline.py:128-132 | error rows that all carry total k sum to their number times k |
| Validation.TotalErrorsOfRow | src/pipeline/data_pipeline.py:128-151 | as written, a row with n failures contributes n times n to the reported total |
| Validation.TotalErrorsIsSumOfSquares | src/pipeline/data_pipeline.py:107-151 | as written, the reported total is the sum over failing rows of the square of each row's failure count |
| Validation.RowGoesOneWay | src/pipeline/data_pipeline.py:107-132 | corrected validator: every row gives exactly one record or exactly one error row, never both; a record exactly when the row passes; the error row holds the row data and the row's failure count, which is positive |
| Frames.RowStep | src/pipeline/data_pipeline.py:107-132 | one more row that passes appends its record and leaves the as-written error rows alone; one that fails leaves the records alone and appends its as-written error rows, one per failure |
| Validation.ValidatedSnoc | src/pipeline/data_pipeline.py:107-113 | the records of rows plus one row are the old records plus that row's |
| Validation.ErrorsSnoc | src/pipeline/data_pipeline.py:115-132 | corrected validator: the error rows of rows plus one row are the old error rows plus that row's |
| Validation.ValidatedAppend | src/pipeline/data_pipeline.py:107-113 | the records of concatenated row lists are the concatenated records |
| Validation.ErrorsAppend | src/pipeline/data_pipeline.py:115-132 | corrected validator: the error rows of concatenated row lists are the concatenated error rows |
| Validation.PartitionCounts | src/pipeline/data_pipeline.py:107-132 | corrected validator: records plus error rows number exactly the rows |
| Validation.RecordsFromRows | src/pipeline/data_pipeline.py:107-113 | a record is in the validated list exactly when some row checks to it |
| Validation.ErrorsFromRows | src/pipeline/data_pipeline.py:115-132 | corrected validator: an error row is in the error list exactly when it is the error row of some row |
| Validation.NoErrorsIff | src/pipeline/data_pipeline.py:107-132 | corrected validator: there is no error row exactly when every row passes |
| Validation.ValidatedCount | src/pipeline/data_pipeline.py:107-113 | there is one record per passing row, so no more records than rows |
| Validation.NoRecordsIff | src/pipeline/data_pipeline.py:107-113 | there is no record exactly when every row fails |
| Frames.NoRecordIff | src/pipeline/data_pipeline.py:107-113 | no record is built exactly when no row passes the schema |
| Frames.PassesIff | src/pipeline/data_pipeline.py:108-115 | the schema check accepts a row exactly when every field passes |
| Frames.RowRecordFields | src/pipeline/data_pipeline.py:110-113 | a row's record has exactly the schema's field names, in order |
| Frames.RecordsHaveSchemaFields | src/pipeline/data_pipeline.py:107-113 | every validated record has exactly the schema's field names, in order |
| Frames.EntryValue | src/pipeline/data_pipeline.py:138 | a record has a value under a name exactly when one of its entries carries that name, and the value is that entry's |
| Frames.PresentName | src/pipeline/data_pipeline.py:138 | a name with a value is among the record's names |
| Frames.IdentifierValues | src/pipeline/data_pipeline.py:138 | the identifiers are read exactly when every record carries the identifier field, one per record in order; otherwise it fails naming the field |
| Frames.ParseAll | src/pipeline/data_pipeline.py:138 | the conversion succeeds exactly when every identifier converts, giving one timestamp per identifier in order; otherwise it names an identifier that does not convert |
| Frames.Without | src/pipeline/data_pipeline.py:141 | dropping the identifier keeps exactly the other entries, and no more entries than there were |
| Frames.WithoutAppend | src/pipeline/data_pipeline.py:141 | dropping works entry by entry, so the kept entries stay in their order |
| Frames.DropName | src/pipeline/data_pipeline.py:141 | dropping the identifier keeps exactly the other column names, and no more names than there were |
| Frames.DropNameAppend | src/pipeline/data_pipeline.py:141 | dropping works name by name, so the kept names stay in their order |
| Frames.EntryNamesAppend | src/pipeline/data_pipeline.py:141 | the names of concatenated entries are the concatenated names |
| Frames.WithoutNames | src/pipeline/data_pipeline.py:141 | the names left after dropping the identifier entry are the record's names without the identifier |
| Frames.BuildValidatedFailures | src/pipeline/data_pipeline.py:136-141 | building succeeds exactly when every record has an identifier that converts; it fails for a missing identifier exactly when some record lacks it; an unconvertible identifier reported comes from some record |
| Frames.BuildValidatedShape | src/pipeline/data_pipeline.py:136-141 | the table is indexed by the identifier field, with one converted index value and one row per record, the identifier dropped from columns and rows; no record gives an empty table |
| Frames.ValidatedShape | src/pipeline/data_pipeline.py:136-141 | the validated table has the identifier as index name and not as a column, one row per record, and the schema's fields without the identifier as columns |
| Frames.NoRecordHasUnknownField | src/pipeline/data_pipeline.py:136-141 | an identifier that is not a schema field is missing from every record |
| Frames.UnknownIdentifier | src/pipeline/data_pipeline.py:136-141 | with an identifier that is not a schema field, validation succeeds exactly when no row passes, and otherwise fails for the missing identifier |
| Frames.PlaceholderWithData | src/models/model.py:11-17 | with the fields of `Data` and the placeholder identifier, validation succeeds exactly when no row passes, and then yields the empty validated table |
| Frames.ValidateSpec | src/pipeline/data_pipeline.py:107-165 | the whole stage, as written: the error table has the input columns plus `total_errors` and `error_details` and holds the as-written error rows, one per failure; the summary is all-clear exactly when every row passes and otherwise reports the sum of squared failure counts; the validated table has one row per passing row, and these rows plus the corrected error rows number the rows; validation fails exactly when building the index fails |
| Validation.TotalErrorsAppend | src/pipeline/data_pipeline.py:151 | the total of concatenated error rows is the sum of the totals |
| Validation.TotalErrorsCountsFailures | src/pipeline/data_pipeline.py:151 | corrected validator: the total over the error table is the number of failures over all rows |
| Validation.TotalErrorsZero | src/pipeline/data_pipeline.py:151-153 | the total of error rows is zero exactly when every error row reports zero |
| Validation.SummarizeSpec | src/pipeline/data_pipeline.py:151-160 | the summary is all-clear exactly when every error row reports zero; otherwise it reports the positive total of the error table |
| Validation.FailureCountZero | src/pipeline/data_pipeline.py:151-160 | the failure count is zero exactly when every row passes |
| Validation.AllClearIff | src/pipeline/data_pipeline.py:151-160 | corrected validator: the summary is all-clear exactly when every row passes, exactly when there is no error row; otherwise it reports the failure count |
| Pipeline.DataPipeline.ValidateInputs | src/pipeline/data_pipeline.py:92-165 | the loop over the rows, with its inner loop over each row's failures, computes Validate, including one error row per failure; on success both the validated and the error table are stored; when the index cannot be built neither is touched |
| Pipeline.DataPipeline.TransformData | src/pipeline/data_pipeline.py:167-184 | the table is stored as the transformed table and returned unchanged |
| Pipeline.DataPipeline.RunStages | src/pipeline/data_pipeline.py:192-194 | cleaning, validation and transformation of a loaded table store the validated, as-written error and transformed tables and report Validate's summary, or on an index failure change nothing |
| Pipeline.DataPipeline.Process | src/pipeline/data_pipeline.py:186-195 | a load failure changes nothing; otherwise the raw table is stored, then an index failure leaves the other tables alone, and a full run stores the validated table as validated and transformed, stores the error table, and reports the summary of Validate on the cleaned table |
| Export.SelectedSpec | src/pipeline/data_pipeline.py:215-242 | a sheet is written exactly when it is requested and its table is present and not empty; at most two sheets, errors before validated |
| Export.Titles | src/pipeline/data_pipeline.py:225-242 | one title per selected sheet |
| Export.NoOpCases | src/pipeline/data_pipeline.py:244-252 | nothing selected exactly when neither table is requested; nothing available exactly when one is requested but no sheet qualifies; in both cases the file system is not consulted |
| Export.FolderFailures | src/pipeline/data_pipeline.py:254-265 | a refused folder is reported as denied, any other folder error with its detail, and a folder report implies the folder was not created |
| Export.WriteFromNeverNoOp | src/pipeline/data_pipeline.py:270-295 | once writing starts, the outcome is never a no-op or a folder failure |
| Export.WriteFromSpec | src/pipeline/data_pipeline.py:270-295 | the workbook is exported exactly when every sheet is written, the workbook saves and the file lies under cwd; it then lists the sheet titles in order with the relative location; an open file is reported by its name |
| Export.ExportSucceeds | src/pipeline/data_pipeline.py:254-287 | an export succeeds exactly when a sheet is selected, the folder is created, every sheet is written, the workbook saves and the file lies under cwd; it then reports the titles, the file name and the location relative to cwd |
| Export.RelativeStaysInside | src/pipeline/data_pipeline.py:287 | with a relative folder and file name the output file lies under cwd, so the relative location exists |
| Export.BothListed | src/pipeline/data_pipeline.py:283 | exporting both tables lists them as `Input Data Errors and Validated Data` |
| Pipeline.WriteWorkbook | src/pipeline/data_pipeline.py:270-295 | the loop that writes the sheets and saves reports exactly what WriteFrom specifies |
| Pipeline.DataPipeline.ExportData | src/pipeline/data_pipeline.py:197-295 | the outcome of the export is ExportOutcomeOf the held error and validated tables under the given options |

## Left out

- The checks pydantic runs for each field of `Data` (int, float, datetime coercion and their messages) are abstract functions. The model does not decide which inputs they accept.
- Floating-point values and dates are abstract: a number is an integer, a timestamp an integer count of ticks. The date conversion of the identifiers is a parameter.
- `model_dump(mode='json')`: the model keeps a record's checked values. It does not model their JSON serialization, such as enums becoming strings.
- A row's own columns named `total_errors` or `error_details` are not modelled. In the source such columns are overwritten by the dictionary merge.
- The dtype changes pandas makes while iterating rows.
- Which bad identifier `pd.to_datetime` names is not modelled. `Frames.ParseAll` names one that fails to convert, which need not be the first.
- Printing: the summary messages and the export messages are returned as values (`Summary`, `ExportOutcome`). Their text is not modelled, and neither are the bold ANSI constants.
- `process` returns nothing in the source. `Pipeline.DataPipeline.Process` returns the validation summary it would print, or the error it would raise.
- `__str__` is not modelled. It only formats the head of the validated table.
- The `hasattr` tests in `export_data` are always true for an object built by the constructor.
- Validation.RowGoesOneWay, Validation.PartitionCounts, Validation.AllClearIff: these state the corrected validator (one error row per failing row), not the source's loop. Their as-written partners are Validation.RowGoesOneWayAsWritten, Validation.ErrorCountAsWritten and Validation.AllClearAsWrittenIff.
- Paths follow POSIX pathlib (`PurePosixPath`). `/` is the only separator and the only root, and `relative_to` compares parts case-sensitively. Windows drive letters, backslash separators and case-insensitive comparison are not modelled. So a Windows folder such as `C:\out` is treated as a relative folder under cwd.
- `Paths.Suffix` follows the `Path.suffix` rule of CPython 3.13 and earlier: a last dot that is the first or the last character of the name gives no suffix.
- Lower-casing of file suffixes covers ASCII letters only.
- `Path.cwd()` is a parameter; file existence, the readers and the file system are parameters.
- Closing the Excel writer after a sheet failed is not modelled. The model reports the first failure, and a partly written file is not modelled.
- Exceptions other than permission and OS errors from writing a sheet.
- The relative location: `relative_to` raises when the file lies outside cwd. The model reports that case as `OutsideWorkingDir`.
- The dashboard, its components, its settings class and `ChildConfig` are not part of this model.

## Findings

| source | as written | input that shows it | evidently intended | confidence | as-written member | corrected member |
|---|---|---|---|---|---|---|
| src/pipeline/data_pipeline.py:118-151 | the error row is built and appended inside the loop over the row's failures, so a row with n failures adds n error rows, each claiming n errors, and the reported total is the sum of n squared | one row whose two fields both fail: two error rows, a reported total of 4 failed inputs | one error row per failing row with all its numbered messages, and a total equal to the number of failures | high, not executed | Validation.AsWrittenOvercounts | Validation.TotalErrorsCountsFailures |

The class stores the table as the source builds it (`Frames.Validate`, `Pipeline.DataPipeline.ValidateInputs`). The corrected validator (`Validation.ErrorRecords`) is defined beside it, and `Validation.ErrorRowIsLastAsWritten` and `Validation.CorrectedAmongAsWritten` relate the two.
