# AMDirT tabular dataset validator and converter helpers, in Dafny

AMDirT curates AncientMetagenomeDir, a set of tab-separated tables that
describe ancient metagenome samples and libraries. This project models the
core of the repository in Dafny:

- **The dataset validator.** `DatasetValidator` projects per-column read types from
  the JSON schema and reads the dataset. It runs the column check, the draft-07
  schema check and the duplicate-row check. Each check appends `DFError` records
  to an append-only error list. The report gives a pass/fail verdict.
- **The duplicate-DOI check** of `AMDirValidator`.
- **The sample diff.** This is the set of `archive_accession` pieces that a local
  table lists and a remote table does not.
- **The merge of a new dataset.** It covers argument checks, check gating, the
  validity verdict, concatenation with the remote table, and dropping duplicate
  rows.
- **The converter helpers.** These are the library selection (a join onto stacked
  sample accessions), the colour-chemistry lookup, the file names read from
  download links, the nf-core/eager row derivations, the curl download script and
  the merge-emptiness test.
- **The legacy standards checker** (`check_validity`, `check_unicity`, `run_tests`).
- **The version-line parser of `setup.py`.**

## Design

- **Tables.** A table is a header and a sequence of rows. Each cell is `Value`:
  a string, an integer or `Null` (a missing cell, NaN or None).
- **Exceptions.** A Python exception is a value of the datatype `Exc`. An operation
  that can raise returns `Result<_, Exc>`.
- **The validator** is a class. Its `errors` sequence is the only field its methods
  change. A validator whose construction raised keeps the exception in `raised`.
- **Order.** The grouping order of pandas (`groupby` sorts its keys) is the
  lexicographic order of module `Order`. Where the source iterates a Python set,
  the order is a ghost out-parameter of the method, or a `listing` function
  parameter of a pure function. Everything that depends on that order (messages,
  the script) is stated in terms of the same order.

Modules follow the program's structure, one module per file:

| Files | What they model |
|---|---|
| `errors.dfy`, `schema.dfy`, `draft7.dfy`, `validator.dfy` | `AMDirT/validate/domain/__init__.py` |
| `application.dfy` | `AMDirT/validate/application/__init__.py` |
| `core_diff.dfy` | `amdirt/core/diff.py` |
| `autofill_diff.dfy` | `AMDirT/autofill/diff.py` |
| `merge.dfy` | `AMDirT/merge/__init__.py` |
| `selection.dfy`, `core_convert.dfy` | `AMDirT/core/__init__.py` |
| `core_utils.dfy` | `AMDirT/core/utils.py` |
| `filter_utils.dfy` | `AMDirT/filter/utils.py` |
| `standards.dfy` | `ancientMetagenomeDirCheck/main.py` |
| `setup.dfy` | the version parser of `setup.py` |

`wrappers.dfy`, `exceptions.dfy`, `text.dfy`, `order.dfy` and `tables.dfy` hold
the supporting definitions:

- `Option` and `Result`;
- the exception kinds and their `name` strings;
- `str.split` on one character, `str.lower` and `repr` of a string (both in the
  restricted form stated under "Left out"), `Path.name` and `str(int)`;
- string order;
- table cells, first-occurrence de-duplication (`drop_duplicates`), and the
  groups of identical rows (`duplicated(keep=False)` followed by `groupby`).

### Behaviour of the code as written

This section lists the places where the code, its callers and its tests
disagree. The model follows the code in each of them, except where a line
under "Left out" says otherwise:

- **`parsing_ok`.** AMDirT/validate/domain/__init__.py defines no `parsing_ok`, so the
  merge as written would raise AttributeError there. The model departs from the
  code here and reads it as "construction did not raise"
  (`DatasetValidator.ParsingOk`); see "Left out".
  - `read_dataset` records one "Dataset Parsing Error" and then raises
    SystemExit, so the merge never sees a validator that failed to parse.
  - A first schema type of `null` reads the still-unset dtype of that column. That
    raises KeyError before any error is recorded.
- **The row of an error.** tests/test_domain.py expects the row string "2" for
  row 0 of a `to_dict` result. `to_dict` is a plain `str` of the stored row. The
  "+2" comes from `cleanup_errors`, which builds that row.
- **`check_duplicate_dois` returns nothing.** Its tests expect a boolean. The model
  returns only the KeyError that a missing column raises.
- **`merge_new_df` never raises its final `DatasetValidationError`.** A rejected
  dataset always has at least one recorded error, so the report exits first.
- **`get_filename` in `AMDirT/core/utils.py` and `AMDirT/filter/utils.py`.** For a
  missing link cell it returns the bare string "NA". Unpacking that result with
  `zip` gives `R1 = "N"` and `R2 = "A"`.
- **No selected library.** In all three converters (AMDirT/core/__init__.py:151,
  AMDirT/core/utils.py:154, AMDirT/filter/utils.py:121) splitting the treatment of
  no rows gives a frame without a column 0, so the UDG column raises KeyError(0)
  before any file name is looked up or unpacked.
  - With a single link and `prepend_exp`, the forward name is prefixed with the
    experiment, and then the reverse name is "NA".

## Model

| member | source | states |
|---|---|---|
| Errors.ToList | AMDirT/validate/domain/__init__.py:37-41 | the list has exactly one string per report column |
| Errors.ToDict | AMDirT/validate/domain/__init__.py:28-35 | the dictionary's keys are exactly Error, Source, Column, Row, Message |
| Errors.ToDictAgreesWithToList | AMDirT/validate/domain/__init__.py:28-41 | each key of `to_dict` maps to the `to_list` entry at the same position, so both reports carry the same five strings |
| Errors.RowNumberRoundTrip | AMDirT/validate/domain/__init__.py:33 | `str` of a row number is all digits and parses back to that number |
| Text.PathNameOfFile | AMDirT/validate/domain/__init__.py:49-50 | `Path(...).name` of `dir/file` is `file` |
| Schemas.PropertyNamed | AMDirT/validate/domain/__init__.py:178 | the property found has the looked-up name; none is found only when no property has it |
| Schemas.FirstType | AMDirT/validate/domain/__init__.py:89 | the first declared type of a column: a missing `type` is KeyError("type"), an empty type list or name is IndexError, a list gives its first entry, and a bare type name gives its first character, as indexing a string does |
| Schemas.ColumnDtype | AMDirT/validate/domain/__init__.py:83-104 | 'string' gives str, 'integer' gives nullable Int64, 'null' has no dtype, and any other tag passes through unchanged |
| Schemas.ProjectionError | AMDirT/validate/domain/__init__.py:92-102 | a first type 'null' raises KeyError for the column, before any error is recorded |
| Schemas.ProjectDtypes | AMDirT/validate/domain/__init__.py:83-104 | the projection succeeds exactly when every column's first type can be projected |
| Schemas.ProjectDtypesMapsEachColumn | AMDirT/validate/domain/__init__.py:83-104 | with distinct column names, the dtype map has exactly the schema's columns as keys, each mapped to the dtype of its first type |
| Schemas.ProjectDtypesAt | AMDirT/validate/domain/__init__.py:88-104 | with distinct column names, the k-th column is mapped to the dtype of its first type |
| Schemas.ProjectDtypesKeys | AMDirT/validate/domain/__init__.py:88-104 | the keys of a successful projection are the schema's column names |
| Schemas.ProjectDtypesFirstFailure | AMDirT/validate/domain/__init__.py:88-102 | a failed projection fails with the error of the first column that cannot be projected; all earlier columns can be |
| Schemas.ReadDtypes | AMDirT/validate/domain/__init__.py:83-104 | the loop filling `column_dtypes` computes the projection, stopping at the first failing column |
| Schemas.PrefixFailureStays | AMDirT/validate/domain/__init__.py:88-102 | once a prefix of the columns fails, the later columns do not change the outcome |
| Draft7.PropertyViolations | AMDirT/validate/domain/__init__.py:155-159 | a cell has no violation exactly when it meets the type and enum that apply to its property: those of the referenced schema when the property has a `$ref`, its own otherwise (`null` accepts only a missing cell); each violation has path [row, column] and carries the cell and the applied enum; there are at most two |
| Draft7.OwnKeywordsIgnoredBesideRef | AMDirT/validate/domain/__init__.py:155-159 | beside a `$ref` the property's own type and enum change no violation: the cell is judged exactly as by the referenced schema's keywords alone |
| Draft7.PropertiesViolations | AMDirT/validate/domain/__init__.py:155-159 | every violation of a row has a two-step path starting at that row and naming a schema property |
| Draft7.RequiredViolations | AMDirT/validate/domain/__init__.py:155-159 | a missing required column is reported at the row alone, with no enum |
| Draft7.RowsViolations | AMDirT/validate/domain/__init__.py:155-159 | every violation has a well-shaped path whose first step is a row index within the table |
| Draft7.PropertiesViolationsEmpty | AMDirT/validate/domain/__init__.py:155-159 | a row has no property violation exactly when each of its present columns conforms |
| Draft7.RequiredViolationsEmpty | AMDirT/validate/domain/__init__.py:155-159 | a row has no required-column violation exactly when every required column is present |
| Draft7.RowsViolationsEmpty | AMDirT/validate/domain/__init__.py:155-159 | rows have no violation exactly when every cell conforms and, when there is a row, every required column is present |
| Draft7.ViolationsEmptyIffConforms | AMDirT/validate/domain/__init__.py:155-159 | the validator reports no violation exactly when the table conforms to the schema |
| Validator.ReadDatasetOutcome | AMDirT/validate/domain/__init__.py:75-118 | reading succeeds exactly when the projection succeeds and the reader parses. A parse failure records exactly one "Dataset Parsing Error" (source the dataset name, column and row None) and raises SystemExit. At most one error is recorded |
| Validator.ColumnErrorsSnoc | AMDirT/validate/domain/__init__.py:137-138 | each extra column adds one error after those of the earlier columns |
| Validator.RefOf | AMDirT/validate/domain/__init__.py:178 | the `$ref` looked up for a column is that of the property with that name; a row index has none |
| Validator.CleanupErrors | AMDirT/validate/domain/__init__.py:167-186 | fails on an empty path (IndexError), on a row step that is not an index, and on a long enum whose column has no `$ref`. Otherwise: a "Schema Validation Error" whose source is the instance, column the last path step, row `str(first index + 2)`, and message the `$ref` message exactly when the enum has more than 3 values |
| Validator.CleanupRowIsIndexPlusTwo | AMDirT/validate/domain/__init__.py:179 | the row string of a cleaned error parses to the violation's row index plus 2 |
| Validator.CleanAllMeaning | AMDirT/validate/domain/__init__.py:159-161 | cleaning raises exactly when some violation cannot be cleaned; otherwise there is one error per violation, and never more errors than violations |
| Validator.CleanAllFailureStays | AMDirT/validate/domain/__init__.py:159-161 | once cleaning has raised on a prefix of the violations, later violations change nothing |
| Validator.CleanupOfLibraryViolations | AMDirT/validate/domain/__init__.py:155-186 | with distinct property names and a `$ref` for every long enum, every violation the draft-07 rules report can be cleaned |
| Validator.LibraryViolationsVerdict | AMDirT/validate/domain/__init__.py:149-165 | under the same schema conditions, cleaning never raises, and there are no violations exactly when the table conforms |
| Validator.DuplicateRowErrorsSnoc | AMDirT/validate/domain/__init__.py:204-205 | each group adds one error after those of the earlier groups |
| Validator.DuplicateRowErrorsNameWholeGroups | AMDirT/validate/domain/__init__.py:195-205 | each duplicate-row error has the same index tuple as source and row, of at least two indices, all of rows equal to each other, and listing every row equal to them |
| Validator.DatasetValidator.constructor | AMDirT/validate/domain/__init__.py:47-52 | the names are the file names of the paths, and the error list, the dataset and any raised exception are those of reading the dataset |
| Validator.DatasetValidator.AddError | AMDirT/validate/domain/__init__.py:60-61 | the error is appended; earlier errors are unchanged |
| Validator.DatasetValidator.CheckColumns | AMDirT/validate/domain/__init__.py:120-139 | true exactly when every dataset column is required (missing required columns are not reported); appends one "Different Columns Error" per extra column, each extra column once, with that column as source |
| Validator.DatasetValidator.ValidateSchema | AMDirT/validate/domain/__init__.py:149-165 | appends the cleaned errors of the violations in order; raises exactly when cleaning raises; otherwise returns true exactly when there are no violations, after appending exactly one error per violation |
| Validator.DatasetValidator.CheckDuplicateRows | AMDirT/validate/domain/__init__.py:188-207 | false exactly when two rows are equal in every column (missing cells equal); keeps earlier errors and appends exactly one error per group of identical rows, in some order |
| Validator.DatasetValidator.ToRich | AMDirT/validate/domain/__init__.py:228-233 | raises SystemExit("Invalid dataset <name>") exactly when an error was recorded, otherwise returns true |
| Validator.DatasetValidator.ToMarkdown | AMDirT/validate/domain/__init__.py:243-255 | raises SystemExit, carrying one report row per error in order, exactly when an error was recorded; otherwise returns true |
| Validator.Enumerate | AMDirT/validate/domain/__init__.py:137 | a set is iterated once per member, each member once |
| Validator.ReportsAgree | AMDirT/validate/domain/__init__.py:209-255 | the console and markdown reports reject the same validators |
| Tables.Positions | AMDirT/validate/domain/__init__.py:195-199 | the ascending indices of exactly the rows equal to a given row |
| Tables.GroupsFromMembers | AMDirT/validate/domain/__init__.py:195-201 | the groups listed from row i on are the index lists of the repeated rows whose first occurrence is at or after i |
| Tables.DuplicateGroupsMembers | AMDirT/validate/domain/__init__.py:195-201 | a group is listed exactly when it is the index list of some repeated row, led by its first occurrence |
| Tables.RepeatedRowLeadsGroup | AMDirT/validate/domain/__init__.py:195 | two equal rows give a group: that of their common value, led by its first occurrence |
| Tables.DuplicateGroupsEmptyIff | AMDirT/validate/domain/__init__.py:195-196 | there are no groups exactly when no two rows are equal |
| Tables.Dedup | AMDirT/merge/__init__.py:76 | the de-duplicated sequence has no repeats and keeps exactly the members of the input |
| Tables.DedupKeepsFirstOrder | AMDirT/merge/__init__.py:76 | kept elements come in the order of their first occurrences |
| Tables.DedupOfNoDup | AMDirT/merge/__init__.py:76 | a sequence without repeats is unchanged |
| Tables.DedupAppendPresent | AMDirT/merge/__init__.py:75-76 | appending elements already present does not change the result |
| Tables.DropDuplicates | AMDirT/merge/__init__.py:76 | the loop keeping first occurrences computes the de-duplication |
| Order.SortedDistinct | AMDirT/validate/application/__init__.py:6-8 | the group keys are ascending and are exactly the values grouped |
| Order.AscendingUnique | AMDirT/validate/application/__init__.py:6-8 | two ascending sequences with the same members are equal, so the group order is determined |
| Application.ProjectNames | AMDirT/validate/application/__init__.py:6-7 | the listed projects are exactly the non-missing `project_name` cells |
| Application.Projects | AMDirT/validate/application/__init__.py:6-8 | the groups are iterated in ascending order, each present project once |
| Application.DoisOfMembers | AMDirT/validate/application/__init__.py:6 | a project's DOI list holds exactly the `publication_doi` cells, missing ones included, of the rows naming the project |
| Application.NonMissing | AMDirT/validate/application/__init__.py:7 | `nunique` counts only non-missing values |
| Application.WithSeveralDoisMembers | AMDirT/validate/application/__init__.py:8-9 | a project is reported exactly when its count of distinct non-missing DOIs exceeds 1 |
| Application.WithSeveralDoisAscending | AMDirT/validate/application/__init__.py:8-9 | reported projects keep the ascending group order |
| Application.CheckDuplicateDois | AMDirT/validate/application/__init__.py:5-18 | raises KeyError, recording nothing, when `project_name` or `publication_doi` is missing; otherwise appends one "Duplicated DOI Error" per project with several DOIs, in group order, after the earlier errors |
| Application.ReportProjects | AMDirT/validate/application/__init__.py:8-18 | the loop over the groups appends exactly the errors of the projects with several DOIs |
| Application.ReportNext | AMDirT/validate/application/__init__.py:9-18 | one iteration extends the errors of the projects done so far by the next project's |
| Application.ReportProject | AMDirT/validate/application/__init__.py:9-18 | one project appends its error when it has several DOIs, and nothing otherwise |
| Application.ReportStep | AMDirT/validate/application/__init__.py:8-18 | the errors of the projects up to p are those before p followed by p's |
| Application.DoiErrorsSnoc | AMDirT/validate/application/__init__.py:10-18 | each reported project adds one error after the earlier ones |
| Application.OneErrorPerOffendingProject | AMDirT/validate/application/__init__.py:6-17 | no project is reported twice; a project is reported exactly when it is present and has more than one distinct DOI; its error's source is exactly its distinct DOIs |
| Application.SingleDoiNotFlagged | AMDirT/validate/application/__init__.py:8-9 | a project whose only DOI is one value, besides missing cells, gets no error |
| CoreDiff.Pieces | amdirt/core/diff.py:18-28 | the comma-split pieces of the cells; a missing cell has no `split` (AttributeError) |
| CoreDiff.AccessionSet | amdirt/core/diff.py:18-28 | a table without `archive_accession` raises KeyError; otherwise it gives the pieces of that column |
| CoreDiff.SampleDiff | amdirt/core/diff.py:6-30 | the remote set is read first; the result is the local pieces minus the remote pieces: those occurring in some local cell and in no remote cell |
| CoreDiff.SampleDiffIgnoresSchema | amdirt/core/diff.py:6-30 | the schema argument does not affect the result |
| CoreDiff.SampleDiffEmptyWhenCovered | amdirt/core/diff.py:30 | when every local piece occurs remotely, the result is empty |
| CoreDiff.PiecesRebuildCell | amdirt/core/diff.py:18-28 | the split is on "," only: pieces hold no comma, and joining them with "," gives back the cell, untrimmed |
| AutofillDiff.GetSampleDiff | AMDirT/autofill/diff.py:6-39 | reading the local dataset, then the remote one, propagates its exception; otherwise the result is the sample diff of the two tables |
| AutofillDiff.DiffOfCommaListedCells | AMDirT/autofill/diff.py:27-39 | worked example: a local table with cells "a,b", "c", "d" against a remote table with "d" gives {a, b, c} |
| AutofillDiff.LocalAccessions | AMDirT/autofill/diff.py:33-37 | the local cells of the example give {a, b, c, d} |
| AutofillDiff.RemoteAccessions | AMDirT/autofill/diff.py:27-31 | the remote cell of the example gives {d} |
| AutofillDiff.PiecesOfLocalCells | AMDirT/autofill/diff.py:33-37 | splitting the example's cells on commas gives {a, b, c, d} |
| Merge.Locate | AMDirT/merge/__init__.py:40-47 | a table type other than samples or libraries raises ValueError; an unknown table name raises ValueError; otherwise it gives the table's URL and its schema |
| Merge.ChecksVerdict | AMDirT/merge/__init__.py:48-58 | only an enabled schema check can raise |
| Merge.ChecksVerdictMeaning | AMDirT/merge/__init__.py:48-58 | for a schema with distinct names and a `$ref` for each long enum, the verdict is true exactly when each enabled check passes: the table conforms, has no duplicate rows, has only required columns |
| Merge.RunChecks | AMDirT/merge/__init__.py:48-58 | running the enabled checks on a parsed dataset gives the verdict; a false verdict leaves at least one recorded error |
| Merge.SchemaStep | AMDirT/merge/__init__.py:51-52 | the schema check raises exactly when cleaning raises, otherwise passes exactly when there are no violations, leaving an error when it fails |
| Merge.ColumnsStep | AMDirT/merge/__init__.py:55-56 | the column check passes exactly when every column is required, leaving an error when it fails |
| Merge.ChecksVerdictOfParts | AMDirT/merge/__init__.py:58 | `all(...)` of the enabled checks' results is the verdict |
| Merge.OutputPathName | AMDirT/merge/__init__.py:77-82 | the file written is named `{table_name}_{table_type}.tsv` |
| Merge.RealignKeepsCells | AMDirT/merge/__init__.py:75 | aligning a row onto the union of columns keeps each of its cells under the same column |
| Merge.ConcatKeepsCells | AMDirT/merge/__init__.py:75 | the concatenation has the union of the columns, the remote rows then the new rows, each cell under its column |
| Merge.MergedRowsOnce | AMDirT/merge/__init__.py:75-76 | the merged rows have no repeats, are exactly the concatenated rows, and keep the order of first occurrences |
| Merge.RealignToOwnColumns | AMDirT/merge/__init__.py:75 | aligning onto a table's own columns changes nothing |
| Merge.MergeOfContainedDataset | AMDirT/merge/__init__.py:75-76 | merging a dataset whose rows are all in the remote table gives the de-duplicated remote table |
| Merge.MergeNewDf | AMDirT/merge/__init__.py:9-85 | a locating error propagates; then a reading error; then a raising schema check. A rejected dataset exits through the markdown or console report naming the dataset. A remote reading error propagates. An accepted dataset is written, merged with the remote table, to `{outdir}/{table_name}_{table_type}.tsv` |
| Selection.FromArchives | AMDirT/core/__init__.py:209-210 | keeps exactly the samples of the supported archives |
| Selection.SamplePieces | AMDirT/core/__init__.py:211-217 | the stacked rows of a sample are its comma-separated accessions, each with the sample's other columns |
| Selection.Stack | AMDirT/core/__init__.py:209-218 | the stacked rows are exactly the accession pieces of each sample |
| Selection.Accessions | AMDirT/core/__init__.py:230 | the stacked `archive_accession` column |
| Selection.Matches | AMDirT/core/__init__.py:225-229 | a library joins exactly the stacked rows whose accession is its sample accession |
| Selection.Join | AMDirT/core/__init__.py:225-229 | the inner join holds exactly the library and stacked-row pairs with equal accessions |
| Selection.Query | AMDirT/core/__init__.py:231 | keeps exactly the joined rows whose sample accession is listed |
| Selection.QueryKeepsJoin | AMDirT/core/__init__.py:230-231 | the query after the join removes nothing |
| Selection.SelectedLibrariesMeaning | AMDirT/core/__init__.py:209-231 | a library is selected with a sample exactly when the sample is of a supported archive and one of its comma-separated accessions is the library's sample accession |
| Selection.FirstColourMeaning | AMDirT/core/__init__.py:64-66 | the loop returns nothing exactly when no key occurs, otherwise the value of the first key that occurs |
| Selection.ColourChemistryMeaning | AMDirT/core/__init__.py:47-66 | `get_colour_chemistry` gives nothing exactly when no listed key is a substring of the lower-cased instrument, and otherwise the value of the first such key in listed order |
| Selection.UdgTreatmentPrefix | AMDirT/core/__init__.py:149-151 | the UDG treatment is the treatment's text before its first "-", or all of it when it has none |
| Selection.EagerRowFields | AMDirT/core/__init__.py:145-188 | lane 0, BAM "NA", SE exactly for a SINGLE layout and PE otherwise, the UDG prefix, the colours of the instrument, and the sample name and strandedness of the library |
| Selection.SelectedAccessions | AMDirT/core/__init__.py:244 | the selected `archive_accession` column, row by row |
| Selection.CurlLinesAppend | AMDirT/core/__init__.py:240-241 | each link adds its curl line after the earlier ones |
| Selection.CollectLinks | AMDirT/core/__init__.py:234-238 | raises AttributeError exactly when a selected `download_links` cell is missing; otherwise gives exactly the `;`-separated pieces of the cells |
| Selection.WriteScript | AMDirT/core/__init__.py:239-241 | the script is the shebang line, then one curl line per link, each link once, in the set's iteration order |
| Selection.DownloadScript | AMDirT/core/__init__.py:234-241 | raises AttributeError exactly when a link cell is missing; otherwise the shebang line and one curl line per distinct link |
| Selection.CurlCommandOneLine | AMDirT/core/__init__.py:241 | a curl command has no newline when its link has none |
| Selection.ScriptLines | AMDirT/core/__init__.py:239-241 | read line by line, the script is the shebang, then `curl -L ftp://{l} -o {last '/' piece of l}` per link in order, then an empty last line |
| Selection.CurlLinesSplit | AMDirT/core/__init__.py:240-241 | the curl lines split on newlines into one command per link, then an empty piece |
| Selection.IsMergeSizeZero | AMDirT/core/__init__.py:282-320 | true exactly when either table is empty or no library's sample accession is a comma-separated piece of any sample's accession |
| CoreConvert.GetFilename | AMDirT/core/__init__.py:82-102 | a missing cell raises TypeError; otherwise a name is returned exactly for "fwd" and "rev", and None for any other orientation |
| CoreConvert.GetFilenameOfLinks | AMDirT/core/__init__.py:93-102 | two links give the file names of the first and second; one link gives its file name forward and "NA" reverse |
| CoreConvert.EagerRows | AMDirT/core/__init__.py:145-188 | no selected library raises KeyError(0) at the UDG column; otherwise raises TypeError exactly when a selected link cell is missing; otherwise one derived row per selected library, in order |
| CoreConvert.PrepareEagerTable | AMDirT/core/__init__.py:105-190 | no selected library raises KeyError(0); otherwise raises TypeError exactly when a selected link cell is missing; otherwise one row per selected library, in selection order, each that library's derived row |
| CoreConvert.PrepareAccessionTable | AMDirT/core/__init__.py:193-246 | the de-duplicated accessions of the selected libraries, and the download script of their links; a missing link cell raises AttributeError |
| CoreConvert.AccessionsOfSelection | AMDirT/core/__init__.py:209-244 | the accession table has no repeats and lists exactly the sample accessions that some selected library names |
| CoreConvert.AccessionListed | AMDirT/core/__init__.py:244 | an accession is listed exactly when some selected row was joined on it |
| CoreUtils.GetFilename | AMDirT/core/utils.py:79-110 | the text "nan" and only it gives the bare "NA"; without prepending nothing raises; without exactly one ";" the reverse name is "NA" |
| CoreUtils.GetFilenameOfTwoLinks | AMDirT/core/utils.py:95-108 | exactly one ";" gives the last '/' pieces of both links, each prefixed by the run's experiment when asked |
| CoreUtils.GetFilenameOfOneLink | AMDirT/core/utils.py:98-110 | with no ";", the forward name is the last '/' piece of the text and the reverse name "NA" |
| CoreUtils.RunAccessionOfFastq | AMDirT/core/utils.py:102 | the run looked up for `<run>_<stem>.<ext>` is `<run>` |
| CoreUtils.EagerRows | AMDirT/core/utils.py:148-188 | no selected library raises KeyError(0) at the UDG column; otherwise the first failing file-name lookup raises; otherwise one derived row per selected library, its R1 and R2 the unpacked names |
| CoreUtils.PrepareEagerTable | AMDirT/core/utils.py:113-190 | no selected library raises KeyError(0); it fails exactly when a file-name lookup fails; otherwise the derived rows of exactly the selected libraries, with experiment-prefixed file names, the data accession as library id and the core converter's organism |
| FilterUtils.OrganismAgainstCore | AMDirT/filter/utils.py:133-136 | the organism is the core converter's except for the anthropogenic table, where it is "human" |
| FilterUtils.PrepareEagerTable | AMDirT/filter/utils.py:79-159 | no selected library raises KeyError(0); otherwise the derived rows of exactly the selected libraries, with the run accession as library id, and "environmental" or "human" as organism for those tables |
| FilterUtils.PrepareAccessionTable | AMDirT/filter/utils.py:162-197 | one entry per selected library, in order, each the sample accession it was joined on, not de-duplicated |
| FilterUtils.AccessionTableAgainstCore | AMDirT/filter/utils.py:162-197 | lists exactly the accessions of the selection, and de-duplicated it is the core converter's table |
| FilterUtils.AccessionTableRepeats | AMDirT/filter/utils.py:197 | two selected libraries on the same accession make the table repeat it |
| StandardsCheck.ColumnsOf | ancientMetagenomeDirCheck/main.py:15 | the `Column` entry of each standards row |
| StandardsCheck.Pivot | ancientMetagenomeDirCheck/main.py:15-33 | raises ValueError exactly when a (Column, Category) pair repeats; otherwise the columns, ascending, each once |
| StandardsCheck.OffendingMembers | ancientMetagenomeDirCheck/main.py:19-21 | a value offends exactly when it is a non-missing cell of the column and not a category of it |
| StandardsCheck.CheckColumns | ancientMetagenomeDirCheck/main.py:18-23 | fails exactly when some column fails, with the error of the first failing column |
| StandardsCheck.FirstFailureShift | ancientMetagenomeDirCheck/main.py:18-23 | a passing first column does not change which column fails first |
| StandardsCheck.ColumnVerdictOfPresentColumn | ancientMetagenomeDirCheck/main.py:19-23 | a present column fails exactly when it has an offending value, with the DatasetValidationError naming the offending values and the column |
| StandardsCheck.CheckValidityMeaning | ancientMetagenomeDirCheck/main.py:4-23 | raises DatasetValidationError exactly when some standards column has a non-missing value that is not among its categories, with the error of the first such column in ascending order, every earlier column passing |
| StandardsCheck.MissingCellsNeverOffend | ancientMetagenomeDirCheck/main.py:19-20 | values whose string is "nan" are ignored |
| StandardsCheck.CheckUnicity | ancientMetagenomeDirCheck/main.py:25-36 | raises DuplicateError exactly when a (Column, Category) pair repeats |
| StandardsCheck.RunTestsOrder | ancientMetagenomeDirCheck/main.py:38-40 | a repeated pair raises DuplicateError before the dataset is checked; otherwise the result is the validity check's; no ValueError escapes |
| StandardsCheck.CheckColumnsErrors | ancientMetagenomeDirCheck/main.py:18-23 | any error of the column loop is a DatasetValidationError or a KeyError for a column the dataset lacks |
| Setup.VersionOfLine | setup.py:15-16 | the delimiter is '"' when the line has one, else "'"; a line with neither raises IndexError; the version has no delimiter |
| Setup.FindVersion | setup.py:12-18 | raises RuntimeError exactly when no line starts with `__version__`; otherwise the version of the first line that does |
| Setup.VersionOfVersionLine | setup.py:15-16 | `__version__ = "<v>"` (or with single quotes) gives back `<v>` |
| Setup.VersionLineIsOneLine | setup.py:13-14 | such a version line is one line and starts with `__version__` |
| Setup.GetVersionOfFile | setup.py:12-18 | a file whose first version line is `__version__ = "<v>"` has version `<v>`, whatever the other lines |
| Setup.FirstVersionLineWins | setup.py:13-16 | earlier non-matching lines are skipped and later lines are ignored |

## Left out

- File, schema and TSV reading (`read_schema`, `pd.read_table`, `pd.read_csv`): the reader is a function parameter from the dtype map to a parsed table, a parse failure with its message, or a raised exception; the standards checker takes its tables already read.
- The `jsonschema` library: its draft-07 checks used by the schemas (`type`, `enum`, `required`) are written out in `draft7.dfy`, one violation per failing keyword; other keywords, and the library's own violation order, are not modelled.
- `dataset_to_json`: cells are read directly; a float or NaN cell is `Null`, and floating-point cells are not modelled.
- Report layout (the rich table, `to_markdown` text, logging): only the verdict, the exit message and the rows of the report are modelled.
- Validator.DatasetValidator.CheckDuplicateRows: the order of the duplicate groups (pandas sorts the groups by their cell values) is left unspecified; the contract states the appended errors as a multiset.
- Validator.DatasetValidator.ToMarkdown: the report is built with `DataFrame.append` (AMDirT/validate/domain/__init__.py:245), which pandas 2.0 removed. The model follows pandas before 2.0, as tests/test_domain.py:123-124 expects: a recorded error ends in SystemExit carrying the report. Under pandas 2.0 and later the first recorded error raises AttributeError instead, which the model does not capture.
- Validator.DatasetValidator.CheckColumns: the order of the extra columns and of the message is the iteration order of a Python set, which the model leaves open and states the errors in terms of.
- StandardsCheck.CheckValidity: the order of the offending values in the message is the iteration order of a Python set, given as the `listing` parameter.
- StandardsCheck.CheckUnicity: a pivot ValueError other than a repeated pair cannot arise from the modelled tables, so the branch that swallows it is not modelled.
- Schemas.Property: a `$ref` is resolved by fetching the referenced document; the model does not fetch it and takes the referenced schema's `type` and `enum` as part of the property.
- Merge.MergeNewDf: AMDirT/validate/domain/__init__.py defines no `parsing_ok` and AMDirT/core/__init__.py defines no `get_remote_resources`, so the code as written raises AttributeError or ImportError; the model gates the checks on construction not having raised (`ParsingOk`) and takes the remote resources as a parameter.
- Network calls (`get_remote_resources`, `get_experiment_accession`, the remote table read in the merge): parameters of the operations that use them.
- Merge.MergeNewDf: its markdown exit is that of ToMarkdown under pandas before 2.0; under pandas 2.0 and later a rejected dataset reported as markdown raises AttributeError instead of SystemExit, which the model does not capture.
- Merge.MergeNewDf: the dtype of each remote column, and `na_rep="NA"` in the written file, are not modelled; the written table is the result value.
- Merge.MergeNewDf: `warnings.filterwarnings` when not verbose has no effect on the outcome and is left out.
- The `sel_col` choice of the converters only picks which joined columns are kept; a missing `sample_host` column (a KeyError) is not modelled, since the records always carry a host.
- Selection.Join: the joined rows come in the order of the libraries, each followed by its matching stacked samples; this is the left-key order of an inner `merge` in pandas 2.2 and later. Earlier pandas, which AMDirT/setup.py does not exclude, grouped equal keys in order of first appearance (libraries L1(a), L2(b), L3(a) come out L1, L3, L2). The order-dependent results (the row order of the eager tables, the first-occurrence order of CoreConvert.PrepareAccessionTable's accessions and FilterUtils.PrepareAccessionTable's column) follow the newer order; their members are the same under both. No one pandas version fits the whole model: the join order is that of pandas 2.2 and later, while ToMarkdown's report needs pandas before 2.0 (see its line above).
- Selection.SampleRecord: `archive_accession` is always text; a missing cell, which `stack()` drops so that the sample yields no stacked row, is not modelled.
- Text.Repr: Python's `repr` of a string is modelled as the text between single quotes; the switch to double quotes for a string holding `'` and the escaping of backslashes and control characters are not modelled. It reaches the draft-07 messages, the column-difference message and the `str` of value arrays.
- Text.Lower: `str.lower` is modelled on the ASCII letters only; Unicode case mapping is not modelled. It reaches the instrument lookup of Selection.GetColourChemistry.
- Selection.LibraryRecord: instrument and treatment cells are strings; a missing instrument or treatment cell is not modelled.
- CoreConvert.PrepareEagerTable: the `@st.cache()` decorator only memoises and is left out; so is the final pandas column renaming, which the field order of `EagerRow` stands for.
- CoreUtils.PrepareEagerTable: the first `apply` of `get_filename` (AMDirT/core/utils.py:156) only repeats the lookups of the second; a lookup failure raises at the first one, which the model does not distinguish.
- Duplicated helpers are modelled once:
  - `get_colour_chemistry` of AMDirT/core/utils.py and AMDirT/filter/utils.py is that of `AMDirT/core/__init__.py`, modelled by Selection.GetColourChemistry;
  - `prepare_accession_table` of AMDirT/core/utils.py is that of `AMDirT/core/__init__.py`, modelled by CoreConvert.PrepareAccessionTable;
  - `get_filename` of AMDirT/filter/utils.py is line for line that of AMDirT/core/utils.py, modelled by CoreUtils.GetFilename and used by FilterUtils.PrepareEagerTable;
  - `is_merge_size_zero` of both utilities modules is that of `AMDirT/core/__init__.py` up to the `sel_col` list (AMDirT/filter/utils.py also names the anthropogenic table there), which only picks the joined columns and not the verdict; all are modelled by Selection.IsMergeSizeZero.
- Setup.GetVersion: `splitlines` is modelled as a split on "\n" only; the other line breaks it recognises are not modelled, nor is the file read.
- The exception classes carry no behaviour; their `name` strings are constants in `exceptions.dfy`.
- Streamlit applications, CLIs, the download and bibliography helpers, and the ENA client are not part of this model.
