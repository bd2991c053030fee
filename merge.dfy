/**
 * Merging a new dataset into the directory's remote one: the table is
 * located in the remote resources, the new dataset is validated against
 * the table's schema by the enabled checks, and a valid dataset is
 * appended to the remote table, identical rows dropped, and written out.
 */
module Merge {
  import opened Wrappers
  import opened Exceptions
  import opened Text
  import opened Tables
  import opened Schemas
  import opened Draft7
  import opened Validator

  /** How `merge_new_df` ends: the merged table written to a path, or an exception. */
  datatype MergeOutcome = Written(path: string, table: Table) | Raised(exc: Exc)

  const TableTypes: seq<string> := ["samples", "libraries"]
  const TableTypeMessage := "table_type must be either 'samples' or 'libraries'"
  const TableNameMessage := "table_name not found in AncientMetagenomeDir file"

  /**
   * The remote table's URL and its schema's URL, looked up in the remote
   * resources (table type, then `<type>_schema`, each mapping table names to URLs).
   * An unknown table type or a table name the type does not list is a ValueError;
   * a missing entry of the resources themselves is a KeyError.
   */
  function Locate(resources: map<string, map<string, string>>, tableType: string, tableName: string):
    (r: Result<(string, string), Exc>)
    ensures tableType !in TableTypes ==> r == Failure(ValueError(TableTypeMessage))
    ensures tableType in TableTypes && tableType in resources && tableName !in resources[tableType] ==>
      r == Failure(ValueError(TableNameMessage))
    ensures r.Success? <==>
      && tableType in TableTypes && tableType in resources && tableName in resources[tableType]
      && tableType + "_schema" in resources && tableName in resources[tableType + "_schema"]
    ensures r.Success? ==> r.value.0 == resources[tableType][tableName] && r.value.1 == resources[tableType + "_schema"][tableName]
    ensures r.Failure? ==> r.error.ValueError? || r.error.KeyError?
  {
    if tableType !in TableTypes then Failure(ValueError(TableTypeMessage))
    else if tableType !in resources then Failure(KeyError(tableType))
    else if tableName !in resources[tableType] then Failure(ValueError(TableNameMessage))
    else if tableType + "_schema" !in resources then Failure(KeyError(tableType + "_schema"))
    else if tableName !in resources[tableType + "_schema"] then Failure(KeyError(tableName))
    else Success((resources[tableType][tableName], resources[tableType + "_schema"][tableName]))
  }

  /**
   * `all(dataset_valid)` for a dataset that was read: the verdicts of the enabled
   * checks, the schema check first (whose cleanup may raise), then the duplicate-row
   * check, then the column check.
   */
  function ChecksVerdict(schemaCheck: bool, lineDup: bool, columns: bool, schema: Schema, t: Table): (r: Result<bool, Exc>)
    ensures r.Failure? ==> schemaCheck
  {
    if schemaCheck && CleanAll(schema, Violations(schema, t)).1.Some? then Failure(CleanAll(schema, Violations(schema, t)).1.value)
    else Success(
      && (schemaCheck ==> |Violations(schema, t)| == 0)
      && (lineDup ==> !HasDuplicateRows(t.rows))
      && (columns ==> forall c :: c in t.columns ==> c in schema.required))
  }

  /**
   * For a schema whose names are distinct and whose long enums name a `$ref`, the
   * checks never raise, and the dataset is accepted exactly when it conforms to the
   * schema (if checked), has no two identical rows (if checked) and has no column
   * the schema does not require (if checked).
   */
  lemma ChecksVerdictMeaning(schemaCheck: bool, lineDup: bool, columns: bool, schema: Schema, t: Table)
    requires DistinctNames(schema.properties) && RefsForLongEnums(schema)
    ensures ChecksVerdict(schemaCheck, lineDup, columns, schema, t) == Success(
      && (schemaCheck ==> Conforms(schema, t))
      && (lineDup ==> !HasDuplicateRows(t.rows))
      && (columns ==> forall c :: c in t.columns ==> c in schema.required))
  {
    LibraryViolationsVerdict(schema, t);
  }

  /**
   * The checks of `merge_new_df` on a validator that read its dataset, each run only
   * when enabled: the result is their joint verdict, and a rejection always leaves
   * some error recorded.
   */
  method RunChecks(v: DatasetValidator, schemaCheck: bool, lineDup: bool, columns: bool) returns (r: Result<bool, Exc>)
    requires v.ParsingOk()
    modifies v
    ensures r == ChecksVerdict(schemaCheck, lineDup, columns, v.schema, v.dataset)
    ensures r == Success(false) ==> |v.errors| > 0
  {
    var datasetValid := [v.ParsingOk()];
    ghost var schemaOk, dupOk, columnsOk := true, true, true;
    if schemaCheck && v.ParsingOk() {
      var valid := SchemaStep(v);
      if valid.Failure? {
        return Failure(valid.error);
      }
      datasetValid := datasetValid + [valid.value];
      schemaOk := valid.value;
    }
    assert false in datasetValid <==> !schemaOk;
    assert !schemaOk ==> |v.errors| > 0;
    if lineDup && v.ParsingOk() {
      var valid := v.CheckDuplicateRows();
      datasetValid := datasetValid + [valid];
      dupOk := valid;
    }
    assert false in datasetValid <==> !(schemaOk && dupOk);
    assert !(schemaOk && dupOk) ==> |v.errors| > 0;
    if columns && v.ParsingOk() {
      var valid := ColumnsStep(v);
      datasetValid := datasetValid + [valid];
      columnsOk := valid;
    }
    ChecksVerdictOfParts(schemaCheck, lineDup, columns, v.schema, v.dataset, schemaOk, dupOk, columnsOk);
    return Success(false !in datasetValid);
  }

  /** The schema check of `merge_new_df`, with what the joint verdict needs of it. */
  method SchemaStep(v: DatasetValidator) returns (r: Result<bool, Exc>)
    modifies v
    ensures r.Failure? <==> CleanAll(v.schema, Violations(v.schema, v.dataset)).1.Some?
    ensures r.Failure? ==> r.error == CleanAll(v.schema, Violations(v.schema, v.dataset)).1.value
    ensures r.Success? ==> (r.value <==> |Violations(v.schema, v.dataset)| == 0)
    ensures r.Success? && !r.value ==> |v.errors| > 0
  {
    r := v.ValidateSchema(Violations(v.schema, v.dataset));
  }

  /** The column check of `merge_new_df`, with what the joint verdict needs of it. */
  method ColumnsStep(v: DatasetValidator) returns (ok: bool)
    modifies v
    ensures ok <==> forall c :: c in v.dataset.columns ==> c in v.schema.required
    ensures |v.errors| >= |old(v.errors)|
    ensures !ok ==> |v.errors| > 0
  {
    ghost var extra;
    ok, extra := v.CheckColumns();
    if !ok {
      var c :| c in v.dataset.columns && c !in v.schema.required;
      assert c in extra;
    }
  }

  /** The joint verdict of checks that did not raise, from the verdict of each. */
  lemma ChecksVerdictOfParts(schemaCheck: bool, lineDup: bool, columns: bool, schema: Schema, t: Table,
                             schemaOk: bool, dupOk: bool, columnsOk: bool)
    requires schemaCheck ==> CleanAll(schema, Violations(schema, t)).1.None? && (schemaOk <==> |Violations(schema, t)| == 0)
    requires !schemaCheck ==> schemaOk
    requires lineDup ==> (dupOk <==> !HasDuplicateRows(t.rows))
    requires !lineDup ==> dupOk
    requires columns ==> (columnsOk <==> forall c :: c in t.columns ==> c in schema.required)
    requires !columns ==> columnsOk
    ensures ChecksVerdict(schemaCheck, lineDup, columns, schema, t) == Success(schemaOk && dupOk && columnsOk)
  {
  }

  /** `os.path.join` of two POSIX paths. */
  function PosixJoin(a: string, b: string): string
  {
    if StartsWith(b, "/") then b
    else if a == "" || Last(a) == '/' then a + b
    else a + "/" + b
  }

  /** The file the merged table is written to: `<table name>_<table type>.tsv` in the output directory. */
  function OutputPath(outdir: string, tableName: string, tableType: string): string
  {
    PosixJoin(outdir, tableName + "_" + tableType + ".tsv")
  }

  /** The output file, whatever the directory, is named after the table and its type. */
  lemma OutputPathName(outdir: string, tableName: string, tableType: string)
    requires '/' !in tableName && tableType in TableTypes
    ensures PathName(OutputPath(outdir, tableName, tableType)) == tableName + "_" + tableType + ".tsv"
  {
    var file := tableName + "_" + tableType + ".tsv";
    assert '/' !in file;
    assert file[|tableName|] == '_';
    if outdir == "" {
      SplitNoSeparator(file, '/');
      assert OutputPath(outdir, tableName, tableType) == file;
    } else if Last(outdir) == '/' {
      var dir := outdir[..|outdir| - 1];
      assert outdir + file == dir + "/" + file;
      PathNameOfFile(dir, file);
    } else {
      PathNameOfFile(outdir, file);
    }
  }

  /** A row re-indexed to the column list `target`: the cell of each target column, missing where the row has none. */
  function Realign(columns: seq<string>, row: Row, target: seq<string>): Row
  {
    seq(|target|, k requires 0 <= k < |target| => Cell(columns, row, target[k]))
  }

  function RealignRows(columns: seq<string>, rows: seq<Row>, target: seq<string>): seq<Row>
  {
    seq(|rows|, i requires 0 <= i < |rows| => Realign(columns, rows[i], target))
  }

  /**
   * `pd.concat([remote, new])`: the union of the columns in order of first appearance,
   * the remote rows then the new rows, each re-indexed to that union.
   */
  function Concat(remote: Table, added: Table): Table
  {
    var columns := Dedup(remote.columns + added.columns);
    Table(columns, RealignRows(remote.columns, remote.rows, columns) + RealignRows(added.columns, added.rows, columns))
  }

  /** The concatenation followed by `drop_duplicates`. */
  function Merged(remote: Table, added: Table): Table
  {
    var c := Concat(remote, added);
    Table(c.columns, Dedup(c.rows))
  }

  /** Re-indexing to a list holding every column of the row keeps the cell of every name. */
  lemma RealignKeepsCells(columns: seq<string>, row: Row, target: seq<string>, name: string)
    requires forall c :: c in columns ==> c in target
    ensures Cell(target, Realign(columns, row, target), name) == Cell(columns, row, name)
  {
  }

  /**
   * Every column of either table is a column of the concatenation, each remote row
   * comes first and keeps the cell of every column name, each new row follows and
   * does the same, and columns a table lacks are missing in its rows.
   */
  lemma ConcatKeepsCells(remote: Table, added: Table)
    ensures forall c :: c in Concat(remote, added).columns <==> c in remote.columns || c in added.columns
    ensures |Concat(remote, added).rows| == |remote.rows| + |added.rows|
    ensures forall i, name :: 0 <= i < |remote.rows| ==>
      Cell(Concat(remote, added).columns, Concat(remote, added).rows[i], name) == Cell(remote.columns, remote.rows[i], name)
    ensures forall i, name :: 0 <= i < |added.rows| ==>
      Cell(Concat(remote, added).columns, Concat(remote, added).rows[|remote.rows| + i], name) == Cell(added.columns, added.rows[i], name)
  {
    var c := Concat(remote, added);
    var left := RealignRows(remote.columns, remote.rows, c.columns);
    forall i, name | 0 <= i < |remote.rows|
      ensures Cell(c.columns, c.rows[i], name) == Cell(remote.columns, remote.rows[i], name)
    {
      assert c.rows[i] == left[i];
      RealignKeepsCells(remote.columns, remote.rows[i], c.columns, name);
    }
    forall i, name | 0 <= i < |added.rows|
      ensures Cell(c.columns, c.rows[|remote.rows| + i], name) == Cell(added.columns, added.rows[i], name)
    {
      RealignKeepsCells(added.columns, added.rows[i], c.columns, name);
    }
  }

  /** The merged table holds each concatenated row exactly once, in order of first appearance. */
  lemma MergedRowsOnce(remote: Table, added: Table)
    ensures NoDup(Merged(remote, added).rows)
    ensures forall r :: r in Merged(remote, added).rows <==> r in Concat(remote, added).rows
    ensures forall k, l :: 0 <= k < l < |Merged(remote, added).rows| ==>
      FirstIndex(Concat(remote, added).rows, Merged(remote, added).rows[k]) < FirstIndex(Concat(remote, added).rows, Merged(remote, added).rows[l])
  {
    DedupKeepsFirstOrder(Concat(remote, added).rows);
  }

  /** A row of a table with distinct columns, one cell per column, is unchanged by re-indexing to its own columns. */
  lemma RealignToOwnColumns(columns: seq<string>, row: Row)
    requires NoDup(columns) && |row| == |columns|
    ensures Realign(columns, row, columns) == row
  {
    forall k | 0 <= k < |columns| ensures Cell(columns, row, columns[k]) == row[k] {
      var j := ColumnIndex(columns, columns[k]).value;
    }
  }

  /**
   * Merging a dataset whose rows the well-formed remote table already holds, under
   * the same columns, gives back the remote table with its repeated rows dropped.
   */
  lemma {:induction false} MergeOfContainedDataset(remote: Table, added: Table)
    requires WellFormed(remote) && added.columns == remote.columns
    requires forall r :: r in added.rows ==> r in remote.rows
    ensures Merged(remote, added) == Table(remote.columns, Dedup(remote.rows))
  {
    var cols := remote.columns;
    DedupAppendPresent(cols, cols);
    DedupOfNoDup(cols);
    var c := Concat(remote, added);
    assert c.columns == cols;
    forall i | 0 <= i < |remote.rows| ensures Realign(cols, remote.rows[i], cols) == remote.rows[i] {
      assert remote.rows[i] in remote.rows;
      RealignToOwnColumns(cols, remote.rows[i]);
    }
    forall i | 0 <= i < |added.rows| ensures Realign(cols, added.rows[i], cols) == added.rows[i] {
      assert added.rows[i] in added.rows;
      RealignToOwnColumns(cols, added.rows[i]);
    }
    assert RealignRows(cols, remote.rows, cols) == remote.rows;
    assert RealignRows(cols, added.rows, cols) == added.rows;
    DedupAppendPresent(remote.rows, added.rows);
  }

  /**
   * `merge_new_df`, with the remote resources, the schema loader, the dataset reader
   * and the remote table reader as parameters. The table is located first; then the
   * dataset is read (an exception there propagates), the enabled checks run, a
   * rejected dataset ends in the report's exit naming the dataset, and an accepted
   * one is merged into the remote table, which is written to the output path.
   * The final `DatasetValidationError` is never reached: a rejection always records
   * an error, so the report exits first.
   */
  method MergeNewDf(dataset: string, tableType: string, tableName: string, markdown: bool, outdir: string,
                    resources: map<string, map<string, string>>, loadSchema: string -> Schema,
                    read: string -> (map<string, Dtype> -> ParseOutcome), readRemote: string -> Result<Table, Exc>,
                    schemaCheck: bool, lineDup: bool, columns: bool)
    returns (out: MergeOutcome)
    ensures Locate(resources, tableType, tableName).Failure? ==> out == Raised(Locate(resources, tableType, tableName).error)
    ensures Locate(resources, tableType, tableName).Success? ==>
      var url := Locate(resources, tableType, tableName).value.0;
      var schema := loadSchema(Locate(resources, tableType, tableName).value.1);
      var o := ReadDatasetOutcome(schema, PathName(dataset), read(dataset));
      && (o.0.Some? ==> out == Raised(o.0.value))
      && (o.0.None? ==>
            var verdict := ChecksVerdict(schemaCheck, lineDup, columns, schema, o.2);
            && (verdict.Failure? ==> out == Raised(verdict.error))
            && (verdict == Success(false) && markdown ==>
                  out.Raised? && out.exc.SystemExitWithTable? && out.exc.message == "Invalid dataset `" + PathName(dataset) + "`")
            && (verdict == Success(false) && !markdown ==> out == Raised(SystemExit("Invalid dataset " + PathName(dataset))))
            && (verdict == Success(true) && readRemote(url).Failure? ==> out == Raised(readRemote(url).error))
            && (verdict == Success(true) && readRemote(url).Success? ==>
                  out == Written(OutputPath(outdir, tableName, tableType), Merged(readRemote(url).value, o.2))))
  {
    var located := Locate(resources, tableType, tableName);
    if located.Failure? {
      return Raised(located.error);
    }
    var schemaPath := located.value.1;
    var v := new DatasetValidator(schemaPath, loadSchema(schemaPath), dataset, read(dataset));
    if v.raised.Some? {
      return Raised(v.raised.value);
    }
    var verdict := RunChecks(v, schemaCheck, lineDup, columns);
    if verdict.Failure? {
      return Raised(verdict.error);
    }
    if !verdict.value {
      var report := if markdown then v.ToMarkdown() else v.ToRich();
      if report.Failure? {
        return Raised(report.error);
      }
      return Raised(DatasetValidationError("New Dataset is not valid"));
    }
    var remote := readRemote(located.value.0);
    if remote.Failure? {
      return Raised(remote.error);
    }
    var combined := Concat(remote.value, v.dataset);
    var kept := DropDuplicates(combined.rows);
    return Written(OutputPath(outdir, tableName, tableType), Table(combined.columns, kept));
  }
}
