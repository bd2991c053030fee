/**
 * The dataset validator: it reads a dataset against a schema and collects
 * validation errors in an append-only list; each check returns whether
 * the dataset passed it, and the two report methods turn the error list
 * into a verdict.
 */
module Validator {
  import opened Wrappers
  import opened Exceptions
  import opened Text
  import opened Tables
  import opened Errors
  import opened Schemas
  import opened Draft7

  /**
   * What the TSV reader does with the read-type map: it returns the table, fails
   * with one of the errors the validator catches (a parser error, a value error
   * or an attribute error, given by its message), or raises any other exception.
   */
  datatype ParseOutcome = Parsed(table: Table) | ParseFailed(reason: string) | ParseRaised(exc: Exc)

  /** The error recorded when the reader fails: source is the dataset's file name, no column and no row. */
  function ParsingError(datasetName: string, reason: string): DFError
  {
    DFError(DatasetParsingErrorName, Text(datasetName), NoneField, NoneField, reason)
  }

  /**
   * `read_dataset`: the exception that escapes it (if any), the errors it records
   * and the table it returns.
   */
  function ReadDatasetOutcome(schema: Schema, datasetName: string, read: map<string, Dtype> -> ParseOutcome):
    (r: (Option<Exc>, seq<DFError>, Table))
    ensures r.0.None? <==> ProjectDtypes(schema.properties).Success? && read(ProjectDtypes(schema.properties).value).Parsed?
    ensures r.0.None? ==> r.1 == [] && r.2 == read(ProjectDtypes(schema.properties).value).table
    ensures |r.1| == 1 <==> ProjectDtypes(schema.properties).Success? && read(ProjectDtypes(schema.properties).value).ParseFailed?
    ensures |r.1| == 1 ==>
      && r.0 == Some(SystemExit(""))
      && r.1[0].error == DatasetParsingErrorName
      && r.1[0].source == Text(datasetName) && r.1[0].column == NoneField && r.1[0].row == NoneField
    ensures |r.1| <= 1
  {
    match ProjectDtypes(schema.properties)
    case Failure(e) => (Some(e), [], Table([], []))
    case Success(dtypes) =>
      match read(dtypes)
      case Parsed(t) => (None, [], t)
      case ParseFailed(reason) => (Some(SystemExit("")), [ParsingError(datasetName, reason)], Table([], []))
      case ParseRaised(e) => (Some(e), [], Table([], []))
  }

  /** The errors `check_columns` records, one per extra column, all with the same message. */
  function ColumnErrors(extra: seq<string>, message: string): seq<DFError>
  {
    seq(|extra|, k requires 0 <= k < |extra| => ColumnError(extra[k], message))
  }

  /** The error of one extra column. */
  function ColumnError(column: string, message: string): DFError
  {
    DFError(ColumnDifferenceErrorName, Text(column), NoneField, NoneField, message)
  }

  /** One more extra column, one more error at the end. */
  lemma ColumnErrorsSnoc(extra: seq<string>, message: string, i: nat)
    requires i < |extra|
    ensures ColumnErrors(extra[..i + 1], message) == ColumnErrors(extra[..i], message) + [ColumnError(extra[i], message)]
  {
  }

  /** The message naming the set of extra columns, listed in the set's iteration order. */
  function ColumnMessage(extra: seq<string>): string
  {
    "Dataset has different columns compared to schema {" + ReprList(extra) + "}"
  }

  /** The value of a path step used as the error's column: a record index or a property name. */
  function StepField(e: PathElem): Field
  {
    match e
    case Index(i) => Number(i)
    case Key(k) => Text(k)
  }

  /** The `$ref` of the property named by a path step; a KeyError when there is none. */
  function RefOf(schema: Schema, step: PathElem): (r: Result<string, Exc>)
    ensures step.Index? ==> r.Failure?
    ensures step.Key? && r.Success? ==> exists p :: p in schema.properties && p.name == step.k && p.ref == Some(r.value)
  {
    match step
    case Index(i) => Failure(KeyError(IntToString(i)))
    case Key(k) =>
      match PropertyNamed(schema.properties, k)
      case None => Failure(KeyError(k))
      case Some(p) => if p.ref.Some? then Success(p.ref.value) else Failure(KeyError("$ref"))
  }

  function RefMessage(instance: Field, ref: string): string
  {
    "'" + StrOf(instance) + "' is not an accepted value.\nPlease check [link=" + ref + "]" + ref + "[/link]"
  }

  /** The subschema that failed lists more than three accepted values. */
  predicate LongEnum(v: Violation)
  {
    v.schemaEnum.Some? && |v.schemaEnum.value| > 3
  }

  /**
   * `cleanup_errors`: the column is the last path step, the row is the first path
   * step (a record index) plus 2, and a long `enum` replaces the message by a link to
   * the column's `$ref`. An empty path is an IndexError, a missing `$ref` a KeyError,
   * and a first step that is a name a TypeError.
   */
  function CleanupErrors(schema: Schema, v: Violation): (r: Result<DFError, Exc>)
    ensures |v.path| == 0 ==> r == Failure(IndexError)
    ensures r.Success? <==> |v.path| > 0 && (LongEnum(v) ==> RefOf(schema, Last(v.path)).Success?) && v.path[0].Index?
    ensures r.Success? ==>
      && r.value.error == SchemaValidationErrorName
      && r.value.source == v.instance
      && r.value.column == StepField(Last(v.path))
      && r.value.row == Text(NatToString(v.path[0].i + 2))
      && r.value.message == (if LongEnum(v) then RefMessage(v.instance, RefOf(schema, Last(v.path)).value) else v.message)
  {
    if |v.path| == 0 then Failure(IndexError)
    else
      var errColumn := Last(v.path);
      var message: Result<string, Exc> :=
        if LongEnum(v) then
          match RefOf(schema, errColumn)
          case Failure(e) => Failure(e)
          case Success(ref) => Success(RefMessage(v.instance, ref))
        else Success(v.message);
      if message.Failure? then Failure(message.error)
      else if v.path[0].Key? then Failure(TypeError)
      else Success(DFError(SchemaValidationErrorName, v.instance, StepField(errColumn), Text(NatToString(v.path[0].i + 2)), message.value))
  }

  /** The reported row of a cleaned violation reads back as its record index plus 2. */
  lemma CleanupRowIsIndexPlusTwo(schema: Schema, v: Violation)
    requires CleanupErrors(schema, v).Success?
    ensures ParseNat(StrOf(CleanupErrors(schema, v).value.row)) == v.path[0].i + 2
  {
    ParseNatToString(v.path[0].i + 2);
  }

  /**
   * The errors `validate_schema` records for the violations in order, and the
   * exception of the first violation whose cleanup raises (errors recorded before
   * it stay recorded).
   */
  function CleanAll(schema: Schema, vs: seq<Violation>): (seq<DFError>, Option<Exc>)
  {
    if |vs| == 0 then ([], None)
    else
      var prev := CleanAll(schema, vs[..|vs| - 1]);
      if prev.1.Some? then prev
      else
        match CleanupErrors(schema, Last(vs))
        case Failure(e) => (prev.0, Some(e))
        case Success(err) => (prev.0 + [err], None)
  }

  /**
   * The cleanups raise exactly when one of the violations' cleanups raises; otherwise one
   * error is recorded per violation, and never more than one.
   */
  lemma {:induction false} CleanAllMeaning(schema: Schema, vs: seq<Violation>)
    ensures CleanAll(schema, vs).1.None? <==> forall k :: 0 <= k < |vs| ==> CleanupErrors(schema, vs[k]).Success?
    ensures CleanAll(schema, vs).1.None? ==> |CleanAll(schema, vs).0| == |vs|
    ensures |CleanAll(schema, vs).0| <= |vs|
    decreases |vs|
  {
    if |vs| > 0 {
      var init := vs[..|vs| - 1];
      CleanAllMeaning(schema, init);
      assert forall k :: 0 <= k < |init| ==> init[k] == vs[k];
    }
  }

  /** Every property listing more than three accepted values names a `$ref`. */
  predicate RefsForLongEnums(schema: Schema)
  {
    forall p :: p in schema.properties && p.enumValues.Some? && |p.enumValues.value| > 3 ==> p.ref.Some?
  }

  /** The property found under a name of a schema with distinct names is the one with that name. */
  lemma PropertyNamedUnique(props: seq<Property>, p: Property)
    requires DistinctNames(props) && p in props
    ensures PropertyNamed(props, p.name) == Some(p)
  {
    var q := PropertyNamed(props, p.name).value;
    var i :| 0 <= i < |props| && props[i] == p;
    var j :| 0 <= j < |props| && props[j] == q;
    if i != j {
      assert props[i].name == props[j].name;
    }
  }

  /** The library's violations of a schema with distinct names and `$ref`s for long enums all clean up. */
  lemma CleanupOfLibraryViolations(schema: Schema, t: Table)
    requires DistinctNames(schema.properties) && RefsForLongEnums(schema)
    ensures forall k :: 0 <= k < |Violations(schema, t)| ==> CleanupErrors(schema, Violations(schema, t)[k]).Success?
  {
    var vs := Violations(schema, t);
    forall k | 0 <= k < |vs| ensures CleanupErrors(schema, vs[k]).Success? {
      var v := vs[k];
      assert v in vs;
      assert WellShaped(schema, v);
      if LongEnum(v) {
        var p :| p in schema.properties && v.path[1] == Key(p.name) && v.schemaEnum == Applied(p).enumValues;
        PropertyNamedUnique(schema.properties, p);
        assert Last(v.path) == Key(p.name);
      }
    }
  }

  /** On the library's violations of such a schema nothing raises, and none are reported exactly when the dataset conforms. */
  lemma LibraryViolationsVerdict(schema: Schema, t: Table)
    requires DistinctNames(schema.properties) && RefsForLongEnums(schema)
    ensures CleanAll(schema, Violations(schema, t)).1.None?
    ensures Violations(schema, t) == [] <==> Conforms(schema, t)
  {
    CleanupOfLibraryViolations(schema, t);
    CleanAllMeaning(schema, Violations(schema, t));
    ViolationsEmptyIffConforms(schema, t);
  }

  /** The errors `check_duplicate_rows` records: one per group of identical rows, the group's index tuple as source and row. */
  function DuplicateRowErrors(groups: seq<seq<nat>>): seq<DFError>
  {
    seq(|groups|, k requires 0 <= k < |groups| => DuplicateRowError(groups[k]))
  }

  /** One more group, one more error at the end. */
  lemma DuplicateRowErrorsSnoc(groups: seq<seq<nat>>, i: nat)
    requires i < |groups|
    ensures DuplicateRowErrors(groups[..i + 1]) == DuplicateRowErrors(groups[..i]) + [DuplicateRowError(groups[i])]
  {
  }

  /** The error of one group of identical rows. */
  function DuplicateRowError(g: seq<nat>): DFError
  {
    DFError(DuplicateRowErrorName, IndexTuple(g), NoneField, IndexTuple(g), "Rows " + StrOf(IndexTuple(g)) + " are duplicated")
  }

  /** Each duplicate-row error names at least two rows, all equal, and every row equal to them. */
  lemma DuplicateRowErrorsNameWholeGroups(rows: seq<Row>, e: DFError)
    requires e in DuplicateRowErrors(DuplicateGroups(rows))
    ensures && e.source.IndexTuple? && e.source == e.row && |e.source.ixs| >= 2 && e.source.ixs[0] < |rows|
            && (forall k :: 0 <= k < |e.source.ixs| ==> e.source.ixs[k] < |rows| && rows[e.source.ixs[k]] == rows[e.source.ixs[0]])
            && (forall j :: 0 <= j < |rows| && rows[j] == rows[e.source.ixs[0]] ==> j in e.source.ixs)
  {
    var groups := DuplicateGroups(rows);
    var k :| 0 <= k < |groups| && DuplicateRowErrors(groups)[k] == e;
    var g := groups[k];
    assert g in groups;
    DuplicateGroupsMembers(rows, g);
    var f: nat :| GroupOf(rows, f, g);
  }

  /** The validator of one dataset against one schema. */
  class DatasetValidator {
    /** The recorded validation errors, in the order they were found. */
    var errors: seq<DFError>
    const datasetName: string
    const schemaName: string
    const schema: Schema
    const dataset: Table
    /** The exception raised while reading the dataset, if any: then no check can run. */
    const raised: Option<Exc>

    /** The dataset was read without an exception. */
    predicate ParsingOk()
    {
      raised.None?
    }

    /**
     * Reads the dataset with the read types projected from the schema. A failing
     * reader records one "Dataset Parsing Error" and exits; a schema whose first
     * type is refused raises before anything is recorded.
     */
    constructor (schemaPath: string, schemaDoc: Schema, datasetPath: string, read: map<string, Dtype> -> ParseOutcome)
      ensures datasetName == PathName(datasetPath) && schemaName == PathName(schemaPath) && schema == schemaDoc
      ensures (raised, errors, dataset) == ReadDatasetOutcome(schemaDoc, PathName(datasetPath), read)
    {
      datasetName := PathName(datasetPath);
      schemaName := PathName(schemaPath);
      schema := schemaDoc;
      var dtypes := ReadDtypes(schemaDoc.properties);
      var failure: Option<string> := None;
      if dtypes.Failure? {
        raised := Some(dtypes.error);
        dataset := Table([], []);
      } else {
        match read(dtypes.value) {
          case Parsed(t) =>
            raised := None;
            dataset := t;
          case ParseFailed(reason) =>
            raised := Some(SystemExit(""));
            dataset := Table([], []);
            failure := Some(reason);
          case ParseRaised(e) =>
            raised := Some(e);
            dataset := Table([], []);
        }
      }
      errors := [];
      new;
      assert failure.Some? <==> ProjectDtypes(schemaDoc.properties).Success? && read(ProjectDtypes(schemaDoc.properties).value).ParseFailed?;
      if failure.Some? {
        assert failure.value == read(ProjectDtypes(schemaDoc.properties).value).reason;
        AddError(ParsingError(datasetName, failure.value));
        ghost var o := ReadDatasetOutcome(schemaDoc, PathName(datasetPath), read);
        assert errors == o.1;
        assert raised == o.0;
        assert dataset == o.2;
      }
    }

    /** `add_error`: appends, and changes nothing else. */
    method AddError(err: DFError)
      modifies this
      ensures errors == old(errors) + [err]
    {
      errors := errors + [err];
    }

    /**
     * `check_columns`: passes exactly when every dataset column is a required column.
     * Otherwise it records one "Different Columns Error" per extra column, in the
     * iteration order of the set of extra columns, which the message also lists.
     * Required columns missing from the dataset are not reported.
     */
    method CheckColumns() returns (ok: bool, ghost extra: seq<string>)
      modifies this
      ensures ok <==> forall c :: c in dataset.columns ==> c in schema.required
      ensures NoDup(extra) && forall c :: c in extra <==> c in dataset.columns && c !in schema.required
      ensures errors == old(errors) + ColumnErrors(extra, ColumnMessage(extra))
    {
      var colDiff := set c | c in dataset.columns && c !in schema.required;
      var order := Enumerate(colDiff);
      extra := order;
      if colDiff == {} {
        assert forall c :: c in dataset.columns && c !in schema.required ==> c in colDiff;
        return true, extra;
      }
      var message := ColumnMessage(order);
      ghost var before := errors;
      for i := 0 to |order|
        invariant errors == before + ColumnErrors(order[..i], message)
      {
        ColumnErrorsSnoc(order, message, i);
        AddError(ColumnError(order[i], message));
      }
      assert order[..|order|] == order;
      ghost var c :| c in colDiff;
      return false, extra;
    }

    /**
     * `validate_schema`: records one cleaned error per violation, in order, and passes
     * exactly when there were none. A cleanup that raises stops the loop, keeping the
     * errors recorded before it. On the library's own violations the verdict is
     * conformance of the dataset to the schema.
     */
    method ValidateSchema(violations: seq<Violation>) returns (r: Result<bool, Exc>)
      modifies this
      ensures errors == old(errors) + CleanAll(schema, violations).0
      ensures r.Failure? <==> CleanAll(schema, violations).1.Some?
      ensures r.Failure? ==> r.error == CleanAll(schema, violations).1.value
      ensures r.Success? ==> (r.value <==> |violations| == 0) && |errors| == |old(errors)| + |violations|
    {
      var errCnt := 0;
      for i := 0 to |violations|
        invariant CleanAll(schema, violations[..i]).1.None?
        invariant errors == old(errors) + CleanAll(schema, violations[..i]).0
        invariant errCnt == i
      {
        assert violations[..i + 1][..i] == violations[..i];
        var cleaned := CleanupErrors(schema, violations[i]);
        if cleaned.Failure? {
          CleanAllFailureStays(schema, violations, i + 1);
          return Failure(cleaned.error);
        }
        AddError(cleaned.value);
        errCnt := errCnt + 1;
      }
      assert violations[..|violations|] == violations;
      CleanAllMeaning(schema, violations);
      if errCnt > 0 {
        return Success(false);
      } else {
        return Success(true);
      }
    }

    /**
     * `check_duplicate_rows`: fails exactly when two distinct rows agree on every
     * column, missing cells agreeing with missing cells, and then records one
     * "Duplicated Row Error" per group of identical rows (the order of the groups is
     * not specified).
     */
    method CheckDuplicateRows() returns (ok: bool)
      modifies this
      ensures ok <==> !HasDuplicateRows(dataset.rows)
      ensures |errors| >= |old(errors)| && errors[..|old(errors)|] == old(errors)
      ensures multiset(errors[|old(errors)|..]) == multiset(DuplicateRowErrors(DuplicateGroups(dataset.rows)))
      ensures !ok ==> |errors| > |old(errors)|
    {
      var dupRows := DuplicateGroups(dataset.rows);
      DuplicateGroupsEmptyIff(dataset.rows);
      if |dupRows| == 0 {
        assert errors[|old(errors)|..] == [];
        return true;
      }
      ghost var before := errors;
      for i := 0 to |dupRows|
        invariant errors == before + DuplicateRowErrors(dupRows[..i])
      {
        DuplicateRowErrorsSnoc(dupRows, i);
        AddError(DuplicateRowError(dupRows[i]));
      }
      assert dupRows[..|dupRows|] == dupRows;
      assert errors[|before|..] == DuplicateRowErrors(dupRows);
      return false;
    }

    /** `to_rich`: an exit naming the dataset when any error was recorded, otherwise the dataset is valid. */
    function ToRich(): (r: Result<bool, Exc>)
      reads this
      ensures r.Failure? <==> |errors| > 0
      ensures r.Failure? ==> r.error == SystemExit("Invalid dataset " + datasetName)
      ensures r.Success? ==> r.value
    {
      if |errors| > 0 then Failure(SystemExit("Invalid dataset " + datasetName)) else Success(true)
    }

    /** `to_markdown`: an exit carrying one report row per recorded error when there is any, otherwise valid. */
    function ToMarkdown(): (r: Result<bool, Exc>)
      reads this
      ensures r.Failure? <==> |errors| > 0
      ensures r.Failure? ==>
        && r.error.SystemExitWithTable? && |r.error.table| == |errors|
        && forall k :: 0 <= k < |errors| ==> r.error.table[k] == ToList(errors[k])
      ensures r.Success? ==> r.value
    {
      if |errors| > 0 then
        Failure(SystemExitWithTable("Invalid dataset `" + datasetName + "`", seq(|errors|, k requires 0 <= k < |errors| reads this => ToList(errors[k]))))
      else Success(true)
    }
  }

  /** Once the cleanups of a prefix raise, the whole list raises the same and records the same. */
  lemma {:induction false} CleanAllFailureStays(schema: Schema, vs: seq<Violation>, n: nat)
    requires n <= |vs| && CleanAll(schema, vs[..n]).1.Some?
    ensures CleanAll(schema, vs) == CleanAll(schema, vs[..n])
    decreases |vs| - n
  {
    if n < |vs| {
      assert vs[..n + 1][..n] == vs[..n];
      CleanAllFailureStays(schema, vs, n + 1);
    } else {
      assert vs[..n] == vs;
    }
  }

  /** The members of a set of column names, each once, in the set's iteration order. */
  method Enumerate(columns: set<string>) returns (order: seq<string>)
    ensures NoDup(order) && forall c :: c in order <==> c in columns
    ensures |order| == |columns|
  {
    order := [];
    var rest := columns;
    while rest != {}
      invariant rest <= columns
      invariant NoDup(order)
      invariant forall c :: c in order <==> c in columns && c !in rest
      invariant |order| == |columns| - |rest|
      decreases |rest|
    {
      var c :| c in rest;
      order := order + [c];
      rest := rest - {c};
    }
  }

  /** The two reports agree on the verdict. */
  lemma ReportsAgree(v: DatasetValidator)
    ensures v.ToRich().Success? <==> v.ToMarkdown().Success?
  {
  }
}
