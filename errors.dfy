/**
 * The validation error record (`DFError`) and the Python `str` renderings of
 * the values that end up in its fields, plus the `name` strings of the
 * validator's exception classes.
 */
module Errors {
  import opened Text
  import opened Tables

  // The `name` attribute of each exception class of the validator.
  const DatasetValidationErrorName := "Dataset Validation Error"
  const DuplicateRowErrorName := "Duplicated Row Error"
  const DuplicatedDoiErrorName := "Duplicated DOI Error"
  const ColumnDifferenceErrorName := "Different Columns Error"
  const ParsingErrorName := "Parsing Error"
  const NetworkErrorName := "Network Error"
  const DuplicatedEntriesErrorName := "Duplicated Entries in column Error"

  // Error kinds written as literals in the validator itself.
  const SchemaErrorName := "Schema Error"
  const DatasetParsingErrorName := "Dataset Parsing Error"
  const SchemaValidationErrorName := "Schema Validation Error"

  /**
   * What a field of an error may hold: text, an integer, Python's `None`,
   * a tuple of row indices, or a numpy array of cells.
   */
  datatype Field =
    | Text(s: string)
    | Number(n: int)
    | NoneField
    | IndexTuple(ixs: seq<nat>)
    | CellArray(cells: seq<Value>)
    | Record(keys: seq<string>, vals: seq<Value>)

  /** A cell of the dataset (a JSON instance) as an error field. */
  function FieldOfValue(v: Value): (f: Field)
    ensures v.Str? <==> f.Text?
    ensures v.Int? <==> f.Number?
    ensures v.Null? <==> f.NoneField?
  {
    match v
    case Str(s) => Text(s)
    case Int(i) => Number(i)
    case Null => NoneField
  }

  /** The comma-separated body of a tuple's `str`. */
  function JoinIndices(ixs: seq<nat>): string
  {
    if |ixs| == 0 then ""
    else if |ixs| == 1 then NatToString(ixs[0])
    else NatToString(ixs[0]) + ", " + JoinIndices(ixs[1..])
  }

  /** One element of a numpy object array as its `str` shows it. */
  function CellRepr(v: Value): string
  {
    match v
    case Str(s) => Repr(s)
    case Int(i) => IntToString(i)
    case Null => "nan"
  }

  /** Python's `str` of a cell: the text itself, the digits of an integer, "nan" for a missing value. */
  function CellStr(v: Value): string
  {
    match v
    case Str(s) => s
    case Int(i) => IntToString(i)
    case Null => "nan"
  }

  /** Python's `repr` of a JSON value as `json.load` returns it (null is `None`). */
  function PyRepr(v: Value): string
  {
    match v
    case Str(s) => Repr(s)
    case Int(i) => IntToString(i)
    case Null => "None"
  }

  /** The `key: value` items of a dictionary's `str`, for the keys that have a value. */
  function JoinItems(keys: seq<string>, vals: seq<Value>): string
    decreases |keys|
  {
    if |keys| == 0 || |vals| == 0 then ""
    else if |keys| == 1 || |vals| == 1 then Repr(keys[0]) + ": " + PyRepr(vals[0])
    else Repr(keys[0]) + ": " + PyRepr(vals[0]) + ", " + JoinItems(keys[1..], vals[1..])
  }

  function JoinCells(cells: seq<Value>): string
  {
    if |cells| == 0 then ""
    else if |cells| == 1 then CellRepr(cells[0])
    else CellRepr(cells[0]) + " " + JoinCells(cells[1..])
  }

  /** Python's `str()` of a field value. */
  function StrOf(f: Field): string
  {
    match f
    case Text(s) => s
    case Number(n) => IntToString(n)
    case NoneField => "None"
    case IndexTuple(ixs) => if |ixs| == 1 then "(" + NatToString(ixs[0]) + ",)" else "(" + JoinIndices(ixs) + ")"
    case CellArray(cells) => "[" + JoinCells(cells) + "]"
    case Record(keys, vals) => "{" + JoinItems(keys, vals) + "}"
  }

  /** A DataFrame validation error: its kind, the offending source, column, row, and a message. */
  datatype DFError = DFError(error: string, source: Field, column: Field, row: Field, message: string)

  /** The five column titles of the report, in report order. */
  const Header: seq<string> := ["Error", "Source", "Column", "Row", "Message"]

  /** `DFError.to_list`: the `str` of the five fields, in field order. */
  function ToList(e: DFError): (r: seq<string>)
    ensures |r| == |Header|
  {
    [e.error, StrOf(e.source), StrOf(e.column), StrOf(e.row), e.message]
  }

  /** `DFError.to_dict`: each title mapped to the `str` of its field. */
  function ToDict(e: DFError): (d: map<string, string>)
    ensures d.Keys == set k | k in Header
  {
    map["Error" := e.error, "Source" := StrOf(e.source), "Column" := StrOf(e.column),
        "Row" := StrOf(e.row), "Message" := e.message]
  }

  /** The dictionary and the list agree: the k-th title maps to the k-th list entry. */
  lemma ToDictAgreesWithToList(e: DFError)
    ensures forall k :: 0 <= k < |Header| ==> ToDict(e)[Header[k]] == ToList(e)[k]
  {
    var d := ToDict(e);
    var l := ToList(e);
    assert d[Header[0]] == l[0] && d[Header[1]] == l[1] && d[Header[2]] == l[2];
    assert d[Header[3]] == l[3] && d[Header[4]] == l[4];
  }

  /** A row number given as an integer renders as its own decimal digits: row 0 shows "0", not "2". */
  lemma {:induction false} RowNumberRoundTrip(n: nat)
    ensures forall i :: 0 <= i < |StrOf(Number(n))| ==> IsDigit(StrOf(Number(n))[i])
    ensures ParseNat(StrOf(Number(n))) == n
  {
    ParseNatToString(n);
  }
}
