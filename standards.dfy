/**
 * The legacy standards checker: a standards table lists, per dataset
 * column, the categories that column may hold. The checker refuses a
 * standards table that lists one (column, category) pair twice, and a
 * dataset whose column holds a value its standards do not list.
 */
module StandardsCheck {
  import opened Wrappers
  import opened Exceptions
  import opened Text
  import opened Order
  import opened Tables
  import opened Errors

  /** One row of the standards table: a dataset column and one category allowed in it. */
  datatype Entry = Entry(column: string, category: Value)

  /** The message pandas gives when a pivot meets a repeated (index, column) pair. */
  const PivotMessage := "Index contains duplicate entries, cannot reshape"

  const DuplicateMessage := "standards contains duplicated entries"

  /** The standards list one (column, category) pair twice. */
  predicate HasDuplicatePair(standards: seq<Entry>)
  {
    exists i, j :: 0 <= i < j < |standards| && standards[i] == standards[j]
  }

  function ColumnsOf(standards: seq<Entry>): (cs: seq<string>)
    ensures |cs| == |standards| && forall i :: 0 <= i < |standards| ==> cs[i] == standards[i].column
  {
    seq(|standards|, i requires 0 <= i < |standards| => standards[i].column)
  }

  /**
   * The keys of the standards dictionary built from `pivot(index="Column", columns="Category")`:
   * the distinct columns in ascending order, or the pivot's ValueError on a repeated pair.
   */
  function Pivot(standards: seq<Entry>): (r: Result<seq<string>, Exc>)
    ensures r.Failure? <==> HasDuplicatePair(standards)
    ensures r.Failure? ==> r.error == ValueError(PivotMessage)
    ensures r.Success? ==> Ascending(r.value) && forall c :: c in r.value <==> exists e :: e in standards && e.column == c
  {
    if HasDuplicatePair(standards) then Failure(ValueError(PivotMessage))
    else
      var cs := ColumnsOf(standards);
      assert forall c :: c in cs <==> exists e :: e in standards && e.column == c by {
        forall c | c in cs ensures exists e :: e in standards && e.column == c {
          var i :| 0 <= i < |cs| && cs[i] == c;
          assert standards[i] in standards;
        }
        forall e | e in standards ensures e.column in cs {
          var i :| 0 <= i < |standards| && standards[i] == e;
          assert cs[i] == e.column;
        }
      }
      Success(SortedDistinct(cs))
  }

  /** The categories the standards allow in `column`, leaving out those whose `str` is "nan". */
  function Allowed(standards: seq<Entry>, column: string): set<Value>
  {
    set e | e in standards && e.column == column && CellStr(e.category) != "nan" :: e.category
  }

  /** The values a dataset column holds, leaving out those whose `str` is "nan". */
  function Present(cells: seq<Value>): set<Value>
  {
    set v | v in cells && CellStr(v) != "nan"
  }

  /** The values of a column that its standards do not allow (`present.difference(allowed)`). */
  function Offending(standards: seq<Entry>, column: string, cells: seq<Value>): set<Value>
  {
    Present(cells) - Allowed(standards, column)
  }

  /**
   * A value offends exactly when the column holds it, its `str` is not "nan", and no
   * standards entry of the column lists it as a category.
   */
  lemma OffendingMembers(standards: seq<Entry>, column: string, cells: seq<Value>, v: Value)
    ensures v in Offending(standards, column, cells) <==>
      v in cells && CellStr(v) != "nan" && !(exists e :: e in standards && e.column == column && e.category == v)
  {
  }

  /** The message naming the offending values, in the order the set lists them, and the column. */
  function NotPresentMessage(values: seq<Value>, column: string): string
  {
    "\"" + JoinWith(seq(|values|, i requires 0 <= i < |values| => CellStr(values[i])), "\", \"") +
    "\" not present in standards \"" + column + "\" column"
  }

  /** The outcome of checking column `column`: its KeyError, its offending values, or none. */
  function ColumnVerdict(standards: seq<Entry>, dataset: Table, column: string, listing: set<Value> -> seq<Value>): Result<(), Exc>
  {
    match ColumnValues(dataset, column)
    case Failure(e) => Failure(e)
    case Success(cells) =>
      var diff := Offending(standards, column, cells);
      if |diff| > 0 then Failure(DatasetValidationError(NotPresentMessage(listing(diff), column))) else Success(())
  }

  /** The per-column test of `check_validity`, as a function of the column. */
  function VerdictOf(standards: seq<Entry>, dataset: Table, listing: set<Value> -> seq<Value>): string -> Result<(), Exc>
  {
    (column: string) => ColumnVerdict(standards, dataset, column, listing)
  }

  /** Column `columns[k]` fails and every column before it passes. */
  predicate FailsFirstAt(columns: seq<string>, verdict: string -> Result<(), Exc>, k: int)
  {
    && 0 <= k < |columns|
    && verdict(columns[k]).Failure?
    && forall l :: 0 <= l < k ==> verdict(columns[l]).Success?
  }

  /**
   * The loop of `check_validity` over the standards columns: the first column that fails its
   * test raises; later columns are not looked at.
   */
  function CheckColumns(columns: seq<string>, verdict: string -> Result<(), Exc>): (r: Result<(), Exc>)
    ensures r.Failure? <==> exists k :: 0 <= k < |columns| && verdict(columns[k]).Failure?
    ensures r.Failure? ==> exists k :: FailsFirstAt(columns, verdict, k) && r == verdict(columns[k])
    decreases |columns|
  {
    if |columns| == 0 then Success(())
    else
      var v := verdict(columns[0]);
      if v.Failure? then
        assert FailsFirstAt(columns, verdict, 0);
        v
      else
        var rest := CheckColumns(columns[1..], verdict);
        FirstFailureShift(columns, verdict, rest);
        rest
  }

  /** A first failure among the columns after a passing first column is the first failure of all of them. */
  lemma FirstFailureShift(columns: seq<string>, verdict: string -> Result<(), Exc>, rest: Result<(), Exc>)
    requires |columns| > 0 && verdict(columns[0]).Success?
    requires rest.Failure? <==> exists k :: 0 <= k < |columns[1..]| && verdict(columns[1..][k]).Failure?
    requires rest.Failure? ==> exists k :: FailsFirstAt(columns[1..], verdict, k) && rest == verdict(columns[1..][k])
    ensures rest.Failure? <==> exists k :: 0 <= k < |columns| && verdict(columns[k]).Failure?
    ensures rest.Failure? ==> exists k :: FailsFirstAt(columns, verdict, k) && rest == verdict(columns[k])
  {
    var tail := columns[1..];
    if exists k :: 0 <= k < |columns| && verdict(columns[k]).Failure? {
      var k :| 0 <= k < |columns| && verdict(columns[k]).Failure?;
      assert k > 0 && tail[k - 1] == columns[k];
    }
    if rest.Failure? {
      var k :| FailsFirstAt(tail, verdict, k) && rest == verdict(tail[k]);
      assert tail[k] == columns[k + 1];
      forall l | 0 <= l < k + 1 ensures verdict(columns[l]).Success? {
        if l > 0 {
          assert columns[l] == tail[l - 1];
        }
      }
      assert FailsFirstAt(columns, verdict, k + 1);
    }
  }

  /** `check_validity`: every column the standards name, in ascending order. */
  function CheckValidity(standards: seq<Entry>, dataset: Table, listing: set<Value> -> seq<Value>): Result<(), Exc>
  {
    match Pivot(standards)
    case Failure(e) => Failure(e)
    case Success(columns) => CheckColumns(columns, VerdictOf(standards, dataset, listing))
  }

  /** Column `column` of the dataset exists and holds a value its standards do not allow. */
  predicate Offends(standards: seq<Entry>, dataset: Table, column: string)
  {
    ColumnValues(dataset, column).Success? && |Offending(standards, column, ColumnValues(dataset, column).value)| > 0
  }

  /** The error naming the offending values of column `column`. */
  function OffendingError(standards: seq<Entry>, dataset: Table, column: string, listing: set<Value> -> seq<Value>): Exc
    requires column in dataset.columns
  {
    DatasetValidationError(NotPresentMessage(listing(Offending(standards, column, ColumnValues(dataset, column).value)), column))
  }

  /** A column the dataset has fails exactly when it offends, with the error naming its offending values. */
  lemma ColumnVerdictOfPresentColumn(standards: seq<Entry>, dataset: Table, column: string, listing: set<Value> -> seq<Value>)
    requires column in dataset.columns
    ensures ColumnVerdict(standards, dataset, column, listing).Failure? <==> Offends(standards, dataset, column)
    ensures Offends(standards, dataset, column) ==>
      ColumnVerdict(standards, dataset, column, listing) == Failure(OffendingError(standards, dataset, column, listing))
  {
  }

  /**
   * For standards without a repeated pair, over a dataset that has every column they name,
   * the check fails exactly when some named column holds a value whose `str` is not "nan" and
   * that is not an allowed category of the column; it then raises a DatasetValidationError
   * naming the first such column in ascending order and listing its offending values.
   */
  lemma CheckValidityMeaning(standards: seq<Entry>, dataset: Table, listing: set<Value> -> seq<Value>)
    requires !HasDuplicatePair(standards)
    requires forall e :: e in standards ==> e.column in dataset.columns
    ensures CheckValidity(standards, dataset, listing).Failure? <==> exists e :: e in standards && Offends(standards, dataset, e.column)
    ensures CheckValidity(standards, dataset, listing).Failure? ==> exists e :: (e in standards && Offends(standards, dataset, e.column) &&
      CheckValidity(standards, dataset, listing) == Failure(OffendingError(standards, dataset, e.column, listing)))
    ensures CheckValidity(standards, dataset, listing).Failure? ==> exists k :: (0 <= k < |Pivot(standards).value| &&
      Offends(standards, dataset, Pivot(standards).value[k]) &&
      (forall l :: 0 <= l < k ==> !Offends(standards, dataset, Pivot(standards).value[l])) &&
      CheckValidity(standards, dataset, listing) == Failure(OffendingError(standards, dataset, Pivot(standards).value[k], listing)))
  {
    var columns := Pivot(standards).value;
    var verdict := VerdictOf(standards, dataset, listing);
    var r := CheckValidity(standards, dataset, listing);
    assert r == CheckColumns(columns, verdict);
    if r.Failure? {
      var k :| FailsFirstAt(columns, verdict, k) && r == verdict(columns[k]);
      assert columns[k] in columns;
      var e :| e in standards && e.column == columns[k];
      ColumnVerdictOfPresentColumn(standards, dataset, e.column, listing);
      forall l | 0 <= l < k ensures !Offends(standards, dataset, columns[l]) {
        assert columns[l] in columns;
        var d :| d in standards && d.column == columns[l];
        ColumnVerdictOfPresentColumn(standards, dataset, d.column, listing);
      }
    }
    if exists e :: e in standards && Offends(standards, dataset, e.column) {
      var e :| e in standards && Offends(standards, dataset, e.column);
      assert e.column in columns;
      var k :| 0 <= k < |columns| && columns[k] == e.column;
      ColumnVerdictOfPresentColumn(standards, dataset, e.column, listing);
      assert verdict(columns[k]).Failure?;
    }
  }

  /** A column whose every cell is missing never offends, whatever its standards allow. */
  lemma MissingCellsNeverOffend(standards: seq<Entry>, column: string, cells: seq<Value>)
    requires forall v :: v in cells ==> v == Null
    ensures Offending(standards, column, cells) == {}
  {
    assert forall v :: v in cells ==> CellStr(v) == "nan";
  }

  /**
   * `check_unicity`: the pivot's duplicate-entries ValueError becomes a DuplicateError; any
   * other ValueError is swallowed.
   */
  function CheckUnicity(standards: seq<Entry>): (r: Result<(), Exc>)
    ensures r.Failure? <==> HasDuplicatePair(standards)
    ensures r.Failure? ==> r.error == DuplicateError(DuplicateMessage)
  {
    match Pivot(standards)
    case Success(_) => Success(())
    case Failure(e) =>
      if e.ValueError? then
        assert Contains(e.message, PivotMessage) by { assert StartsWith(e.message, PivotMessage); }
        if Contains(e.message, PivotMessage) then Failure(DuplicateError(DuplicateMessage)) else Success(())
      else Failure(e)
  }

  /** `run_tests`: the unicity check first, then the validity check. */
  function RunTests(standards: seq<Entry>, dataset: Table, listing: set<Value> -> seq<Value>): Result<(), Exc>
  {
    match CheckUnicity(standards)
    case Failure(e) => Failure(e)
    case Success(_) => CheckValidity(standards, dataset, listing)
  }

  /**
   * Running the unicity check first turns every repeated pair into a DuplicateError, so the
   * pivot's ValueError never escapes; otherwise the outcome is that of the validity check.
   */
  lemma RunTestsOrder(standards: seq<Entry>, dataset: Table, listing: set<Value> -> seq<Value>)
    ensures HasDuplicatePair(standards) ==> RunTests(standards, dataset, listing) == Failure(DuplicateError(DuplicateMessage))
    ensures !HasDuplicatePair(standards) ==> RunTests(standards, dataset, listing) == CheckValidity(standards, dataset, listing)
    ensures RunTests(standards, dataset, listing).Failure? ==> !RunTests(standards, dataset, listing).error.ValueError?
  {
    if !HasDuplicatePair(standards) {
      var columns := Pivot(standards).value;
      CheckColumnsErrors(standards, dataset, columns, listing);
    }
  }

  /** The column loop raises only KeyErrors and DatasetValidationErrors. */
  lemma CheckColumnsErrors(standards: seq<Entry>, dataset: Table, columns: seq<string>, listing: set<Value> -> seq<Value>)
    ensures var r := CheckColumns(columns, VerdictOf(standards, dataset, listing));
      r.Failure? ==> r.error.KeyError? || r.error.DatasetValidationError?
  {
    var verdict := VerdictOf(standards, dataset, listing);
    var r := CheckColumns(columns, verdict);
    if r.Failure? {
      var k :| FailsFirstAt(columns, verdict, k) && r == verdict(columns[k]);
    }
  }
}
