/**
 * The sample diff on in-memory tables: the accessions named in the local
 * table's `archive_accession` column and in no cell of the remote one.
 * A cell may list several accessions separated by commas.
 */
module CoreDiff {
  import opened Wrappers
  import opened Exceptions
  import opened Text
  import opened Tables
  import opened Schemas

  const AccessionColumn := "archive_accession"

  /** `x` is one of the comma-separated pieces of the text cell `v`. */
  predicate PieceOf(x: string, v: Value)
  {
    v.Str? && x in Split(v.s, ',')
  }

  /** The comma-separated pieces of a column's cells; a cell that is not text has no `split` (AttributeError). */
  function Pieces(cells: seq<Value>): (r: Result<set<string>, Exc>)
    ensures r.Failure? <==> exists i :: 0 <= i < |cells| && !cells[i].Str?
    ensures r.Failure? ==> r.error == AttributeError
    ensures r.Success? ==> forall x :: x in r.value <==> exists i :: 0 <= i < |cells| && PieceOf(x, cells[i])
  {
    if |cells| == 0 then Success({})
    else if !cells[0].Str? then Failure(AttributeError)
    else
      match Pieces(cells[1..])
      case Failure(e) => assert !cells[1..][0].Str? || exists i :: 1 <= i < |cells| && !cells[i].Str?; Failure(e)
      case Success(rest) =>
        assert forall x :: (exists i :: 0 <= i < |cells| && PieceOf(x, cells[i])) <==>
          PieceOf(x, cells[0]) || exists i :: 0 <= i < |cells[1..]| && PieceOf(x, cells[1..][i]) by {
          forall x ensures (exists i :: 0 <= i < |cells| && PieceOf(x, cells[i])) ==>
            PieceOf(x, cells[0]) || exists i :: 0 <= i < |cells[1..]| && PieceOf(x, cells[1..][i]) {
            if exists i :: 0 <= i < |cells| && PieceOf(x, cells[i]) {
              var i :| 0 <= i < |cells| && PieceOf(x, cells[i]);
              if i > 0 {
                assert cells[1..][i - 1] == cells[i];
              }
            }
          }
        }
        Success((set x | x in Split(cells[0].s, ',')) + rest)
  }

  /** The cells of column `name` of `t`, when the column exists. */
  function ColumnCells(t: Table, name: string): seq<Value>
  {
    match ColumnValues(t, name)
    case Failure(_) => []
    case Success(cells) => cells
  }

  /** The set of accessions a table lists: `set(chain(*[c.split(",") for c in t["archive_accession"]]))`. */
  function AccessionSet(t: Table): (r: Result<set<string>, Exc>)
    ensures AccessionColumn !in t.columns ==> r == Failure(KeyError(AccessionColumn))
    ensures AccessionColumn in t.columns ==> r == Pieces(ColumnCells(t, AccessionColumn))
  {
    match ColumnValues(t, AccessionColumn)
    case Failure(e) => Failure(e)
    case Success(cells) => Pieces(cells)
  }

  /**
   * `get_sample_diff`: the accessions only the local table lists, as a set (the
   * source returns them as a tuple in the set's iteration order). The remote
   * table is read first, so its errors come first. The schema is not used.
   */
  function SampleDiff(local: Table, remote: Table, schema: Schema): (r: Result<set<string>, Exc>)
    ensures r.Success? <==> AccessionSet(remote).Success? && AccessionSet(local).Success?
    ensures r.Success? ==> r.value == AccessionSet(local).value - AccessionSet(remote).value
    ensures AccessionSet(remote).Failure? ==> r == Failure(AccessionSet(remote).error)
    ensures r.Success? ==> forall x :: x in r.value <==>
      (exists i :: 0 <= i < |ColumnCells(local, AccessionColumn)| && PieceOf(x, ColumnCells(local, AccessionColumn)[i]))
      && !(exists i :: 0 <= i < |ColumnCells(remote, AccessionColumn)| && PieceOf(x, ColumnCells(remote, AccessionColumn)[i]))
  {
    match AccessionSet(remote)
    case Failure(e) => Failure(e)
    case Success(remoteSamples) =>
      match AccessionSet(local)
      case Failure(e) => Failure(e)
      case Success(localSamples) => Success(localSamples - remoteSamples)
  }

  /** The schema argument has no effect on the diff. */
  lemma SampleDiffIgnoresSchema(local: Table, remote: Table, s1: Schema, s2: Schema)
    ensures SampleDiff(local, remote, s1) == SampleDiff(local, remote, s2)
  {
  }

  /** When every local accession is also remote, the diff is empty. */
  lemma SampleDiffEmptyWhenCovered(local: Table, remote: Table, schema: Schema)
    requires AccessionSet(local).Success? && AccessionSet(remote).Success?
    requires AccessionSet(local).value <= AccessionSet(remote).value
    ensures SampleDiff(local, remote, schema) == Success({})
  {
    assert AccessionSet(local).value - AccessionSet(remote).value == {};
  }

  /** Splitting is on commas only, with nothing trimmed: the pieces of a cell join back into the cell. */
  lemma PiecesRebuildCell(s: string)
    ensures forall k :: 0 <= k < |Split(s, ',')| ==> ',' !in Split(s, ',')[k]
    ensures Join(Split(s, ','), ',') == s
  {
    JoinSplit(s, ',');
  }
}
