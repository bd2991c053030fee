/**
 * The sample diff between two dataset files: both are read by validators
 * of the same schema (the local one first), then the accessions only the
 * local dataset lists are returned.
 */
module AutofillDiff {
  import opened Wrappers
  import opened Exceptions
  import opened Text
  import opened Tables
  import opened Schemas
  import opened Validator
  import opened CoreDiff

  /**
   * `get_sample_diff` on file paths. `read` gives the TSV reader of each dataset path.
   * An exception raised while reading the local dataset propagates first, then one
   * raised while reading the remote one; otherwise the result is the diff of the two
   * tables read.
   */
  method GetSampleDiff(local: string, remote: string, schemaPath: string, schemaDoc: Schema,
                       read: string -> (map<string, Dtype> -> ParseOutcome))
    returns (r: Result<set<string>, Exc>)
    ensures var l := ReadDatasetOutcome(schemaDoc, PathName(local), read(local));
            var m := ReadDatasetOutcome(schemaDoc, PathName(remote), read(remote));
            r == if l.0.Some? then Failure(l.0.value)
                 else if m.0.Some? then Failure(m.0.value)
                 else SampleDiff(l.2, m.2, schemaDoc)
  {
    var localValidator := new DatasetValidator(schemaPath, schemaDoc, local, read(local));
    if localValidator.raised.Some? {
      return Failure(localValidator.raised.value);
    }
    var remoteValidator := new DatasetValidator(schemaPath, schemaDoc, remote, read(remote));
    if remoteValidator.raised.Some? {
      return Failure(remoteValidator.raised.value);
    }
    var remoteSamples := AccessionSet(remoteValidator.dataset);
    if remoteSamples.Failure? {
      return Failure(remoteSamples.error);
    }
    var localSamples := AccessionSet(localValidator.dataset);
    if localSamples.Failure? {
      return Failure(localSamples.error);
    }
    return Success(localSamples.value - remoteSamples.value);
  }

  /**
   * A worked example: three accessions listed only locally, two of them in one
   * comma-separated cell, and one accession listed on both sides.
   */
  lemma DiffOfCommaListedCells(a: string, b: string, c: string, d: string, schema: Schema)
    requires ',' !in a && ',' !in b && ',' !in c && ',' !in d
    requires d != a && d != b && d != c
    ensures SampleDiff(
      Table([AccessionColumn], [[Str(a + "," + b)], [Str(c)], [Str(d)]]),
      Table([AccessionColumn], [[Str(d)]]),
      schema) == Success({a, b, c})
  {
    LocalAccessions(a, b, c, d);
    RemoteAccessions(d);
    assert {a, b, c, d} - {d} == {a, b, c};
  }

  /** The example's local table lists the four accessions. */
  lemma LocalAccessions(a: string, b: string, c: string, d: string)
    requires ',' !in a && ',' !in b && ',' !in c && ',' !in d
    ensures AccessionSet(Table([AccessionColumn], [[Str(a + "," + b)], [Str(c)], [Str(d)]])) == Success({a, b, c, d})
  {
    var local := Table([AccessionColumn], [[Str(a + "," + b)], [Str(c)], [Str(d)]]);
    assert ColumnCells(local, AccessionColumn) == [Str(a + "," + b), Str(c), Str(d)];
    PiecesOfLocalCells(a, b, c, d);
  }

  /** The example's remote table lists its one accession. */
  lemma RemoteAccessions(d: string)
    requires ',' !in d
    ensures AccessionSet(Table([AccessionColumn], [[Str(d)]])) == Success({d})
  {
    var remote := Table([AccessionColumn], [[Str(d)]]);
    assert ColumnCells(remote, AccessionColumn) == [Str(d)];
    SplitNoSeparator(d, ',');
    var r := Pieces([Str(d)]);
    forall x ensures x in r.value <==> x == d {
      assert PieceOf(x, [Str(d)][0]) <==> x == d;
    }
    assert r.value == {d};
  }

  /** The pieces of the example's local cells are the four accessions. */
  lemma PiecesOfLocalCells(a: string, b: string, c: string, d: string)
    requires ',' !in a && ',' !in b && ',' !in c && ',' !in d
    ensures Pieces([Str(a + "," + b), Str(c), Str(d)]) == Success({a, b, c, d})
  {
    assert a + "," + b == a + [','] + b;
    SplitConcat(a, ',', b);
    SplitNoSeparator(a, ',');
    SplitNoSeparator(b, ',');
    SplitNoSeparator(c, ',');
    SplitNoSeparator(d, ',');
    var cells := [Str(a + "," + b), Str(c), Str(d)];
    var r := Pieces(cells);
    assert r.Success?;
    forall x ensures x in r.value <==> x in {a, b, c, d} {
      assert PieceOf(x, cells[0]) <==> x == a || x == b;
      assert PieceOf(x, cells[1]) <==> x == c;
      assert PieceOf(x, cells[2]) <==> x == d;
    }
    assert r.value == {a, b, c, d};
  }
}
