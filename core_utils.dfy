/**
 * The converter helpers of the utilities module: read file names from a
 * library's download links, optionally prefixed by the experiment
 * accession of the run (looked up remotely, here a parameter), and the
 * nf-core/eager input rows built from them.
 */
module CoreUtils {
  import opened Wrappers
  import opened Exceptions
  import opened Text
  import opened Tables
  import opened Errors
  import opened Selection
  import CoreConvert

  /**
   * What `get_filename` returns: a pair of file names, or the bare string "NA" for a
   * missing links cell.
   */
  datatype Filenames = Pair(fwd: string, rev: string) | NotAvailable

  /** `x.split("/")[-1]`. */
  function LastSegment(x: string): string
  {
    Last(Split(x, '/'))
  }

  /** The run accession a file name starts with: the text before the first "." and then before the first "_". */
  function RunAccessionOf(fwd: string): string
  {
    Split(Split(fwd, '.')[0], '_')[0]
  }

  /**
   * `get_filename(path_string, prepend_exp)`. The cell's `str` "nan" gives "NA". Exactly
   * one ";" splits the text into the forward and reverse links; otherwise the unpacking
   * fails, the forward link is the whole text and the reverse name is unbound, and so
   * returned as "NA". With `prepend_exp`, the experiment of the forward file's run is
   * looked up (its failure propagates) and prefixed to the forward name and, when
   * bound, to the reverse name.
   */
  function GetFilename(pathString: Value, prependExp: bool, experimentOf: string -> Result<string, Exc>): (r: Result<Filenames, Exc>)
    ensures CellStr(pathString) == "nan" ==> r == Success(NotAvailable)
    ensures r == Success(NotAvailable) ==> CellStr(pathString) == "nan"
    ensures !prependExp ==> r.Success?
    ensures r.Success? && r.value.Pair? && |Split(CellStr(pathString), ';')| != 2 ==> r.value.rev == "NA"
  {
    var s := CellStr(pathString);
    if s == "nan" then Success(NotAvailable)
    else
      var pieces := Split(s, ';');
      var fwd := if |pieces| == 2 then LastSegment(pieces[0]) else LastSegment(s);
      var rev: Option<string> := if |pieces| == 2 then Some(LastSegment(pieces[1])) else None;
      if prependExp then
        match experimentOf(RunAccessionOf(fwd))
        case Failure(e) => Failure(e)
        case Success(exp) => Success(Pair(exp + "_" + fwd, if rev.Some? then exp + "_" + rev.value else "NA"))
      else Success(Pair(fwd, if rev.Some? then rev.value else "NA"))
  }

  /**
   * Two links `dir1/fwd;dir2/rev` give the pair of their file names, each prefixed by the
   * experiment of the forward file's run when asked to.
   */
  lemma GetFilenameOfTwoLinks(dir1: string, fwd: string, dir2: string, rev: string, experimentOf: string -> Result<string, Exc>)
    requires ';' !in dir1 && ';' !in fwd && ';' !in dir2 && ';' !in rev && '/' !in fwd && '/' !in rev
    ensures GetFilename(Str(dir1 + "/" + fwd + ";" + dir2 + "/" + rev), false, experimentOf) == Success(Pair(fwd, rev))
    ensures experimentOf(RunAccessionOf(fwd)).Success? ==>
      var e := experimentOf(RunAccessionOf(fwd)).value;
      GetFilename(Str(dir1 + "/" + fwd + ";" + dir2 + "/" + rev), true, experimentOf) == Success(Pair(e + "_" + fwd, e + "_" + rev))
  {
    var a := dir1 + "/" + fwd;
    var b := dir2 + "/" + rev;
    assert ';' !in a && ';' !in b;
    var s := dir1 + "/" + fwd + ";" + dir2 + "/" + rev;
    assert s == a + [';'] + b;
    assert s[|a|] == ';';
    SplitConcat(a, ';', b);
    SplitNoSeparator(a, ';');
    SplitNoSeparator(b, ';');
    SplitAppendPiece(dir1, fwd);
    SplitAppendPiece(dir2, rev);
  }

  /** A links text without exactly one ";" names only a forward file, the last `/`-separated piece of the text. */
  lemma GetFilenameOfOneLink(s: string, experimentOf: string -> Result<string, Exc>)
    requires s != "nan" && ';' !in s
    ensures GetFilename(Str(s), false, experimentOf) == Success(Pair(LastSegment(s), "NA"))
  {
    SplitNoSeparator(s, ';');
  }

  /** A file `<run>_<stem>.<ext>` is looked up by its run accession. */
  lemma RunAccessionOfFastq(run: string, stem: string, ext: string)
    requires '.' !in run && '_' !in run && '.' !in stem
    ensures RunAccessionOf(run + "_" + stem + "." + ext) == run
  {
    var base := run + "_" + stem;
    assert '.' !in base;
    assert run + "_" + stem + "." + ext == base + ['.'] + ext;
    SplitConcat(base, '.', ext);
    SplitNoSeparator(base, '.');
    assert base == run + ['_'] + stem;
    SplitConcat(run, '_', stem);
    SplitNoSeparator(run, '_');
  }

  /**
   * The `R1` and `R2` cells `zip(*...)` makes of one result: the two names of a pair, or
   * the two characters of the bare string "NA".
   */
  function Names(f: Filenames): (string, string)
  {
    match f
    case Pair(fwd, rev) => (fwd, rev)
    case NotAvailable => ("N", "A")
  }

  /** The file names of a selected library, with the experiment prefix. */
  function FilesOf(j: Joined, experimentOf: string -> Result<string, Exc>): Result<Filenames, Exc>
  {
    GetFilename(j.lib.links, true, experimentOf)
  }

  /**
   * The column assignments of `prepare_eager_table` over the selected libraries, with the
   * library id, organism and file-name lookup of each row as parameters. With no selected
   * library the UDG column raises KeyError(0); otherwise the first failing file-name
   * lookup raises.
   */
  method EagerRows(selected: seq<Joined>, libraryIdOf: Joined -> string, organismOf: Joined -> string,
                   filesOf: Joined -> Result<Filenames, Exc>)
    returns (r: Result<seq<EagerRow>, Exc>)
    ensures r.Failure? <==> |selected| == 0 || exists i :: 0 <= i < |selected| && filesOf(selected[i]).Failure?
    ensures |selected| == 0 ==> r == Failure(NoUdgColumn)
    ensures r.Failure? && |selected| > 0 ==> exists i :: (0 <= i < |selected| && filesOf(selected[i]).Failure? &&
      r.error == filesOf(selected[i]).error && forall k :: 0 <= k < i ==> filesOf(selected[k]).Success?)
    ensures r.Success? ==> |r.value| == |selected| && forall i :: 0 <= i < |selected| ==>
      filesOf(selected[i]).Success? &&
      r.value[i] == EagerRowOf(selected[i], libraryIdOf(selected[i]), organismOf(selected[i]),
                               Names(filesOf(selected[i]).value).0, Names(filesOf(selected[i]).value).1)
  {
    if |selected| == 0 {
      return Failure(NoUdgColumn);
    }
    var rows: seq<EagerRow> := [];
    for i := 0 to |selected|
      invariant |rows| == i
      invariant forall k :: 0 <= k < i ==> (filesOf(selected[k]).Success? &&
        rows[k] == EagerRowOf(selected[k], libraryIdOf(selected[k]), organismOf(selected[k]),
                              Names(filesOf(selected[k]).value).0, Names(filesOf(selected[k]).value).1))
    {
      var j := selected[i];
      var files := filesOf(j);
      if files.Failure? {
        return Failure(files.error);
      }
      var names := Names(files.value);
      rows := rows + [EagerRowOf(j, libraryIdOf(j), organismOf(j), names.0, names.1)];
    }
    return Success(rows);
  }

  /**
   * `prepare_eager_table` of the utilities module: the rows of the selected libraries, with
   * the library's `archive_data_accession` as library id and the organism of the core
   * converter. With no library selected it raises KeyError(0).
   */
  method PrepareEagerTable(samples: seq<SampleRecord>, libraries: seq<LibraryRecord>, tableName: string, archives: seq<string>,
                           experimentOf: string -> Result<string, Exc>)
    returns (r: Result<seq<EagerRow>, Exc>)
    ensures var selected := SelectedLibraries(samples, libraries, archives);
      && (r.Failure? <==> |selected| == 0 || exists i :: 0 <= i < |selected| && FilesOf(selected[i], experimentOf).Failure?)
      && (|selected| == 0 ==> r == Failure(NoUdgColumn))
      && (r.Success? ==> |r.value| == |selected| && forall i :: 0 <= i < |selected| ==>
            FilesOf(selected[i], experimentOf).Success? &&
            r.value[i] == EagerRowOf(selected[i], selected[i].lib.dataAccession, CoreConvert.Organism(tableName, selected[i]),
                                     Names(FilesOf(selected[i], experimentOf).value).0, Names(FilesOf(selected[i], experimentOf).value).1))
  {
    r := EagerRows(SelectedLibraries(samples, libraries, archives), (j: Joined) => j.lib.dataAccession,
                   (j: Joined) => CoreConvert.Organism(tableName, j), (j: Joined) => FilesOf(j, experimentOf));
  }
}
