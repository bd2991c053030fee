/**
 * The converter helpers of the core package: read file names from a
 * library's download links by orientation, the nf-core/eager input rows
 * of the selected libraries, and the accession list with its curl
 * download script.
 */
module CoreConvert {
  import opened Wrappers
  import opened Exceptions
  import opened Text
  import opened Tables
  import opened Selection

  /**
   * The forward and reverse file names of a download-links text: with a ";", the
   * `Path.name` of the first and second `;`-separated pieces (further pieces are
   * ignored); without one, the name of the whole text and "NA".
   */
  function ReadNames(s: string): (string, string)
  {
    if ';' in s then
      SplitAtSeparator(s, ';');
      (PathName(Split(s, ';')[0]), PathName(Split(s, ';')[1]))
    else (PathName(s), "NA")
  }

  /**
   * `get_filename(path_string, orientation)`: the forward name for "fwd", the reverse
   * name for "rev", nothing for any other orientation. A missing cell is a float, and
   * the `in` test on it a TypeError.
   */
  function GetFilename(pathString: Value, orientation: string): (r: Result<Option<string>, Exc>)
    ensures r.Failure? <==> !pathString.Str?
    ensures r.Failure? ==> r.error == TypeError
    ensures r.Success? ==> (r.value.Some? <==> orientation == "fwd" || orientation == "rev")
  {
    match pathString
    case Str(s) =>
      if orientation == "fwd" then Success(Some(ReadNames(s).0))
      else if orientation == "rev" then Success(Some(ReadNames(s).1))
      else Success(None)
    case _ => Failure(TypeError)
  }

  /**
   * Two links `dir1/fwd;dir2/rev` name their files: the forward orientation gives the
   * first file name, the reverse one the second; a single link has no reverse file.
   */
  lemma GetFilenameOfLinks(dir1: string, fwd: string, dir2: string, rev: string)
    requires ';' !in dir1 && ';' !in fwd && ';' !in dir2 && ';' !in rev
    requires '/' !in fwd && fwd != "" && fwd != "." && '/' !in rev && rev != "" && rev != "."
    ensures GetFilename(Str(dir1 + "/" + fwd + ";" + dir2 + "/" + rev), "fwd") == Success(Some(fwd))
    ensures GetFilename(Str(dir1 + "/" + fwd + ";" + dir2 + "/" + rev), "rev") == Success(Some(rev))
    ensures GetFilename(Str(dir1 + "/" + fwd), "rev") == Success(Some("NA"))
    ensures GetFilename(Str(dir1 + "/" + fwd), "fwd") == Success(Some(fwd))
  {
    var a := dir1 + "/" + fwd;
    var b := dir2 + "/" + rev;
    assert ';' !in a && ';' !in b;
    assert dir1 + "/" + fwd + ";" + dir2 + "/" + rev == a + [';'] + b;
    SplitConcat(a, ';', b);
    SplitNoSeparator(a, ';');
    SplitNoSeparator(b, ';');
    assert a[|dir1|] == '/';
    assert (a + [';'] + b)[|a|] == ';';
    PathNameOfFile(dir1, fwd);
    PathNameOfFile(dir2, rev);
  }

  /** The organism of a row: "environmental" for the environmental table, otherwise the sample's host. */
  function Organism(tableName: string, j: Joined): string
  {
    if tableName == EnvironmentalTable then "environmental" else j.stacked.sample.host
  }

  /** The row of a selected library whose download links are text. */
  function CoreRow(tableName: string, j: Joined): EagerRow
    requires j.lib.links.Str?
  {
    EagerRowOf(j, j.lib.dataAccession, Organism(tableName, j), ReadNames(j.lib.links.s).0, ReadNames(j.lib.links.s).1)
  }

  /**
   * `prepare_eager_table`: one row per selected library, in order, with the library's
   * `archive_data_accession` as library id and its read file names by orientation. With
   * no library selected the UDG column raises KeyError(0); otherwise a missing
   * `download_links` cell makes the file-name lookup raise a TypeError.
   */
  method PrepareEagerTable(samples: seq<SampleRecord>, libraries: seq<LibraryRecord>, tableName: string, archives: seq<string>)
    returns (r: Result<seq<EagerRow>, Exc>)
    ensures var selected := SelectedLibraries(samples, libraries, archives);
      && (r.Failure? <==> |selected| == 0 || exists j :: j in selected && !j.lib.links.Str?)
      && (|selected| == 0 ==> r == Failure(NoUdgColumn))
      && (r.Failure? && |selected| > 0 ==> r.error == TypeError)
      && (r.Success? ==> |r.value| == |selected| && forall i :: 0 <= i < |selected| ==>
            selected[i].lib.links.Str? && r.value[i] == CoreRow(tableName, selected[i]))
  {
    r := EagerRows(SelectedLibraries(samples, libraries, archives), tableName);
  }

  /** The column assignments of `prepare_eager_table` over the selected libraries. */
  method EagerRows(selected: seq<Joined>, tableName: string) returns (r: Result<seq<EagerRow>, Exc>)
    ensures r.Failure? <==> |selected| == 0 || exists j :: j in selected && !j.lib.links.Str?
    ensures |selected| == 0 ==> r == Failure(NoUdgColumn)
    ensures r.Failure? && |selected| > 0 ==> r.error == TypeError
    ensures r.Success? ==> |r.value| == |selected| && forall i :: 0 <= i < |selected| ==>
      selected[i].lib.links.Str? && r.value[i] == CoreRow(tableName, selected[i])
  {
    if |selected| == 0 {
      return Failure(NoUdgColumn);
    }
    var rows: seq<EagerRow> := [];
    for i := 0 to |selected|
      invariant |rows| == i
      invariant forall k :: 0 <= k < i ==> selected[k].lib.links.Str? && rows[k] == CoreRow(tableName, selected[k])
    {
      var j := selected[i];
      var r1 := GetFilename(j.lib.links, "fwd");
      if r1.Failure? {
        return Failure(r1.error);
      }
      var r2 := GetFilename(j.lib.links, "rev");
      rows := rows + [EagerRowOf(j, j.lib.dataAccession, Organism(tableName, j), r1.value.value, r2.value.value)];
    }
    forall j | j in selected ensures j.lib.links.Str? {
      var k :| 0 <= k < |selected| && selected[k] == j;
    }
    return Success(rows);
  }

  /** The result of `prepare_accession_table`: the de-duplicated accession column and the download script. */
  datatype AccessionTable = AccessionTable(accessions: seq<string>, script: string)

  /**
   * `prepare_accession_table`: the distinct accessions the selected libraries were joined
   * on, in order of first appearance, and the curl script of their download links.
   */
  method PrepareAccessionTable(samples: seq<SampleRecord>, libraries: seq<LibraryRecord>, tableName: string, archives: seq<string>)
    returns (r: Result<AccessionTable, Exc>, ghost order: seq<string>)
    ensures r.Failure? <==> exists j :: j in SelectedLibraries(samples, libraries, archives) && !j.lib.links.Str?
    ensures r.Failure? ==> r.error == AttributeError
    ensures r.Success? ==> r.value.accessions == Dedup(SelectedAccessions(SelectedLibraries(samples, libraries, archives)))
    ensures r.Success? ==> NoDup(order) && forall l :: l in order <==> IsLink(SelectedLibraries(samples, libraries, archives), l)
    ensures r.Success? ==> r.value.script == Shebang + "\n" + CurlLines(order)
  {
    var selected := SelectedLibraries(samples, libraries, archives);
    var script;
    script, order := DownloadScript(selected);
    if script.Failure? {
      return Failure(script.error), order;
    }
    var accessions := DropDuplicates(SelectedAccessions(selected));
    return Success(AccessionTable(accessions, script.value)), order;
  }

  /**
   * The listed accessions are distinct, and an accession is listed exactly when it is a
   * comma-separated accession of a sample of a supported archive that some library names.
   */
  lemma AccessionsOfSelection(samples: seq<SampleRecord>, libraries: seq<LibraryRecord>, archives: seq<string>, a: string)
    ensures NoDup(Dedup(SelectedAccessions(SelectedLibraries(samples, libraries, archives))))
    ensures a in Dedup(SelectedAccessions(SelectedLibraries(samples, libraries, archives))) <==>
      exists l, s :: l in libraries && s in samples && s.archive in archives && l.sampleAccession == a && a in Split(s.accession, ',')
  {
    var selected := SelectedLibraries(samples, libraries, archives);
    SelectedLibrariesMeaning(samples, libraries, archives);
    AccessionListed(selected, a);
    if a in SelectedAccessions(selected) {
      var j :| j in selected && j.stacked.accession == a;
      assert j.lib in libraries && j.stacked.sample in samples;
    }
    if exists l, s :: l in libraries && s in samples && s.archive in archives && l.sampleAccession == a && a in Split(s.accession, ',') {
      var l, s :| l in libraries && s in samples && s.archive in archives && l.sampleAccession == a && a in Split(s.accession, ',');
      assert Joined(l, StackedSample(a, s)) in selected;
    }
  }

  /** An accession is listed exactly when some selected row was joined on it. */
  lemma AccessionListed(selected: seq<Joined>, a: string)
    ensures a in SelectedAccessions(selected) <==> exists j :: j in selected && j.stacked.accession == a
  {
    var acc := SelectedAccessions(selected);
    if a in acc {
      var i :| 0 <= i < |acc| && acc[i] == a;
      assert selected[i] in selected;
    }
    if exists j :: j in selected && j.stacked.accession == a {
      var j :| j in selected && j.stacked.accession == a;
      var i :| 0 <= i < |selected| && selected[i] == j;
      assert acc[i] == a;
    }
  }
}
