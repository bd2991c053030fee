/**
 * What the three converter modules share: the sample and library records
 * they read, the "stacking" of a sample's comma-separated accessions into
 * one row each, the inner join of libraries onto stacked samples, the
 * colour-chemistry lookup, the per-row derivations of an nf-core/eager
 * input row, the curl download script and the emptiness test of the join.
 * Tables are sequences of records; the join is a filter.
 */
module Selection {
  import opened Wrappers
  import opened Exceptions
  import opened Text
  import opened Tables

  /** The columns of a sample the converters read. */
  datatype SampleRecord = SampleRecord(archive: string, accession: string, host: string)

  /** The columns of a library the converters read; `links` is the `download_links` cell, possibly missing. */
  datatype LibraryRecord = LibraryRecord(
    sampleName: string, sampleAccession: string, dataAccession: string, runAccession: string,
    strandType: string, treatment: string, instrument: string, layout: string, links: Value)

  const EnvironmentalTable := "ancientmetagenome-environmental"
  const AnthropogenicTable := "ancientmetagenome-anthropogenic"

  /** `samples.query("archive in @supported_archives")`. */
  function FromArchives(samples: seq<SampleRecord>, archives: seq<string>): (r: seq<SampleRecord>)
    ensures forall s :: s in r <==> s in samples && s.archive in archives
  {
    if |samples| == 0 then []
    else (if samples[0].archive in archives then [samples[0]] else []) + FromArchives(samples[1..], archives)
  }

  /** One row of the stacked samples: a single accession of a sample, with the sample's other columns. */
  datatype StackedSample = StackedSample(accession: string, sample: SampleRecord)

  function SamplePieces(s: SampleRecord): (st: seq<StackedSample>)
    ensures forall x :: x in st <==> x.sample == s && x.accession in Split(s.accession, ',')
  {
    var pieces := Split(s.accession, ',');
    var st := seq(|pieces|, k requires 0 <= k < |pieces| => StackedSample(pieces[k], s));
    assert forall a :: a in pieces ==> StackedSample(a, s) in st by {
      forall a | a in pieces ensures StackedSample(a, s) in st {
        var k :| 0 <= k < |pieces| && pieces[k] == a;
        assert st[k] == StackedSample(a, s);
      }
    }
    st
  }

  /** `str.split(",", expand=True).stack()` joined back to the samples: the pieces of each sample, sample by sample. */
  function Stack(samples: seq<SampleRecord>): (st: seq<StackedSample>)
    ensures forall x :: x in st <==> x.sample in samples && x.accession in Split(x.sample.accession, ',')
  {
    if |samples| == 0 then [] else SamplePieces(samples[0]) + Stack(samples[1..])
  }

  /** The stacked `archive_accession` column. */
  function Accessions(st: seq<StackedSample>): (r: seq<string>)
    ensures forall a :: a in r <==> exists x :: x in st && x.accession == a
  {
    if |st| == 0 then [] else [st[0].accession] + Accessions(st[1..])
  }

  /** One row of the join: a library and the stacked sample row whose accession it names. */
  datatype Joined = Joined(lib: LibraryRecord, stacked: StackedSample)

  function Matches(lib: LibraryRecord, st: seq<StackedSample>): (js: seq<Joined>)
    ensures forall j :: j in js <==> j.lib == lib && j.stacked in st && j.stacked.accession == lib.sampleAccession
  {
    if |st| == 0 then []
    else (if st[0].accession == lib.sampleAccession then [Joined(lib, st[0])] else []) + Matches(lib, st[1..])
  }

  /**
   * `libraries.merge(stacked, left_on="archive_sample_accession", right_on="archive_accession")`:
   * the inner join, in the order of the libraries, each library followed by its matches in order.
   */
  function Join(libs: seq<LibraryRecord>, st: seq<StackedSample>): (js: seq<Joined>)
    ensures forall j :: j in js <==> j.lib in libs && j.stacked in st && j.stacked.accession == j.lib.sampleAccession
  {
    if |libs| == 0 then [] else Matches(libs[0], st) + Join(libs[1..], st)
  }

  /** `query("archive_sample_accession in @select_libs")`. */
  function Query(js: seq<Joined>, selectLibs: seq<string>): (r: seq<Joined>)
    ensures forall j :: j in r <==> j in js && j.lib.sampleAccession in selectLibs
  {
    if |js| == 0 then [] else (if js[0].lib.sampleAccession in selectLibs then [js[0]] else []) + Query(js[1..], selectLibs)
  }

  /** The query after the join keeps every joined row: each names a stacked accession. */
  lemma {:induction false} QueryKeepsJoin(js: seq<Joined>, st: seq<StackedSample>)
    requires forall j :: j in js ==> j.stacked in st && j.stacked.accession == j.lib.sampleAccession
    ensures Query(js, Accessions(st)) == js
    decreases |js|
  {
    if |js| > 0 {
      assert js[0] in js;
      assert forall j :: j in js[1..] ==> j in js;
      QueryKeepsJoin(js[1..], st);
      assert js == [js[0]] + js[1..];
    }
  }

  /** The libraries selected by the converters: joined onto the stacked samples of the supported archives. */
  function SelectedLibraries(samples: seq<SampleRecord>, libraries: seq<LibraryRecord>, archives: seq<string>): seq<Joined>
  {
    var st := Stack(FromArchives(samples, archives));
    Query(Join(libraries, st), Accessions(st))
  }

  /**
   * A selected row pairs a library with a sample of a supported archive, one of whose
   * comma-separated accessions is the library's sample accession; every such pair is selected.
   */
  lemma SelectedLibrariesMeaning(samples: seq<SampleRecord>, libraries: seq<LibraryRecord>, archives: seq<string>)
    ensures SelectedLibraries(samples, libraries, archives) == Join(libraries, Stack(FromArchives(samples, archives)))
    ensures forall j :: j in SelectedLibraries(samples, libraries, archives) <==>
      && j.lib in libraries && j.stacked.sample in samples && j.stacked.sample.archive in archives
      && j.stacked.accession == j.lib.sampleAccession && j.lib.sampleAccession in Split(j.stacked.sample.accession, ',')
  {
    var st := Stack(FromArchives(samples, archives));
    QueryKeepsJoin(Join(libraries, st), st);
  }

  /** The instrument substrings, in their listed order, and their numbers of colours. */
  const ChemistryColours: seq<(string, int)> := [
    ("bgiseq", 4), ("miseq", 4), ("hiseq", 4), ("genome analyzer", 4), ("nextseq", 2), ("novaseq", 2)]

  /** The colours of the first listed key occurring in `name`. */
  function FirstColour(table: seq<(string, int)>, name: string): Option<int>
  {
    if |table| == 0 then None
    else if Contains(name, table[0].0) then Some(table[0].1)
    else FirstColour(table[1..], name)
  }

  /** The lookup yields nothing exactly when no key occurs, and otherwise the value of the first key that does. */
  lemma {:induction false} FirstColourMeaning(table: seq<(string, int)>, name: string)
    ensures FirstColour(table, name).None? <==> forall k :: 0 <= k < |table| ==> !Contains(name, table[k].0)
    ensures FirstColour(table, name).Some? ==>
      exists k :: (0 <= k < |table| && Contains(name, table[k].0)
        && FirstColour(table, name).value == table[k].1 && forall j :: 0 <= j < k ==> !Contains(name, table[j].0))
    decreases |table|
  {
    if |table| > 0 && !Contains(name, table[0].0) {
      FirstColourMeaning(table[1..], name);
      assert forall k :: 1 <= k < |table| ==> table[k] == table[1..][k - 1];
      if FirstColour(table[1..], name).Some? {
        var k :| 0 <= k < |table[1..]| && Contains(name, table[1..][k].0)
          && FirstColour(table[1..], name).value == table[1..][k].1 && forall j :: 0 <= j < k ==> !Contains(name, table[1..][j].0);
        assert Contains(name, table[k + 1].0) && forall j :: 0 <= j < k + 1 ==> !Contains(name, table[j].0);
      }
    }
  }

  /** `get_colour_chemistry`: the colours of the first listed key that is a substring of the lower-cased instrument name. */
  function GetColourChemistry(instrument: string): Option<int>
  {
    FirstColour(ChemistryColours, Lower(instrument))
  }

  /** `get_colour_chemistry` finds nothing exactly when no key occurs in the lower-cased name, else the first that does. */
  lemma ColourChemistryMeaning(instrument: string)
    ensures GetColourChemistry(instrument).None? <==> forall k :: 0 <= k < |ChemistryColours| ==> !Contains(Lower(instrument), ChemistryColours[k].0)
    ensures GetColourChemistry(instrument).Some? ==>
      exists k :: (0 <= k < |ChemistryColours| && Contains(Lower(instrument), ChemistryColours[k].0)
        && GetColourChemistry(instrument).value == ChemistryColours[k].1
        && forall j :: 0 <= j < k ==> !Contains(Lower(instrument), ChemistryColours[j].0))
  {
    FirstColourMeaning(ChemistryColours, Lower(instrument));
  }

  /** `library_treatment.str.split("-")[0]`. */
  function UdgTreatment(treatment: string): string
  {
    Split(treatment, '-')[0]
  }

  /** The UDG treatment is the text before the first "-", or the whole treatment when there is none. */
  lemma UdgTreatmentPrefix(treatment: string)
    ensures StartsWith(treatment, UdgTreatment(treatment)) && '-' !in UdgTreatment(treatment)
    ensures |UdgTreatment(treatment)| < |treatment| ==> treatment[|UdgTreatment(treatment)|] == '-'
    ensures UdgTreatment(treatment) == treatment <==> '-' !in treatment
  {
    SplitFirstPiece(treatment, '-');
  }

  function SeqType(layout: string): string
  {
    if layout == "SINGLE" then "SE" else "PE"
  }

  /** One row of the nf-core/eager input table, its fields in the output column order. */
  datatype EagerRow = EagerRow(
    sampleName: string, libraryId: string, lane: int, colourChemistry: Option<int>, seqType: string,
    organism: string, strandedness: string, udgTreatment: string, r1: string, r2: string, bam: string)

  /**
   * Splitting the `library_treatment` of no rows gives a frame without a column 0, so
   * taking the UDG column raises KeyError(0) before any file name is looked up.
   */
  const NoUdgColumn: Exc := KeyError("0")

  /** `col2keep` after the renames. */
  const EagerColumns: seq<string> := [
    "Sample_Name", "Library_ID", "Lane", "Colour_Chemistry", "SeqType", "Organism",
    "Strandedness", "UDG_Treatment", "R1", "R2", "BAM"]

  /** The derived row of a selected library, given its library id, organism and read file names. */
  function EagerRowOf(j: Joined, libraryId: string, organism: string, r1: string, r2: string): EagerRow
  {
    EagerRow(j.lib.sampleName, libraryId, 0, GetColourChemistry(j.lib.instrument), SeqType(j.lib.layout),
             organism, j.lib.strandType, UdgTreatment(j.lib.treatment), r1, r2, "NA")
  }

  /**
   * The derivations of a row: lane 0 and no BAM, single-end exactly for a SINGLE layout,
   * the UDG treatment the text of the treatment before its first "-", and the colours of
   * the instrument.
   */
  lemma EagerRowFields(j: Joined, libraryId: string, organism: string, r1: string, r2: string)
    ensures var e := EagerRowOf(j, libraryId, organism, r1, r2);
      && e.lane == 0 && e.bam == "NA" && e.sampleName == j.lib.sampleName && e.strandedness == j.lib.strandType
      && (e.seqType == "SE" <==> j.lib.layout == "SINGLE") && (e.seqType == "PE" <==> j.lib.layout != "SINGLE")
      && StartsWith(j.lib.treatment, e.udgTreatment) && '-' !in e.udgTreatment
      && (e.udgTreatment == j.lib.treatment <==> '-' !in j.lib.treatment)
      && (e.colourChemistry.None? <==> forall k :: 0 <= k < |ChemistryColours| ==> !Contains(Lower(j.lib.instrument), ChemistryColours[k].0))
  {
    UdgTreatmentPrefix(j.lib.treatment);
    ColourChemistryMeaning(j.lib.instrument);
  }

  /** The selected `archive_accession` column: the accession each selected library was joined on. */
  function SelectedAccessions(selected: seq<Joined>): (r: seq<string>)
    ensures |r| == |selected| && forall i :: 0 <= i < |selected| ==> r[i] == selected[i].stacked.accession
  {
    seq(|selected|, i requires 0 <= i < |selected| => selected[i].stacked.accession)
  }

  /** The first line of the download script. */
  const Shebang := "#!/usr/bin/env bash"

  /** The command fetching one link, saved under the last `/`-separated piece of the link. */
  function CurlCommand(l: string): string
  {
    "curl -L ftp://" + l + " -o " + Last(Split(l, '/'))
  }

  function CurlLine(l: string): string
  {
    CurlCommand(l) + "\n"
  }

  /** The script lines of the links in order, each ended by a newline. */
  function CurlLines(links: seq<string>): string
  {
    if |links| == 0 then "" else CurlLine(links[0]) + CurlLines(links[1..])
  }

  lemma {:induction false} CurlLinesAppend(links: seq<string>, l: string)
    ensures CurlLines(links + [l]) == CurlLines(links) + CurlLine(l)
    decreases |links|
  {
    if |links| == 0 {
      assert links + [l] == [l];
    } else {
      CurlLinesAppend(links[1..], l);
      assert (links + [l])[1..] == links[1..] + [l];
      var c, r, d := CurlLine(links[0]), CurlLines(links[1..]), CurlLine(l);
      assert CurlLines(links + [l]) == c + (r + d);
      assert c + (r + d) == (c + r) + d;
    }
  }

  /** The links of the selected libraries: every `;`-separated piece of every text `download_links` cell. */
  predicate IsLink(selected: seq<Joined>, l: string)
  {
    exists j :: j in selected && j.lib.links.Str? && l in Split(j.lib.links.s, ';')
  }

  /**
   * The loop of `prepare_accession_table` over the set of `download_links` cells, adding
   * each `;`-separated piece to the set of links. A missing cell has no `split`: an
   * AttributeError.
   */
  method CollectLinks(selected: seq<Joined>) returns (r: Result<set<string>, Exc>)
    ensures r.Failure? <==> exists j :: j in selected && !j.lib.links.Str?
    ensures r.Failure? ==> r.error == AttributeError
    ensures r.Success? ==> forall l :: l in r.value <==> IsLink(selected, l)
  {
    var urls := set j | j in selected :: j.lib.links;
    var links: set<string> := {};
    var rest := urls;
    while rest != {}
      invariant rest <= urls
      invariant forall u :: u in urls && u !in rest ==> u.Str?
      invariant forall l :: l in links <==> exists u :: u in urls && u !in rest && u.Str? && l in Split(u.s, ';')
      decreases |rest|
    {
      var u :| u in rest;
      if !u.Str? {
        var j :| j in selected && j.lib.links == u;
        return Failure(AttributeError);
      }
      var pieces := Split(u.s, ';');
      for k := 0 to |pieces|
        invariant forall l :: l in links <==> (exists v :: v in urls && v !in rest && v.Str? && l in Split(v.s, ';')) || l in pieces[..k]
      {
        links := links + {pieces[k]};
      }
      assert pieces[..|pieces|] == pieces;
      rest := rest - {u};
    }
    forall l ensures l in links <==> IsLink(selected, l) {
      if l in links {
        var u :| u in urls && u.Str? && l in Split(u.s, ';');
        var j :| j in selected && j.lib.links == u;
      }
      if IsLink(selected, l) {
        var j :| j in selected && j.lib.links.Str? && l in Split(j.lib.links.s, ';');
        assert j.lib.links in urls;
      }
    }
    return Success(links);
  }

  /** The loop writing the script: the shebang line, then one curl line per link, in the set's iteration order. */
  method WriteScript(links: set<string>) returns (script: string, ghost order: seq<string>)
    ensures StartsWith(script, Shebang + "\n")
    ensures NoDup(order) && forall l :: l in order <==> l in links
    ensures script == Shebang + "\n" + CurlLines(order)
  {
    script := Shebang + "\n";
    order := [];
    var remaining := links;
    while remaining != {}
      invariant remaining <= links
      invariant NoDup(order)
      invariant forall l :: l in order <==> l in links && l !in remaining
      invariant script == Shebang + "\n" + CurlLines(order)
      decreases |remaining|
    {
      var l :| l in remaining;
      CurlLinesAppend(order, l);
      script := script + CurlLine(l);
      order := order + [l];
      remaining := remaining - {l};
    }
  }

  /**
   * The download script of `prepare_accession_table`: the shebang line, then one curl line
   * per distinct link, in the iteration order of the set of links.
   */
  method DownloadScript(selected: seq<Joined>) returns (r: Result<string, Exc>, ghost order: seq<string>)
    ensures r.Failure? <==> exists j :: j in selected && !j.lib.links.Str?
    ensures r.Failure? ==> r.error == AttributeError
    ensures r.Success? ==> NoDup(order) && (forall l :: l in order <==> IsLink(selected, l))
    ensures r.Success? ==> r.value == Shebang + "\n" + CurlLines(order)
  {
    var links := CollectLinks(selected);
    if links.Failure? {
      return Failure(links.error), [];
    }
    var script;
    script, order := WriteScript(links.value);
    return Success(script), order;
  }

  /** A curl command holds no newline when its link holds none. */
  lemma CurlCommandOneLine(l: string)
    requires '\n' !in l
    ensures '\n' !in CurlCommand(l)
  {
    var p := Split(l, '/');
    JoinSplit(l, '/');
    PieceOfJoin(p, '/', |p| - 1);
  }

  /** Read line by line, the script is the shebang, one curl command per link in order, and a final empty line. */
  lemma ScriptLines(links: seq<string>)
    requires forall k :: 0 <= k < |links| ==> '\n' !in links[k]
    ensures Split(Shebang + "\n" + CurlLines(links), '\n') ==
      [Shebang] + seq(|links|, k requires 0 <= k < |links| => CurlCommand(links[k])) + [""]
  {
    assert '\n' !in Shebang;
    HeadedLines(Shebang, links);
  }

  lemma HeadedLines(head: string, links: seq<string>)
    requires '\n' !in head
    requires forall k :: 0 <= k < |links| ==> '\n' !in links[k]
    ensures Split(head + "\n" + CurlLines(links), '\n') ==
      [head] + seq(|links|, k requires 0 <= k < |links| => CurlCommand(links[k])) + [""]
  {
    var body := CurlLines(links);
    CurlLinesSplit(links);
    assert head + "\n" + body == head + ['\n'] + body;
    SplitConcat(head, '\n', body);
    SplitNoSeparator(head, '\n');
  }

  lemma {:induction false} CurlLinesSplit(links: seq<string>)
    requires forall k :: 0 <= k < |links| ==> '\n' !in links[k]
    ensures Split(CurlLines(links), '\n') == seq(|links|, k requires 0 <= k < |links| => CurlCommand(links[k])) + [""]
    decreases |links|
  {
    if |links| > 0 {
      var c := CurlCommand(links[0]);
      CurlCommandOneLine(links[0]);
      CurlLinesSplit(links[1..]);
      var rest := CurlLines(links[1..]);
      assert CurlLines(links) == c + ['\n'] + rest;
      SplitConcat(c, '\n', rest);
      SplitNoSeparator(c, '\n');
      var cmds := seq(|links|, k requires 0 <= k < |links| => CurlCommand(links[k]));
      var tail := seq(|links[1..]|, k requires 0 <= k < |links[1..]| => CurlCommand(links[1..][k]));
      assert cmds == [c] + tail;
    }
  }

  /**
   * `is_merge_size_zero`: true when either table is empty or no library's sample
   * accession is a comma-separated piece of any sample's accession. Unlike the
   * converters it does not restrict the samples to the supported archives, and the
   * table name only chooses the joined columns, which does not change the verdict.
   */
  function IsMergeSizeZero(samples: seq<SampleRecord>, libraries: seq<LibraryRecord>): (r: bool)
    ensures r <==> (|samples| == 0 || |libraries| == 0 ||
      forall l, s :: l in libraries && s in samples ==> l.sampleAccession !in Split(s.accession, ','))
  {
    if |samples| == 0 || |libraries| == 0 then true
    else
      var joined := Join(libraries, Stack(samples));
      assert |joined| == 0 <==> forall l, s :: l in libraries && s in samples ==> l.sampleAccession !in Split(s.accession, ',') by {
        if |joined| > 0 {
          assert joined[0] in joined;
        }
        forall l, s | l in libraries && s in samples && l.sampleAccession in Split(s.accession, ',')
          ensures |joined| > 0
        {
          assert Joined(l, StackedSample(l.sampleAccession, s)) in joined;
        }
      }
      |joined| == 0
  }
}
