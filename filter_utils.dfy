/**
 * The helpers of the filter application: the nf-core/eager rows keyed by
 * run accession, with a fixed organism for both environmental and
 * anthropogenic tables, and the accession column of the selected libraries
 * as it comes out of the join.
 */
module FilterUtils {
  import opened Wrappers
  import opened Exceptions
  import opened Text
  import opened Tables
  import opened Selection
  import CoreConvert
  import CoreUtils

  /** The organism of a row: "environmental" or "human" for those two tables, otherwise the sample's host. */
  function Organism(tableName: string, j: Joined): string
  {
    if tableName == EnvironmentalTable then "environmental"
    else if tableName == AnthropogenicTable then "human"
    else j.stacked.sample.host
  }

  /**
   * The filter application's organism is the core converter's on every table except the
   * anthropogenic one, where it is "human" instead of the sample's host.
   */
  lemma OrganismAgainstCore(tableName: string, j: Joined)
    ensures tableName != AnthropogenicTable ==> Organism(tableName, j) == CoreConvert.Organism(tableName, j)
    ensures tableName == AnthropogenicTable ==> Organism(tableName, j) == "human" && CoreConvert.Organism(tableName, j) == j.stacked.sample.host
  {
  }

  /**
   * `prepare_eager_table` of the filter application: the rows of the selected libraries,
   * with the library's `archive_run_accession` as library id. With no library selected it
   * raises KeyError(0).
   */
  method PrepareEagerTable(samples: seq<SampleRecord>, libraries: seq<LibraryRecord>, tableName: string, archives: seq<string>,
                           experimentOf: string -> Result<string, Exc>)
    returns (r: Result<seq<EagerRow>, Exc>)
    ensures var selected := SelectedLibraries(samples, libraries, archives);
      && (r.Failure? <==> |selected| == 0 || exists i :: 0 <= i < |selected| && CoreUtils.FilesOf(selected[i], experimentOf).Failure?)
      && (|selected| == 0 ==> r == Failure(NoUdgColumn))
      && (r.Success? ==> |r.value| == |selected| && forall i :: 0 <= i < |selected| ==>
            CoreUtils.FilesOf(selected[i], experimentOf).Success? &&
            r.value[i] == EagerRowOf(selected[i], selected[i].lib.runAccession, Organism(tableName, selected[i]),
                                     CoreUtils.Names(CoreUtils.FilesOf(selected[i], experimentOf).value).0,
                                     CoreUtils.Names(CoreUtils.FilesOf(selected[i], experimentOf).value).1))
  {
    r := CoreUtils.EagerRows(SelectedLibraries(samples, libraries, archives), (j: Joined) => j.lib.runAccession,
                             (j: Joined) => Organism(tableName, j), (j: Joined) => CoreUtils.FilesOf(j, experimentOf));
  }

  /**
   * `prepare_accession_table` of the filter application: the `archive_accession` column of
   * the selected libraries, one entry per selected library, each the sample accession the
   * library names.
   */
  function PrepareAccessionTable(samples: seq<SampleRecord>, libraries: seq<LibraryRecord>, archives: seq<string>): (r: seq<string>)
    ensures |r| == |SelectedLibraries(samples, libraries, archives)|
    ensures forall i :: 0 <= i < |r| ==> r[i] == SelectedLibraries(samples, libraries, archives)[i].lib.sampleAccession
  {
    SelectedLibrariesMeaning(samples, libraries, archives);
    SelectedAccessions(SelectedLibraries(samples, libraries, archives))
  }

  /**
   * The column lists an accession exactly when it is a piece of a sample of a supported archive
   * that some library names, and de-duplicated it is the core converter's accession table.
   */
  lemma AccessionTableAgainstCore(samples: seq<SampleRecord>, libraries: seq<LibraryRecord>, archives: seq<string>, a: string)
    ensures a in PrepareAccessionTable(samples, libraries, archives) <==>
      exists l, s :: l in libraries && s in samples && s.archive in archives && l.sampleAccession == a && a in Split(s.accession, ',')
    ensures Dedup(PrepareAccessionTable(samples, libraries, archives)) == Dedup(SelectedAccessions(SelectedLibraries(samples, libraries, archives)))
  {
    CoreConvert.AccessionsOfSelection(samples, libraries, archives, a);
  }

  /** Two selected libraries naming one sample accession make the column repeat it. */
  lemma AccessionTableRepeats(samples: seq<SampleRecord>, libraries: seq<LibraryRecord>, archives: seq<string>, i: nat, k: nat)
    requires i < k < |SelectedLibraries(samples, libraries, archives)|
    requires SelectedLibraries(samples, libraries, archives)[i].lib.sampleAccession == SelectedLibraries(samples, libraries, archives)[k].lib.sampleAccession
    ensures !NoDup(PrepareAccessionTable(samples, libraries, archives))
  {
    var r := PrepareAccessionTable(samples, libraries, archives);
    assert r[i] == r[k];
  }
}
