/**
 * The directory-specific check of the validator: each project of a
 * dataset must cite a single publication DOI. Projects are the groups of
 * rows by `project_name` (missing names form no group), visited in sorted
 * order; a project's DOIs are its `publication_doi` cells.
 */
module Application {
  import opened Wrappers
  import opened Exceptions
  import opened Tables
  import opened Errors
  import opened Order
  import opened Validator

  const ProjectColumn := "project_name"
  const DoiColumn := "publication_doi"

  /** The non-missing project names, row by row. */
  function ProjectNames(rows: seq<Row>, columns: seq<string>): (ps: seq<string>)
    ensures forall p :: p in ps <==> exists i :: 0 <= i < |rows| && Cell(columns, rows[i], ProjectColumn) == Str(p)
  {
    if |rows| == 0 then []
    else
      var init := rows[..|rows| - 1];
      assert forall i :: 0 <= i < |init| ==> init[i] == rows[i];
      var c := Cell(columns, rows[|rows| - 1], ProjectColumn);
      ProjectNames(init, columns) + (if c.Str? then [c.s] else [])
  }

  /** The groups of `groupby("project_name")`, in their sorted order. */
  function Projects(t: Table): (ps: seq<string>)
    ensures Ascending(ps)
    ensures forall p :: p in ps <==> exists i :: 0 <= i < |t.rows| && Cell(t.columns, t.rows[i], ProjectColumn) == Str(p)
  {
    SortedDistinct(ProjectNames(t.rows, t.columns))
  }

  /** The DOI cells of the rows of project `p`, in row order. */
  function DoisOf(rows: seq<Row>, columns: seq<string>, p: string): seq<Value>
  {
    if |rows| == 0 then []
    else
      var r := rows[|rows| - 1];
      DoisOf(rows[..|rows| - 1], columns, p) + (if Cell(columns, r, ProjectColumn) == Str(p) then [Cell(columns, r, DoiColumn)] else [])
  }

  /** A project's DOI cells are the DOI cells of the rows that name the project. */
  lemma {:induction false} DoisOfMembers(rows: seq<Row>, columns: seq<string>, p: string)
    ensures forall d :: d in DoisOf(rows, columns, p) <==>
      exists i :: 0 <= i < |rows| && Cell(columns, rows[i], ProjectColumn) == Str(p) && Cell(columns, rows[i], DoiColumn) == d
    decreases |rows|
  {
    if |rows| > 0 {
      var init := rows[..|rows| - 1];
      DoisOfMembers(init, columns, p);
      assert forall i :: 0 <= i < |init| ==> init[i] == rows[i];
    }
  }

  function NonMissing(vs: seq<Value>): (r: seq<Value>)
    ensures forall v :: v in r <==> v in vs && !v.Null?
  {
    if |vs| == 0 then [] else (if vs[0].Null? then [] else [vs[0]]) + NonMissing(vs[1..])
  }

  /** `nunique()` of a project's DOIs: the number of distinct non-missing values. */
  function DistinctDoiCount(t: Table, p: string): nat
  {
    |Dedup(NonMissing(DoisOf(t.rows, t.columns, p)))|
  }

  /** The projects, in the given order, that cite more than one distinct DOI. */
  function WithSeveralDois(t: Table, ps: seq<string>): seq<string>
  {
    if |ps| == 0 then []
    else
      var prev := WithSeveralDois(t, ps[..|ps| - 1]);
      if DistinctDoiCount(t, ps[|ps| - 1]) > 1 then prev + [ps[|ps| - 1]] else prev
  }

  /** A project is kept exactly when it is listed and cites more than one distinct DOI. */
  lemma {:induction false} WithSeveralDoisMembers(t: Table, ps: seq<string>, p: string)
    ensures p in WithSeveralDois(t, ps) <==> p in ps && DistinctDoiCount(t, p) > 1
    decreases |ps|
  {
    if |ps| > 0 {
      var init := ps[..|ps| - 1];
      assert ps == init + [ps[|ps| - 1]];
      WithSeveralDoisMembers(t, init, p);
    }
  }

  /** Filtering an ascending list of projects keeps it ascending. */
  lemma {:induction false} WithSeveralDoisAscending(t: Table, ps: seq<string>)
    requires Ascending(ps)
    ensures Ascending(WithSeveralDois(t, ps))
    decreases |ps|
  {
    if |ps| > 0 {
      var init := ps[..|ps| - 1];
      var last := ps[|ps| - 1];
      assert ps == init + [last];
      assert Ascending(init);
      WithSeveralDoisAscending(t, init);
      var prev := WithSeveralDois(t, init);
      if DistinctDoiCount(t, last) > 1 {
        AscendingLastAbove(init, last);
        forall y | y in prev ensures Less(y, last) {
          WithSeveralDoisMembers(t, init, y);
        }
        AscendingSnoc(prev, last);
      }
    }
  }

  function DoiMessage(p: string): string
  {
    "Duplicate DOI for " + p + " project. Make sure each project has a single DOI"
  }

  /** The error for project `p`: its distinct DOI cells (missing included) as source, in the DOI column, with no row. */
  function DoiError(t: Table, p: string): DFError
  {
    DFError(DuplicatedDoiErrorName, CellArray(Dedup(DoisOf(t.rows, t.columns, p))), Text(DoiColumn), NoneField, DoiMessage(p))
  }

  /** The errors of the given projects, in order. */
  function DoiErrors(t: Table, ps: seq<string>): seq<DFError>
  {
    seq(|ps|, k requires 0 <= k < |ps| => DoiError(t, ps[k]))
  }

  /**
   * `check_duplicate_dois`: records, in sorted project order, one "Duplicated DOI Error"
   * per project citing more than one distinct non-missing DOI, and returns nothing.
   * A dataset without either column raises a KeyError and records nothing.
   */
  method CheckDuplicateDois(v: DatasetValidator) returns (raised: Option<Exc>)
    modifies v
    ensures raised.Some? <==> ProjectColumn !in v.dataset.columns || DoiColumn !in v.dataset.columns
    ensures raised.Some? ==> raised.value.KeyError? && v.errors == old(v.errors)
    ensures raised.None? ==> v.errors == old(v.errors) + DoiErrors(v.dataset, WithSeveralDois(v.dataset, Projects(v.dataset)))
  {
    if ProjectColumn !in v.dataset.columns {
      return Some(KeyError(ProjectColumn));
    }
    if DoiColumn !in v.dataset.columns {
      return Some(KeyError(DoiColumn));
    }
    ReportProjects(v, Projects(v.dataset));
    return None;
  }

  /** The loop of `check_duplicate_dois` over the given projects, in order. */
  method ReportProjects(v: DatasetValidator, projects: seq<string>)
    modifies v
    ensures v.errors == old(v.errors) + DoiErrors(v.dataset, WithSeveralDois(v.dataset, projects))
  {
    for i := 0 to |projects|
      invariant v.errors == old(v.errors) + DoiErrors(v.dataset, WithSeveralDois(v.dataset, projects[..i]))
    {
      assert projects[..i + 1] == projects[..i] + [projects[i]];
      ReportNext(v, old(v.errors), projects[..i], projects[i]);
    }
    assert projects[..|projects|] == projects;
  }

  /** One turn of the loop, after the projects `done`: the errors are those of `done + [p]`. */
  method ReportNext(v: DatasetValidator, ghost base: seq<DFError>, ghost done: seq<string>, p: string)
    requires v.errors == base + DoiErrors(v.dataset, WithSeveralDois(v.dataset, done))
    modifies v
    ensures v.errors == base + DoiErrors(v.dataset, WithSeveralDois(v.dataset, done + [p]))
  {
    ReportStep(v.dataset, done, p);
    ReportProject(v, p);
  }

  /** The errors one project adds: its error when it cites more than one distinct DOI. */
  function ProjectErrors(t: Table, p: string): seq<DFError>
  {
    if DistinctDoiCount(t, p) > 1 then [DoiError(t, p)] else []
  }

  /** One turn of the loop: the error of project `p` when it cites more than one DOI. */
  method ReportProject(v: DatasetValidator, p: string)
    modifies v
    ensures v.errors == old(v.errors) + ProjectErrors(v.dataset, p)
  {
    if DistinctDoiCount(v.dataset, p) > 1 {
      v.AddError(DoiError(v.dataset, p));
    }
  }

  /** The errors for a list of projects grow by the error of an appended project that is flagged. */
  lemma ReportStep(t: Table, ps: seq<string>, p: string)
    ensures DoiErrors(t, WithSeveralDois(t, ps + [p])) == DoiErrors(t, WithSeveralDois(t, ps)) + ProjectErrors(t, p)
  {
    assert (ps + [p])[..|ps|] == ps;
    var w := WithSeveralDois(t, ps);
    if DistinctDoiCount(t, p) > 1 {
      DoiErrorsSnoc(t, w, p);
    }
  }

  /** The errors of one more project. */
  lemma DoiErrorsSnoc(t: Table, ps: seq<string>, p: string)
    ensures DoiErrors(t, ps + [p]) == DoiErrors(t, ps) + [DoiError(t, p)]
  {
  }

  /**
   * Exactly one error per offending project: the flagged projects are distinct, and a
   * project is flagged exactly when some row names it and it cites more than one
   * distinct non-missing DOI, whose error lists all its DOI cells.
   */
  lemma OneErrorPerOffendingProject(t: Table, p: string)
    ensures NoDup(WithSeveralDois(t, Projects(t)))
    ensures p in WithSeveralDois(t, Projects(t)) <==>
      (exists i :: 0 <= i < |t.rows| && Cell(t.columns, t.rows[i], ProjectColumn) == Str(p)) && DistinctDoiCount(t, p) > 1
    ensures forall d :: d in DoiError(t, p).source.cells <==> d in DoisOf(t.rows, t.columns, p)
    ensures forall d :: d in DoiError(t, p).source.cells <==>
      exists i :: 0 <= i < |t.rows| && Cell(t.columns, t.rows[i], ProjectColumn) == Str(p) && Cell(t.columns, t.rows[i], DoiColumn) == d
  {
    DoisOfMembers(t.rows, t.columns, p);
    WithSeveralDoisMembers(t, Projects(t), p);
    var r := WithSeveralDois(t, Projects(t));
    WithSeveralDoisAscending(t, Projects(t));
    forall i, j | 0 <= i < j < |r| ensures r[i] != r[j] {
      assert Less(r[i], r[j]);
    }
  }

  /** A project whose rows all cite the same DOI (or none) is not flagged. */
  lemma SingleDoiNotFlagged(t: Table, p: string, doi: Value)
    requires forall d :: d in DoisOf(t.rows, t.columns, p) ==> d == doi || d.Null?
    ensures p !in WithSeveralDois(t, Projects(t))
  {
    DedupOfConstant(NonMissing(DoisOf(t.rows, t.columns, p)), doi);
    WithSeveralDoisMembers(t, Projects(t), p);
  }
}
