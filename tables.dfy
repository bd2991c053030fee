/**
 * A parsed tab-separated table, as pandas holds it after `read_table`:
 * named columns and rows of cells. A cell is text, an integer, or missing
 * (pandas' NaN / NA, JSON's null). Also the two row-level operations of
 * pandas the model relies on: `drop_duplicates` (keep the first occurrence)
 * and `duplicated(keep=False)` grouped by all columns.
 */
module Tables {
  import opened Wrappers
  import opened Exceptions

  /** One cell. `Null` stands for a missing value; two missing values compare equal. */
  datatype Value = Str(s: string) | Int(i: int) | Null

  type Row = seq<Value>

  datatype Table = Table(columns: seq<string>, rows: seq<Row>)

  /** What `read_table` guarantees: distinct column names and one cell per column in every row. */
  predicate WellFormed(t: Table)
  {
    && (forall i, j :: 0 <= i < j < |t.columns| ==> t.columns[i] != t.columns[j])
    && (forall r :: r in t.rows ==> |r| == |t.columns|)
  }

  /** The position of the first column called `name`. */
  function ColumnIndex(columns: seq<string>, name: string): (r: Option<nat>)
    ensures r.None? <==> name !in columns
    ensures r.Some? ==> r.value < |columns| && columns[r.value] == name && name !in columns[..r.value]
  {
    if |columns| == 0 then None
    else if columns[0] == name then Some(0)
    else
      match ColumnIndex(columns[1..], name)
      case None => None
      case Some(k) => assert columns[1..][..k] == columns[1..k + 1]; Some(k + 1)
  }

  /** The cell of `row` in column position `k` (missing when the row is short). */
  function CellAt(row: Row, k: nat): Value
  {
    if k < |row| then row[k] else Null
  }

  /** The value a record holds for `name` (missing when the table has no such column). */
  function Cell(columns: seq<string>, row: Row, name: string): Value
  {
    match ColumnIndex(columns, name)
    case None => Null
    case Some(k) => CellAt(row, k)
  }

  /** `t[name]` as a list of cells: a KeyError when the table has no such column. */
  function ColumnValues(t: Table, name: string): (r: Result<seq<Value>, Exc>)
    ensures r.Failure? <==> name !in t.columns
    ensures r.Failure? ==> r.error == KeyError(name)
    ensures r.Success? ==> |r.value| == |t.rows|
  {
    match ColumnIndex(t.columns, name)
    case None => Failure(KeyError(name))
    case Some(k) => Success(seq(|t.rows|, i requires 0 <= i < |t.rows| => CellAt(t.rows[i], k)))
  }

  predicate NoDup<T(==)>(s: seq<T>)
  {
    forall i, j :: 0 <= i < j < |s| ==> s[i] != s[j]
  }

  /** The index of the first occurrence of `x` in `s`. */
  function FirstIndex<T(==)>(s: seq<T>, x: T): (k: nat)
    requires x in s
    ensures k < |s| && s[k] == x && x !in s[..k]
  {
    if s[0] == x then 0
    else
      var k := FirstIndex(s[1..], x);
      assert s[..k + 1] == [s[0]] + s[1..][..k];
      k + 1
  }

  /** `drop_duplicates()` with the default `keep="first"`: later repeats are removed. */
  function Dedup<T(==,!new)>(s: seq<T>): (r: seq<T>)
    ensures NoDup(r)
    ensures forall x :: x in r <==> x in s
    ensures |r| <= |s|
  {
    if |s| == 0 then []
    else
      var p := s[..|s| - 1];
      var d := Dedup(p);
      assert forall x :: x in s <==> x in p || x == s[|s| - 1] by {
        assert s == p + [s[|s| - 1]];
      }
      if s[|s| - 1] in p then d else d + [s[|s| - 1]]
  }

  /** A sequence holding one value only, however often, keeps at most one element after `Dedup`. */
  lemma {:induction false} DedupOfConstant<T(!new)>(s: seq<T>, c: T)
    requires forall x :: x in s ==> x == c
    ensures |Dedup(s)| <= 1
    decreases |s|
  {
    if |s| > 0 {
      var p := s[..|s| - 1];
      assert forall x :: x in p ==> x in s;
      DedupOfConstant(p, c);
      if |p| > 0 {
        assert p[0] == s[0] && s[0] in s && s[|s| - 1] in s;
      }
    }
  }

  /** The first occurrence of an element of a prefix is found in the prefix. */
  lemma FirstIndexOfPrefix<T(!new)>(s: seq<T>, n: nat, x: T)
    requires n <= |s| && x in s[..n]
    ensures FirstIndex(s, x) == FirstIndex(s[..n], x)
  {
    var k := FirstIndex(s[..n], x);
    var m := FirstIndex(s, x);
    assert s[..n][..k] == s[..k];
  }

  /** What `drop_duplicates` keeps comes in the order of first occurrence in the input. */
  lemma {:induction false} DedupKeepsFirstOrder<T(!new)>(s: seq<T>)
    ensures forall k, l :: 0 <= k < l < |Dedup(s)| ==> FirstIndex(s, Dedup(s)[k]) < FirstIndex(s, Dedup(s)[l])
    decreases |s|
  {
    if |s| > 0 {
      var p := s[..|s| - 1];
      var x := s[|s| - 1];
      DedupKeepsFirstOrder(p);
      var d := Dedup(p);
      assert s[..|s| - 1] == p;
      forall y | y in d ensures FirstIndex(s, y) == FirstIndex(p, y) {
        FirstIndexOfPrefix(s, |s| - 1, y);
      }
      if x !in p {
        assert FirstIndex(s, x) == |s| - 1;
        forall k, l | 0 <= k < l < |Dedup(s)|
          ensures FirstIndex(s, Dedup(s)[k]) < FirstIndex(s, Dedup(s)[l])
        {
          assert Dedup(s) == d + [x];
          assert Dedup(s)[k] in d;
          if l < |d| {
            assert Dedup(s)[l] in d;
          }
        }
      }
    }
  }

  /** A sequence without repetitions is left as it is. */
  lemma {:induction false} DedupOfNoDup<T(!new)>(s: seq<T>)
    requires NoDup(s)
    ensures Dedup(s) == s
    decreases |s|
  {
    if |s| > 0 {
      var p := s[..|s| - 1];
      assert NoDup(p);
      DedupOfNoDup(p);
      assert s[|s| - 1] !in p;
      assert s == p + [s[|s| - 1]];
    }
  }

  /** Appending elements already present changes nothing. */
  lemma {:induction false} DedupAppendPresent<T(!new)>(s: seq<T>, t: seq<T>)
    requires forall x :: x in t ==> x in s
    ensures Dedup(s + t) == Dedup(s)
    decreases |t|
  {
    if |t| == 0 {
      assert s + t == s;
    } else {
      var p := t[..|t| - 1];
      assert forall x :: x in p ==> x in t;
      DedupAppendPresent(s, p);
      assert (s + t)[..|s + t| - 1] == s + p;
      assert (s + t)[|s + t| - 1] == t[|t| - 1];
      assert t[|t| - 1] in t;
    }
  }

  /** `drop_duplicates` with its loop written out; the result is `Dedup` of the input. */
  method DropDuplicates<T(==,!new)>(s: seq<T>) returns (kept: seq<T>)
    ensures kept == Dedup(s)
  {
    kept := [];
    for i := 0 to |s|
      invariant kept == Dedup(s[..i])
    {
      assert s[..i + 1][..i] == s[..i];
      if s[i] !in kept {
        kept := kept + [s[i]];
      }
    }
    assert s[..|s|] == s;
  }

  /** The indices of the rows equal to `r`, ascending. */
  function Positions(rows: seq<Row>, r: Row): (ps: seq<nat>)
    ensures forall k :: 0 <= k < |ps| ==> ps[k] < |rows| && rows[ps[k]] == r
    ensures forall j :: 0 <= j < |rows| && rows[j] == r ==> j in ps
    ensures forall k, l :: 0 <= k < l < |ps| ==> ps[k] < ps[l]
  {
    if |rows| == 0 then []
    else
      var p := Positions(rows[..|rows| - 1], r);
      if rows[|rows| - 1] == r then p + [|rows| - 1] else p
  }

  /** Row `f` is the first of a class of at least two equal rows. */
  predicate LeadsGroup(rows: seq<Row>, f: nat)
  {
    f < |rows| && rows[f] !in rows[..f] && |Positions(rows, rows[f])| > 1
  }

  function GroupsFrom(rows: seq<Row>, i: nat): seq<seq<nat>>
    decreases |rows| - i
  {
    if i >= |rows| then []
    else (if LeadsGroup(rows, i) then [Positions(rows, rows[i])] else []) + GroupsFrom(rows, i + 1)
  }

  /**
   * The row-index tuples of `df[df.duplicated(keep=False)].groupby(all columns, dropna=False)`:
   * one ascending tuple per class of two or more equal rows.
   */
  function DuplicateGroups(rows: seq<Row>): seq<seq<nat>>
  {
    GroupsFrom(rows, 0)
  }

  /** Two distinct rows agree on every column (missing cells agreeing with missing cells). */
  predicate HasDuplicateRows(rows: seq<Row>)
  {
    exists i, j :: 0 <= i < j < |rows| && rows[i] == rows[j]
  }

  /** `g` is the tuple of rows equal to row `f`, which leads a repeated class. */
  predicate GroupOf(rows: seq<Row>, f: nat, g: seq<nat>)
  {
    LeadsGroup(rows, f) && g == Positions(rows, rows[f])
  }

  lemma {:induction false} GroupsFromMembers(rows: seq<Row>, i: nat, g: seq<nat>)
    ensures g in GroupsFrom(rows, i) <==> exists f: nat :: i <= f && GroupOf(rows, f, g)
    decreases |rows| - i
  {
    if i < |rows| {
      GroupsFromMembers(rows, i + 1, g);
      GroupsFromStep(rows, i, g);
    } else {
      forall f: nat | i <= f ensures !GroupOf(rows, f, g) {
        assert !LeadsGroup(rows, f);
      }
    }
  }

  /** The tuples from position `i` on are the tuple of row `i`, if it leads a group, and those from `i + 1` on. */
  lemma GroupsFromStep(rows: seq<Row>, i: nat, g: seq<nat>)
    requires i < |rows|
    ensures g in GroupsFrom(rows, i) <==> GroupOf(rows, i, g) || g in GroupsFrom(rows, i + 1)
  {
    var head := if LeadsGroup(rows, i) then [Positions(rows, rows[i])] else [];
    assert GroupsFrom(rows, i) == head + GroupsFrom(rows, i + 1);
  }

  /** A tuple is a duplicate group exactly when it lists the rows equal to the first row of a repeated class. */
  lemma DuplicateGroupsMembers(rows: seq<Row>, g: seq<nat>)
    ensures g in DuplicateGroups(rows) <==> exists f: nat :: GroupOf(rows, f, g)
  {
    GroupsFromMembers(rows, 0, g);
  }

  /** Two equal rows make the row equal to them that comes first lead a group. */
  lemma RepeatedRowLeadsGroup(rows: seq<Row>, i: nat, j: nat) returns (f: nat)
    requires i < j < |rows| && rows[i] == rows[j]
    ensures f < |rows| && GroupOf(rows, f, Positions(rows, rows[f]))
    ensures rows[f] == rows[i] && f == FirstIndex(rows, rows[i])
  {
    f := FirstIndex(rows, rows[i]);
    var ps := Positions(rows, rows[f]);
    var a :| 0 <= a < |ps| && ps[a] == i;
    var b :| 0 <= b < |ps| && ps[b] == j;
    assert a != b;
  }

  /** No group is reported exactly when no two distinct rows are equal. */
  lemma DuplicateGroupsEmptyIff(rows: seq<Row>)
    ensures DuplicateGroups(rows) == [] <==> !HasDuplicateRows(rows)
  {
    if HasDuplicateRows(rows) {
      var i: nat, j: nat :| i < j < |rows| && rows[i] == rows[j];
      var f := RepeatedRowLeadsGroup(rows, i, j);
      DuplicateGroupsMembers(rows, Positions(rows, rows[f]));
    }
    if DuplicateGroups(rows) != [] {
      var g := DuplicateGroups(rows)[0];
      DuplicateGroupsMembers(rows, g);
      var f: nat :| GroupOf(rows, f, g);
      assert g[0] < g[1] && rows[g[0]] == rows[g[1]];
    }
  }
}
