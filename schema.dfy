/**
 * The part of a dataset's JSON schema the validator reads: for each column
 * property its declared `type`, its `enum` and its `$ref`, and the list of
 * `required` columns. Also the projection of the declared types onto the
 * read types handed to the TSV reader.
 */
module Schemas {
  import opened Wrappers
  import opened Exceptions
  import opened Tables

  /** A property's `type`: a list of type names, or a single name. */
  datatype TypeDecl = TypeList(names: seq<string>) | TypeName(name: string)

  /** The `type` and `enum` keywords of a subschema. */
  datatype Keywords = Keywords(typ: Option<TypeDecl>, enumValues: Option<seq<Value>>)

  /**
   * One entry of `schema["items"]["properties"]`: its own `type` and `enum`, its `$ref`
   * if it has one, and the keywords of the schema that `$ref` resolves to (resolving it
   * fetches a document, so the result is given with the schema; without a `$ref` it is
   * not used).
   */
  datatype Property = Property(name: string, typ: Option<TypeDecl>, enumValues: Option<seq<Value>>, ref: Option<string>,
                               referenced: Keywords)

  datatype Schema = Schema(properties: seq<Property>, required: seq<string>)

  /** A JSON object holds each key once. */
  predicate DistinctNames(props: seq<Property>)
  {
    forall i, j :: 0 <= i < j < |props| ==> props[i].name != props[j].name
  }

  /** The property describing column `name`, if any. */
  function PropertyNamed(props: seq<Property>, name: string): (r: Option<Property>)
    ensures r.Some? ==> r.value in props && r.value.name == name
    ensures r.None? ==> forall p :: p in props ==> p.name != name
  {
    if |props| == 0 then None
    else if props[0].name == name then Some(props[0])
    else PropertyNamed(props[1..], name)
  }

  /** The read type handed to the TSV reader for one column. */
  datatype Dtype = StrDtype | NullableInt64 | Passthrough(tag: string)

  /**
   * `prop["type"][0]`: the first declared type. A missing `type` is a KeyError,
   * an empty list or name an IndexError; indexing a bare name gives its first character.
   */
  function FirstType(p: Property): (r: Result<string, Exc>)
    ensures p.typ.None? ==> r == Failure(KeyError("type"))
    ensures p.typ.Some? && p.typ.value.TypeList? ==>
      (r.Success? <==> |p.typ.value.names| > 0) && (r.Success? ==> r.value == p.typ.value.names[0])
    ensures p.typ.Some? && p.typ.value.TypeName? ==>
      (r.Success? <==> |p.typ.value.name| > 0) && (r.Success? ==> r.value == [p.typ.value.name[0]])
    ensures r.Failure? && p.typ.Some? ==> r.error == IndexError
  {
    match p.typ
    case None => Failure(KeyError("type"))
    case Some(TypeList(names)) =>
      if |names| == 0 then Failure(IndexError) else Success(names[0])
    case Some(TypeName(name)) =>
      if |name| == 0 then Failure(IndexError) else Success([name[0]])
  }

  /** The conversion table: "string" and "integer" are converted, "null" is refused, anything else passes through. */
  function ColumnDtype(tag: string): (d: Option<Dtype>)
    ensures d.None? <==> tag == "null"
    ensures tag == "string" ==> d == Some(StrDtype)
    ensures tag == "integer" ==> d == Some(NullableInt64)
    ensures d.Some? && tag != "string" && tag != "integer" ==> d.value == Passthrough(tag)
  {
    if tag == "string" then Some(StrDtype)
    else if tag == "integer" then Some(NullableInt64)
    else if tag == "null" then None
    else Some(Passthrough(tag))
  }

  /** A property whose first declared type yields a read type. */
  predicate Projectable(p: Property)
  {
    FirstType(p).Success? && ColumnDtype(FirstType(p).value).Some?
  }

  function DtypeOf(p: Property): Dtype
    requires Projectable(p)
  {
    ColumnDtype(FirstType(p).value).value
  }

  /**
   * What stops the projection at `p`: the error of reading its first type, or,
   * when that type is "null", the KeyError raised by reading the not yet
   * recorded read type of `p` while building the "Schema Error".
   */
  function ProjectionError(p: Property): (e: Exc)
    requires !Projectable(p)
    ensures FirstType(p) == Success("null") ==> e == KeyError(p.name)
  {
    match FirstType(p)
    case Failure(e) => e
    case Success(_) => KeyError(p.name)
  }

  /** The read-type map built from the properties in order; it succeeds exactly when every property is projectable. */
  function ProjectDtypes(props: seq<Property>): (r: Result<map<string, Dtype>, Exc>)
    ensures r.Success? <==> forall k :: 0 <= k < |props| ==> Projectable(props[k])
  {
    if |props| == 0 then Success(map[])
    else
      var init := props[..|props| - 1];
      var p := props[|props| - 1];
      assert forall k :: 0 <= k < |init| ==> init[k] == props[k];
      match ProjectDtypes(init)
      case Failure(e) => Failure(e)
      case Success(m) => if Projectable(p) then Success(m[p.name := DtypeOf(p)]) else Failure(ProjectionError(p))
  }

  /** On success every column of the schema, and no other, gets the read type of its first declared type. */
  lemma {:induction false} ProjectDtypesMapsEachColumn(props: seq<Property>)
    requires DistinctNames(props) && ProjectDtypes(props).Success?
    ensures ProjectDtypes(props).value.Keys == ColumnNames(props)
    ensures forall k :: 0 <= k < |props| ==> ProjectDtypes(props).value[props[k].name] == DtypeOf(props[k])
    decreases |props|
  {
    ProjectDtypesKeys(props);
    forall k | 0 <= k < |props| ensures ProjectDtypes(props).value[props[k].name] == DtypeOf(props[k]) {
      ProjectDtypesAt(props, k);
    }
  }

  /** The read type the map gives the column of property `k`. */
  lemma {:induction false} ProjectDtypesAt(props: seq<Property>, k: nat)
    requires DistinctNames(props) && ProjectDtypes(props).Success? && k < |props|
    ensures props[k].name in ProjectDtypes(props).value && ProjectDtypes(props).value[props[k].name] == DtypeOf(props[k])
    decreases |props|
  {
    var init := props[..|props| - 1];
    var p := props[|props| - 1];
    var m := ProjectDtypes(init).value;
    assert ProjectDtypes(props).value == m[p.name := DtypeOf(p)];
    if k < |init| {
      assert init[k] == props[k];
      assert props[k].name != p.name;
      assert DistinctNames(init) by {
        forall i, j | 0 <= i < j < |init| ensures init[i].name != init[j].name {
          assert init[i] == props[i] && init[j] == props[j];
        }
      }
      ProjectDtypesAt(init, k);
    }
  }

  /** On success the read-type map has exactly the columns of the schema as keys. */
  lemma {:induction false} ProjectDtypesKeys(props: seq<Property>)
    requires ProjectDtypes(props).Success?
    ensures ProjectDtypes(props).value.Keys == ColumnNames(props)
    decreases |props|
  {
    if |props| > 0 {
      var init := props[..|props| - 1];
      var p := props[|props| - 1];
      assert forall k :: 0 <= k < |init| ==> Projectable(init[k]) by {
        assert forall k :: 0 <= k < |init| ==> init[k] == props[k];
      }
      ProjectDtypesKeys(init);
      assert ProjectDtypes(props).value == ProjectDtypes(init).value[p.name := DtypeOf(p)];
      assert props == init + [p];
      ColumnNamesSnoc(init, p);
    }
  }

  /** The column names the properties describe. */
  function ColumnNames(props: seq<Property>): set<string>
  {
    set k | 0 <= k < |props| :: props[k].name
  }

  /** The names of the properties with one more at the end. */
  lemma ColumnNamesSnoc(init: seq<Property>, p: Property)
    ensures ColumnNames(init + [p]) == ColumnNames(init) + {p.name}
  {
    var props := init + [p];
    forall n | n in ColumnNames(props)
      ensures n in ColumnNames(init) + {p.name}
    {
      var k :| 0 <= k < |props| && props[k].name == n;
      if k < |init| {
        assert init[k].name == n;
      }
    }
    forall n | n in ColumnNames(init)
      ensures n in ColumnNames(props)
    {
      var k :| 0 <= k < |init| && init[k].name == n;
      assert props[k].name == n;
    }
    assert props[|init|].name == p.name;
  }

  /** On failure the error is the one of the first property that is not projectable. */
  lemma {:induction false} ProjectDtypesFirstFailure(props: seq<Property>) returns (k: nat)
    requires ProjectDtypes(props).Failure?
    ensures k < |props| && !Projectable(props[k])
    ensures forall j :: 0 <= j < k ==> Projectable(props[j])
    ensures ProjectDtypes(props).error == ProjectionError(props[k])
    decreases |props|
  {
    var init := props[..|props| - 1];
    assert forall j :: 0 <= j < |init| ==> init[j] == props[j];
    if ProjectDtypes(init).Failure? {
      k := ProjectDtypesFirstFailure(init);
    } else {
      k := |props| - 1;
    }
  }

  /** The loop of `read_dataset` that fills the read-type dictionary, stopping at the first refused property. */
  method ReadDtypes(props: seq<Property>) returns (r: Result<map<string, Dtype>, Exc>)
    ensures r == ProjectDtypes(props)
  {
    var columnDtypes: map<string, Dtype> := map[];
    for i := 0 to |props|
      invariant ProjectDtypes(props[..i]) == Success(columnDtypes)
    {
      assert props[..i + 1][..i] == props[..i];
      var p := props[i];
      var coltype := FirstType(p);
      if coltype.Failure? {
        PrefixFailureStays(props, i + 1);
        return Failure(coltype.error);
      }
      var dtype := ColumnDtype(coltype.value);
      if dtype.None? {
        PrefixFailureStays(props, i + 1);
        return Failure(KeyError(p.name));
      }
      columnDtypes := columnDtypes[p.name := dtype.value];
    }
    assert props[..|props|] == props;
    return Success(columnDtypes);
  }

  /** Once a prefix fails, the whole projection fails with the same error. */
  lemma {:induction false} PrefixFailureStays(props: seq<Property>, n: nat)
    requires n <= |props| && ProjectDtypes(props[..n]).Failure?
    ensures ProjectDtypes(props) == ProjectDtypes(props[..n])
    decreases |props| - n
  {
    if n < |props| {
      assert props[..n + 1][..n] == props[..n];
      PrefixFailureStays(props, n + 1);
    } else {
      assert props[..n] == props;
    }
  }
}
