/**
 * The subset of JSON Schema Validation, draft-07, that a dataset schema
 * uses: `type` (section 6.1.1), `enum` (section 6.1.2) and `required`
 * (section 6.5.3), applied to each record of the dataset, with the type
 * `null` accepting only a missing value. The violations carry what the
 * validator reads from a library error: the path to the failing
 * instance, the instance, the `enum` of the subschema that failed (if it
 * has one) and the message.
 */
module Draft7 {
  import opened Wrappers
  import opened Text
  import opened Tables
  import opened Errors
  import opened Schemas

  /** One step of a path into the dataset: a record index or a property name. */
  datatype PathElem = Index(i: nat) | Key(k: string)

  datatype Violation = Violation(path: seq<PathElem>, instance: Field, schemaEnum: Option<seq<Value>>, message: string)

  /** The type names a `type` keyword lists. */
  function TypesOf(d: TypeDecl): seq<string>
  {
    match d
    case TypeList(names) => names
    case TypeName(name) => [name]
  }

  /** Whether a JSON value is an instance of the named primitive type. */
  predicate IsOfType(name: string, v: Value)
  {
    || (name == "string" && v.Str?)
    || ((name == "integer" || name == "number") && v.Int?)
    || (name == "null" && v.Null?)
  }

  /** The `type` keyword is met when the value is of one of the listed types. */
  predicate TypeMatches(types: seq<string>, v: Value)
  {
    exists k :: 0 <= k < |types| && IsOfType(types[k], v)
  }

  /**
   * The keywords applied to a cell of the property: beside a `$ref`, only those of the
   * referenced schema, the property's own being ignored (section 8.3 of the draft-07 core
   * specification).
   */
  function Applied(p: Property): Keywords
  {
    if p.ref.Some? then p.referenced else Keywords(p.typ, p.enumValues)
  }

  /** Whether a cell meets the applied `type` and `enum` keywords of its property. */
  predicate CellConforms(p: Property, v: Value)
  {
    var k := Applied(p);
    (k.typ.Some? ==> TypeMatches(TypesOf(k.typ.value), v)) && (k.enumValues.Some? ==> v in k.enumValues.value)
  }

  function ValueReprList(vs: seq<Value>): string
  {
    if |vs| == 0 then ""
    else if |vs| == 1 then PyRepr(vs[0])
    else PyRepr(vs[0]) + ", " + ValueReprList(vs[1..])
  }

  function TypeMessage(v: Value, types: seq<string>): string
  {
    PyRepr(v) + " is not of type " + ReprList(types)
  }

  function EnumMessage(v: Value, values: seq<Value>): string
  {
    PyRepr(v) + " is not one of [" + ValueReprList(values) + "]"
  }

  function RequiredMessage(name: string): string
  {
    Repr(name) + " is a required property"
  }

  /**
   * The violations of one property by the cell `v` of record `i`: a `type` one, then an
   * `enum` one, of the applied keywords; each carries the applied `enum`.
   */
  function PropertyViolations(p: Property, v: Value, i: nat): (vs: seq<Violation>)
    ensures vs == [] <==> CellConforms(p, v)
    ensures forall x :: x in vs ==> x.path == [Index(i), Key(p.name)] && x.instance == FieldOfValue(v) && x.schemaEnum == Applied(p).enumValues
    ensures |vs| <= 2
  {
    var path := [Index(i), Key(p.name)];
    var k := Applied(p);
    (if k.typ.Some? && !TypeMatches(TypesOf(k.typ.value), v)
     then [Violation(path, FieldOfValue(v), k.enumValues, TypeMessage(v, TypesOf(k.typ.value)))] else [])
    + (if k.enumValues.Some? && v !in k.enumValues.value
       then [Violation(path, FieldOfValue(v), k.enumValues, EnumMessage(v, k.enumValues.value))] else [])
  }

  /**
   * Beside a `$ref`, the property's own `type` and `enum` change nothing: a cell violates
   * exactly the keywords of the referenced schema.
   */
  lemma OwnKeywordsIgnoredBesideRef(p: Property, typ: Option<TypeDecl>, enumValues: Option<seq<Value>>, v: Value, i: nat)
    requires p.ref.Some?
    ensures PropertyViolations(p, v, i) == PropertyViolations(p.(typ := typ, enumValues := enumValues), v, i)
    ensures PropertyViolations(p, v, i) == PropertyViolations(Property(p.name, p.referenced.typ, p.referenced.enumValues, None, p.referenced), v, i)
  {
  }

  /** The violations of the properties `props` by record `i`; properties the record lacks are not checked. */
  function PropertiesViolations(props: seq<Property>, columns: seq<string>, row: Row, i: nat): (vs: seq<Violation>)
    ensures forall x :: x in vs ==> |x.path| == 2 && x.path[0] == Index(i)
    ensures forall x :: x in vs ==> exists p :: p in props && x.path[1] == Key(p.name) && x.schemaEnum == Applied(p).enumValues
  {
    if |props| == 0 then []
    else
      (if props[0].name in columns then PropertyViolations(props[0], Cell(columns, row, props[0].name), i) else [])
      + PropertiesViolations(props[1..], columns, row, i)
  }

  /** One violation per required column missing from the record `i`, whose path is the record itself. */
  function RequiredViolations(required: seq<string>, columns: seq<string>, row: Row, i: nat): (vs: seq<Violation>)
    ensures forall x :: x in vs ==> x.path == [Index(i)] && x.schemaEnum.None?
  {
    if |required| == 0 then []
    else
      (if required[0] !in columns then [Violation([Index(i)], Record(columns, row), None, RequiredMessage(required[0]))] else [])
      + RequiredViolations(required[1..], columns, row, i)
  }

  /**
   * What the validator relies on in a reported violation: its path starts at a record;
   * a path of two steps ends at a property of the schema and carries that property's
   * `enum`, a path of one step (a missing required column) carries none.
   */
  predicate WellShaped(s: Schema, x: Violation)
  {
    && 1 <= |x.path| <= 2 && x.path[0].Index?
    && (|x.path| == 1 ==> x.schemaEnum.None?)
    && (|x.path| == 2 ==> exists p :: p in s.properties && x.path[1] == Key(p.name) && x.schemaEnum == Applied(p).enumValues)
  }

  /** The violations of the records from index `i` on, record by record. */
  function RowsViolations(s: Schema, columns: seq<string>, rows: seq<Row>, i: nat): (vs: seq<Violation>)
    ensures forall x :: x in vs ==> WellShaped(s, x) && i <= x.path[0].i < |rows|
    decreases |rows| - i
  {
    if i >= |rows| then []
    else
      PropertiesViolations(s.properties, columns, rows[i], i)
      + RequiredViolations(s.required, columns, rows[i], i)
      + RowsViolations(s, columns, rows, i + 1)
  }

  /** Every violation of the dataset, as `iter_errors` reports them for an array of records. */
  function Violations(s: Schema, t: Table): seq<Violation>
  {
    RowsViolations(s, t.columns, t.rows, 0)
  }

  /** The dataset conforms: every present property's cell meets its keywords, and no record lacks a required column. */
  predicate Conforms(s: Schema, t: Table)
  {
    && (forall i, k :: 0 <= i < |t.rows| && 0 <= k < |s.properties| && s.properties[k].name in t.columns ==>
          CellConforms(s.properties[k], Cell(t.columns, t.rows[i], s.properties[k].name)))
    && (|t.rows| > 0 ==> forall r :: r in s.required ==> r in t.columns)
  }

  lemma {:induction false} PropertiesViolationsEmpty(props: seq<Property>, columns: seq<string>, row: Row, i: nat)
    ensures PropertiesViolations(props, columns, row, i) == [] <==>
      forall k :: 0 <= k < |props| && props[k].name in columns ==> CellConforms(props[k], Cell(columns, row, props[k].name))
    decreases |props|
  {
    if |props| > 0 {
      PropertiesViolationsEmpty(props[1..], columns, row, i);
      assert forall k :: 1 <= k < |props| ==> props[k] == props[1..][k - 1];
    }
  }

  lemma {:induction false} RequiredViolationsEmpty(required: seq<string>, columns: seq<string>, row: Row, i: nat)
    ensures RequiredViolations(required, columns, row, i) == [] <==> forall r :: r in required ==> r in columns
    decreases |required|
  {
    if |required| > 0 {
      RequiredViolationsEmpty(required[1..], columns, row, i);
      assert forall r :: r in required <==> r == required[0] || r in required[1..];
    }
  }

  lemma {:induction false} RowsViolationsEmpty(s: Schema, columns: seq<string>, rows: seq<Row>, i: nat)
    ensures RowsViolations(s, columns, rows, i) == [] <==>
      && (forall j, k :: i <= j < |rows| && 0 <= k < |s.properties| && s.properties[k].name in columns ==>
            CellConforms(s.properties[k], Cell(columns, rows[j], s.properties[k].name)))
      && (i < |rows| ==> forall r :: r in s.required ==> r in columns)
    decreases |rows| - i
  {
    if i < |rows| {
      RowsViolationsEmpty(s, columns, rows, i + 1);
      PropertiesViolationsEmpty(s.properties, columns, rows[i], i);
      RequiredViolationsEmpty(s.required, columns, rows[i], i);
    }
  }

  /** The library reports no violation exactly when the dataset conforms to the schema. */
  lemma ViolationsEmptyIffConforms(s: Schema, t: Table)
    ensures Violations(s, t) == [] <==> Conforms(s, t)
  {
    RowsViolationsEmpty(s, t.columns, t.rows, 0);
  }
}
