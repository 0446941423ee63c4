/** Schemas of a PointList: the structured record type built from the `coordinates`
    argument, and lookup of a field by name. */
module Schemas {

  /** A numpy field type: a scalar type named by its kind ("float64", "int32", ...),
      or a nested record type. */
  datatype DType = Scalar(kind: string) | Record(fields: seq<Field>)

  /** One named field of a record type. */
  datatype Field = Field(name: string, dtype: DType)

  /** The two accepted shapes of the `coordinates` argument: plain field names, which
      all take the default type, or (name, dtype) pairs. */
  datatype Coordinates = Names(names: seq<string>) | Pairs(pairs: seq<Field>)

  function CoordinateCount(coords: Coordinates): nat
  {
    match coords
    case Names(ns) => |ns|
    case Pairs(ps) => |ps|
  }

  function CoordinateName(coords: Coordinates, i: nat): string
    requires i < CoordinateCount(coords)
  {
    match coords
    case Names(ns) => ns[i]
    case Pairs(ps) => ps[i].name
  }

  function FieldNames(schema: seq<Field>): (names: seq<string>)
    ensures |names| == |schema|
    ensures forall i :: 0 <= i < |schema| ==> names[i] == schema[i].name
  {
    seq(|schema|, i requires 0 <= i < |schema| => schema[i].name)
  }

  /** numpy refuses a record type with two fields of the same name. */
  predicate DistinctNames(schema: seq<Field>)
  {
    forall i, j :: 0 <= i < j < |schema| ==> schema[i].name != schema[j].name
  }

  /** The record type the constructor builds: one field per coordinate, in order; a plain
      name gets `default` as its type, a pair keeps its own type. */
  function BuildSchema(coords: Coordinates, default: DType): (schema: seq<Field>)
    ensures |schema| == CoordinateCount(coords)
    ensures forall i :: 0 <= i < |schema| ==> schema[i].name == CoordinateName(coords, i)
    ensures coords.Names? ==> forall i :: 0 <= i < |schema| ==> schema[i].dtype == default
    ensures coords.Pairs? ==> schema == coords.pairs
  {
    match coords
    case Names(ns) => seq(|ns|, i requires 0 <= i < |ns| => Field(ns[i], default))
    case Pairs(ps) => ps
  }

  /** Position of the first occurrence of `name`. */
  function IndexOf(names: seq<string>, name: string): (k: nat)
    requires name in names
    ensures k < |names| && names[k] == name
    ensures forall j :: 0 <= j < k ==> names[j] != name
  {
    if names[0] == name then 0 else 1 + IndexOf(names[1..], name)
  }

  /** Position of the field called `name`. */
  function FieldIndex(schema: seq<Field>, name: string): (k: nat)
    requires name in FieldNames(schema)
    ensures k < |schema| && schema[k].name == name
  {
    IndexOf(FieldNames(schema), name)
  }

  /** In a schema with distinct names, the field called `name` is at exactly one place. */
  lemma FieldIndexUnique(schema: seq<Field>, name: string, k: nat)
    requires DistinctNames(schema)
    requires k < |schema| && schema[k].name == name
    ensures name in FieldNames(schema)
    ensures FieldIndex(schema, name) == k
  {
    assert FieldNames(schema)[k] == name;
  }

  /** `PointList.copy` as written hands the whole record type `self.dtype` to the
      constructor as the per-field default type. */
  function CopySchemaAsWritten(coords: Coordinates, schema: seq<Field>): seq<Field>
  {
    BuildSchema(coords, Record(schema))
  }

  /** For a PointList built from plain names, the schema that `copy` as written rebuilds is
      not the original: every field's type becomes the original record type. So the copy
      does not have the original's dtype, and merging it back fails the dtype check. */
  lemma CopyAsWrittenChangesNamedSchema(names: seq<string>, default: DType)
    requires |names| > 0
    ensures var schema := BuildSchema(Names(names), default);
            CopySchemaAsWritten(Names(names), schema)[0].dtype == Record(schema) &&
            CopySchemaAsWritten(Names(names), schema) != schema
  {
    var schema := BuildSchema(Names(names), default);
    assert schema[0] == Field(names[0], default);
    assert schema[0] in schema;
    assert default < schema[0] < Record(schema);
  }

  /** With (name, dtype) pairs the default type is ignored, so `copy` as written keeps the
      schema in that case. */
  lemma CopyAsWrittenKeepsPairSchema(pairs: seq<Field>, default: DType)
    ensures CopySchemaAsWritten(Pairs(pairs), BuildSchema(Pairs(pairs), default)) == pairs
  {
  }
}
