/** `PointList`: a table of points with a fixed record type. It wraps a record array
    `data` and keeps a separate row counter `length`. */
module PointLists {
  import opened Schemas
  import opened Rows
  import opened Sorting

  datatype Option<T> = None | Some(value: T)

  /** The parent DataCube, reduced to the real-space scan extent it supplies. */
  datatype DataCube = DataCube(rNx: nat, rNy: nat)

  class PointList {
    const coordinates: Coordinates
    const parentDataCube: DataCube
    const defaultType: DType
    /** The record type built from `coordinates` (the source's `self.dtype`). */
    const schema: seq<Field>
    var data: seq<Row>
    var length: int

    /** The record type is the one the constructor builds, every row has one value per
        field, and the counter agrees with the number of rows. */
    ghost predicate Valid()
      reads this
    {
      && schema == BuildSchema(coordinates, defaultType)
      && |schema| > 0
      && DistinctNames(schema)
      && Fits(data, |schema|)
      && length == |data|
    }

    /** Builds the record type, starts empty and bulk-appends `data` when given. The first
        coordinate is inspected, so there must be one; a given `data` goes through
        `add_pointarray`, which needs a first row and rejects a row of the wrong arity. */
    constructor (coordinates: Coordinates, parentDataCube: DataCube, data: Option<seq<Row>>, dtype: DType)
      requires CoordinateCount(coordinates) > 0
      requires DistinctNames(BuildSchema(coordinates, dtype))
      requires data.Some? ==> |data.value| > 0 && Fits(data.value, CoordinateCount(coordinates))
      ensures Valid()
      ensures this.coordinates == coordinates && this.parentDataCube == parentDataCube
      ensures defaultType == dtype && schema == BuildSchema(coordinates, dtype)
      ensures this.data == (if data.Some? then data.value else [])
    {
      this.coordinates := coordinates;
      this.parentDataCube := parentDataCube;
      defaultType := dtype;
      schema := BuildSchema(coordinates, dtype);
      this.data := [];
      length := 0;
      new;
      if data.Some? {
        var ok := AddPointArray(data.value);
      }
    }

    /** Appends one row, which must have one value per field. */
    method AddPoint(point: Row)
      requires Valid() && |point| == |schema|
      modifies this
      ensures Valid()
      ensures data == old(data) + [point]
      ensures length == old(length) + 1
    {
      data := data + [point];
      length := length + 1;
    }

    /** Appends the rows in order through `AddPoint`. Only the first row's arity is checked
        up front; a later row of the wrong arity is rejected by `AddPoint` after the rows
        before it were appended. `ok` is false exactly when that happens. */
    method AddPointArray(pointarray: seq<Row>) returns (ok: bool)
      requires Valid() && |pointarray| > 0 && |pointarray[0]| == |schema|
      modifies this
      ensures Valid()
      ensures ok <==> Fits(pointarray, |schema|)
      ensures data == old(data) + pointarray[..FittingPrefix(pointarray, |schema|)]
      ensures length == old(length) + FittingPrefix(pointarray, |schema|)
    {
      var i := 0;
      while i < |pointarray|
        invariant 0 <= i <= |pointarray|
        invariant forall j :: 0 <= j < i ==> |pointarray[j]| == |schema|
        invariant Valid()
        invariant data == old(data) + pointarray[..i]
        invariant length == old(length) + i
      {
        if |pointarray[i]| != |schema| {
          return false;
        }
        AddPoint(pointarray[i]);
        i := i + 1;
      }
      assert pointarray[..i] == pointarray;
      return true;
    }

    /** Appends the rows of a table with the same record type. The other table is not
        changed (unless it is this one). */
    method AddPointList(pointlist: PointList)
      requires Valid() && pointlist.Valid() && pointlist.schema == schema
      modifies this
      ensures Valid()
      ensures data == old(data) + old(pointlist.data)
      ensures length == old(length) + old(pointlist.length)
      ensures pointlist != this ==> unchanged(pointlist)
    {
      data := data + pointlist.data;
      length := length + pointlist.length;
    }

    /** Sorts in place on the field `coordinate`. Ascending is numpy's record order on that
        field; descending is that result reversed. */
    method Sort(coordinate: string, order: string := "descending")
      requires Valid() && coordinate in FieldNames(schema)
      requires order == "descending" || order == "ascending"
      modifies this
      ensures Valid()
      ensures HasField(old(data), FieldIndex(schema, coordinate))
      ensures data == if order == "ascending" then SortAscending(old(data), FieldIndex(schema, coordinate))
                      else SortDescending(old(data), FieldIndex(schema, coordinate))
      ensures multiset(data) == multiset(old(data))
      ensures length == old(length)
    {
      var k := FieldIndex(schema, coordinate);
      if order == "ascending" {
        data := SortAscending(data, k);
      } else {
        data := SortDescending(data, k);
      }
      SortDescendingSpec(old(data), k);
      assert Fits(data, |schema|) by {
        forall r | r in data ensures |r| == |schema| {
          assert r in multiset(data);
        }
      }
    }

    /** The deletion mask of `get_subpointlist`: starting from all false, each constraint
        marks the rows that fail it. */
    method DeleteMask(coordsVals: seq<Constraint>) returns (deletemask: seq<bool>)
      requires Valid() && Known(schema, coordsVals)
      ensures |deletemask| == |data|
      ensures forall i :: 0 <= i < |data| ==> deletemask[i] == !Satisfies(schema, data[i], coordsVals)
    {
      var rows := data;
      deletemask := seq(|rows|, i => false);
      var t := 0;
      while t < |coordsVals|
        invariant 0 <= t <= |coordsVals|
        invariant |deletemask| == |rows|
        invariant forall i :: 0 <= i < |rows| ==> deletemask[i] == !Satisfies(schema, rows[i], coordsVals[..t])
      {
        var c, previous := coordsVals[t], deletemask;
        deletemask := seq(|rows|, i requires 0 <= i < |rows| => previous[i] || Violates(schema, rows[i], c));
        assert coordsVals[..t + 1] == coordsVals[..t] + [c];
        forall i | 0 <= i < |rows| ensures deletemask[i] == !Satisfies(schema, rows[i], coordsVals[..t + 1]) {
          SatisfiesSnoc(schema, rows[i], coordsVals[..t], c);
        }
        t := t + 1;
      }
      assert coordsVals[..t] == coordsVals;
    }

    /** A new table holding, in order, the rows that meet every constraint. The table is
        copied and the copy pruned, so the table must not be empty. */
    method GetSubPointList(coordsVals: seq<Constraint>) returns (sub: PointList)
      requires Valid() && Known(schema, coordsVals) && |data| > 0
      ensures fresh(sub) && sub.Valid()
      ensures sub.coordinates == coordinates && sub.parentDataCube == parentDataCube
      ensures sub.schema == schema
      ensures sub.data == Selected(schema, data, coordsVals)
    {
      var deletemask := DeleteMask(coordsVals);
      assert deletemask == ViolationMask(schema, data, coordsVals);
      sub := Copy();
      sub.RemovePoints(deletemask);
      KeptByViolations(schema, data, coordsVals);
    }

    /** Deletes, in place, the rows whose mask entry is true; the others keep their order. */
    method RemovePoints(deletemask: seq<bool>)
      requires Valid() && MaskInRange(deletemask, |data|)
      modifies this
      ensures Valid()
      ensures data == Kept(old(data), deletemask)
      ensures length == old(length) - CountTrue(deletemask)
    {
      KeptLength(data, deletemask);
      KeptFits(data, deletemask, |schema|);
      data := Kept(data, deletemask);
      length := length - CountTrue(deletemask);
    }

    /** A new table with the same coordinates, parent and record type, built from a copy of
        the rows; it goes through `add_pointarray`, so the table must not be empty. */
    method Copy() returns (pointlist: PointList)
      requires Valid() && |data| > 0
      ensures fresh(pointlist) && pointlist.Valid()
      ensures pointlist.coordinates == coordinates && pointlist.parentDataCube == parentDataCube
      ensures pointlist.defaultType == defaultType && pointlist.schema == schema
      ensures pointlist.data == data && pointlist.length == length
    {
      pointlist := new PointList(coordinates, parentDataCube, Some(data), defaultType);
    }
  }
}
