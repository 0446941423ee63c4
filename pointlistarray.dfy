/** `PointListArray`: a `shape[0]` by `shape[1]` grid of independent PointLists that share
    the coordinates, parent and default type, one per real-space scan position. */
module PointListArrays {
  import opened Schemas
  import opened Rows
  import opened PointLists

  /** The number of iterations of Python's `range(n)`: none for a negative `n`. */
  function Extent(n: int): nat
  {
    if n < 0 then 0 else n
  }

  /** `position` places each table at its own cell, so no table sits in two cells. */
  ghost predicate Placed(cells: seq<seq<PointList>>, position: map<PointList, (int, int)>)
  {
    forall i, j :: 0 <= i < |cells| && 0 <= j < |cells[i]| ==>
      cells[i][j] in position && position[cells[i][j]] == (i, j)
  }

  /** `rows` lists of `cols` tables each, placed by `position`, each a valid table built from
      `coordinates`, `parent` and `dtype`. */
  ghost predicate WellFormedCells(cells: seq<seq<PointList>>, position: map<PointList, (int, int)>,
                                  rows: nat, cols: nat,
                                  coordinates: Coordinates, parent: DataCube, dtype: DType)
    reads set i, j | 0 <= i < |cells| && 0 <= j < |cells[i]| :: cells[i][j]
  {
    && |cells| == rows
    && (forall i :: 0 <= i < |cells| ==> |cells[i]| == cols)
    && Placed(cells, position)
    && forall i, j :: 0 <= i < |cells| && 0 <= j < |cells[i]| ==>
         && cells[i][j].Valid()
         && cells[i][j].coordinates == coordinates
         && cells[i][j].parentDataCube == parent
         && cells[i][j].defaultType == dtype
  }

  /** The inner list comprehension of the constructor: `cols` new, empty tables, for row `i`. */
  method EmptyRow(coordinates: Coordinates, parent: DataCube, dtype: DType, i: nat, cols: nat)
    returns (row: seq<PointList>, ghost position: map<PointList, (int, int)>)
    requires cols > 0 ==> CoordinateCount(coordinates) > 0 && DistinctNames(BuildSchema(coordinates, dtype))
    ensures |row| == cols
    ensures forall c :: c in position ==> fresh(c)
    ensures forall b :: 0 <= b < |row| ==> row[b] in position && position[row[b]] == (i, b)
    ensures forall b :: 0 <= b < |row| ==>
              && fresh(row[b]) && row[b].data == [] && row[b].Valid()
              && row[b].coordinates == coordinates && row[b].parentDataCube == parent
              && row[b].defaultType == dtype
  {
    row, position := [], map[];
    while |row| < cols
      invariant |row| <= cols
      invariant forall c :: c in position ==> fresh(c)
      invariant forall b :: 0 <= b < |row| ==> row[b] in position && position[row[b]] == (i, b)
      invariant forall b :: 0 <= b < |row| ==>
                  && fresh(row[b]) && row[b].data == [] && row[b].Valid()
                  && row[b].coordinates == coordinates && row[b].parentDataCube == parent
                  && row[b].defaultType == dtype
    {
      var cell := new PointList(coordinates, parent, None, dtype);
      position := position[cell := (i, |row|)];
      row := row + [cell];
    }
  }

  /** The nested list comprehension of the constructor: `rows` lists of `cols` new, empty
      tables. */
  method EmptyCells(coordinates: Coordinates, parent: DataCube, dtype: DType, rows: nat, cols: nat)
    returns (cells: seq<seq<PointList>>, ghost position: map<PointList, (int, int)>)
    requires rows > 0 && cols > 0 ==> CoordinateCount(coordinates) > 0 && DistinctNames(BuildSchema(coordinates, dtype))
    ensures WellFormedCells(cells, position, rows, cols, coordinates, parent, dtype)
    ensures forall i, j :: 0 <= i < |cells| && 0 <= j < |cells[i]| ==> fresh(cells[i][j]) && cells[i][j].data == []
  {
    cells, position := [], map[];
    while |cells| < rows
      invariant |cells| <= rows
      invariant WellFormedCells(cells, position, |cells|, cols, coordinates, parent, dtype)
      invariant forall a, b :: 0 <= a < |cells| && 0 <= b < |cells[a]| ==> fresh(cells[a][b]) && cells[a][b].data == []
    {
      var row, rowPosition := EmptyRow(coordinates, parent, dtype, |cells|, cols);
      AppendRowWellFormed(cells, position, row, rowPosition, cols, coordinates, parent, dtype);
      cells, position := cells + [row], position + rowPosition;
    }
  }

  /** A new row of valid tables, placed in the row after the last, extends the grid. */
  lemma AppendRowWellFormed(cells: seq<seq<PointList>>, position: map<PointList, (int, int)>,
                            row: seq<PointList>, rowPosition: map<PointList, (int, int)>, cols: nat,
                            coordinates: Coordinates, parent: DataCube, dtype: DType)
    requires WellFormedCells(cells, position, |cells|, cols, coordinates, parent, dtype)
    requires |row| == cols
    requires forall b :: 0 <= b < |row| ==> row[b] in rowPosition && rowPosition[row[b]] == (|cells|, b)
    requires forall b :: 0 <= b < |row| ==>
               && row[b].Valid() && row[b].coordinates == coordinates
               && row[b].parentDataCube == parent && row[b].defaultType == dtype
    requires forall a, b :: 0 <= a < |cells| && 0 <= b < |cells[a]| ==> cells[a][b] !in rowPosition
    ensures WellFormedCells(cells + [row], position + rowPosition, |cells| + 1, cols, coordinates, parent, dtype)
  {
    var grown := cells + [row];
    forall i | 0 <= i < |grown| ensures grown[i] == if i < |cells| then cells[i] else row {
    }
  }

  class PointListArray {
    const coordinates: Coordinates
    const parentDataCube: DataCube
    const defaultType: DType
    const shape: (int, int)
    const pointlists: seq<seq<PointList>>
    /** Where each table of the grid sits. */
    ghost const position: map<PointList, (int, int)>

    ghost function Cells(): set<PointList>
    {
      set i, j | 0 <= i < |pointlists| && 0 <= j < |pointlists[i]| :: pointlists[i][j]
    }

    /** `shape[0]` lists of `shape[1]` distinct valid tables, all built alike. */
    ghost predicate Valid()
      reads this, Cells()
    {
      WellFormedCells(pointlists, position, Extent(shape.0), Extent(shape.1), coordinates, parentDataCube, defaultType)
    }

    /** Takes `shape` when given, otherwise the parent's real-space extent `(R_Nx, R_Ny)`,
        and fills every cell with a new, empty table. */
    constructor (coordinates: Coordinates, parentDataCube: DataCube, shape: Option<(int, int)>, dtype: DType)
      requires var s := if shape.Some? then shape.value else (parentDataCube.rNx, parentDataCube.rNy);
               Extent(s.0) > 0 && Extent(s.1) > 0 ==>
                 CoordinateCount(coordinates) > 0 && DistinctNames(BuildSchema(coordinates, dtype))
      ensures Valid()
      ensures this.coordinates == coordinates && this.parentDataCube == parentDataCube && defaultType == dtype
      ensures this.shape == if shape.Some? then shape.value else (parentDataCube.rNx, parentDataCube.rNy)
      ensures forall i, j :: 0 <= i < |pointlists| && 0 <= j < |pointlists[i]| ==>
                fresh(pointlists[i][j]) && pointlists[i][j].data == []
    {
      var s := if shape.Some? then shape.value else (parentDataCube.rNx, parentDataCube.rNy);
      this.coordinates := coordinates;
      this.parentDataCube := parentDataCube;
      defaultType := dtype;
      this.shape := s;
      var cells, cellPosition := EmptyCells(coordinates, parentDataCube, dtype, Extent(s.0), Extent(s.1));
      pointlists, position := cells, cellPosition;
    }

    /** The table at cell `(i, j)`. */
    method GetPointList(i: int, j: int) returns (pointlist: PointList)
      requires Valid() && 0 <= i < shape.0 && 0 <= j < shape.1
      ensures pointlist == pointlists[i][j]
      ensures pointlist.Valid() && pointlist.coordinates == coordinates
    {
      pointlist := pointlists[i][j];
    }

    /** One step of the copy: append a copy of cell `(i, j)` here to cell `(i, j)` of `copy`. */
    method CopyCell(copy: PointListArray, i: int, j: int)
      requires Valid() && copy.Valid() && copy.shape == shape && copy.coordinates == coordinates
      requires copy.defaultType == defaultType
      requires 0 <= i < shape.0 && 0 <= j < shape.1 && |pointlists[i][j].data| > 0
      requires copy.pointlists[i][j] !in position
      modifies copy.pointlists[i][j]
      ensures copy.Valid()
      ensures copy.pointlists[i][j].data == old(copy.pointlists[i][j].data) + pointlists[i][j].data
      ensures forall a, b :: 0 <= a < |copy.pointlists| && 0 <= b < |copy.pointlists[a]| && (a, b) != (i, j) ==>
                copy.pointlists[a][b].data == old(copy.pointlists[a][b].data)
      ensures forall a, b :: 0 <= a < |pointlists| && 0 <= b < |pointlists[a]| ==>
                pointlists[a][b].data == old(pointlists[a][b].data)
    {
      var current, source := copy.pointlists[i][j], pointlists[i][j];
      var duplicate := source.Copy();
      current.AddPointList(duplicate);
      forall a, b | 0 <= a < |copy.pointlists| && 0 <= b < |copy.pointlists[a]| && (a, b) != (i, j)
        ensures copy.pointlists[a][b].Valid()
      {
        assert copy.position[copy.pointlists[a][b]] == (a, b);
      }
      forall a, b | 0 <= a < |pointlists| && 0 <= b < |pointlists[a]|
        ensures pointlists[a][b].data == old(pointlists[a][b].data)
      {
        assert pointlists[a][b] in position;
      }
    }

    /** The inner loop of the copy: fill row `i` of `copy`, whose tables are still empty. */
    method CopyRow(copy: PointListArray, i: int)
      requires Valid() && copy.Valid() && copy.shape == shape && copy.coordinates == coordinates
      requires copy.defaultType == defaultType
      requires 0 <= i < shape.0
      requires forall b :: 0 <= b < |pointlists[i]| ==>
                 |pointlists[i][b].data| > 0 && copy.pointlists[i][b].data == [] && copy.pointlists[i][b] !in position
      modifies set b | 0 <= b < |copy.pointlists[i]| :: copy.pointlists[i][b]
      ensures copy.Valid()
      ensures forall b :: 0 <= b < |pointlists[i]| ==> copy.pointlists[i][b].data == pointlists[i][b].data
      ensures forall a, b :: 0 <= a < |copy.pointlists| && 0 <= b < |copy.pointlists[a]| && a != i ==>
                copy.pointlists[a][b].data == old(copy.pointlists[a][b].data)
    {
      var j := 0;
      while j < Extent(shape.1)
        invariant 0 <= j <= Extent(shape.1)
        invariant copy.Valid()
        invariant forall a, b :: 0 <= a < |copy.pointlists| && 0 <= b < |copy.pointlists[a]| && a != i ==>
                    copy.pointlists[a][b].data == old(copy.pointlists[a][b].data)
        invariant forall b :: 0 <= b < |pointlists[i]| ==>
                    copy.pointlists[i][b].data == if b < j then pointlists[i][b].data else []
      {
        label step:
        CopyCell(copy, i, j);
        forall b | 0 <= b < |pointlists[i]|
          ensures copy.pointlists[i][b].data == if b <= j then pointlists[i][b].data else []
        {
          if b != j {
            assert copy.pointlists[i][b].data == old@step(copy.pointlists[i][b].data);
          }
        }
        j := j + 1;
      }
    }

    /** A grid of the same shape whose every cell holds a copy of the rows of the same cell
        here, in new tables. Each cell is copied, so no cell may be empty. */
    method Copy() returns (copy: PointListArray)
      requires Valid()
      requires forall i, j :: 0 <= i < |pointlists| && 0 <= j < |pointlists[i]| ==> |pointlists[i][j].data| > 0
      ensures fresh(copy) && copy.Valid()
      ensures copy.coordinates == coordinates && copy.parentDataCube == parentDataCube
      ensures copy.defaultType == defaultType && copy.shape == shape
      ensures |copy.pointlists| == |pointlists|
      ensures forall i :: 0 <= i < |pointlists| ==> |copy.pointlists[i]| == |pointlists[i]|
      ensures forall i, j :: 0 <= i < |pointlists| && 0 <= j < |pointlists[i]| ==>
                fresh(copy.pointlists[i][j]) && copy.pointlists[i][j].data == pointlists[i][j].data
    {
      if Extent(shape.0) > 0 && Extent(shape.1) > 0 {
        assert pointlists[0][0].Valid();
      }
      copy := new PointListArray(coordinates, parentDataCube, Some(shape), defaultType);
      CopyInto(copy);
    }

    /** The loop of the copy: fill every cell of `copy`, whose tables are still empty and
        disjoint from this grid's, with the rows of the same cell here. */
    method CopyInto(copy: PointListArray)
      requires Valid() && copy.Valid() && copy.shape == shape && copy.coordinates == coordinates
      requires copy.defaultType == defaultType
      requires forall i, j :: 0 <= i < |pointlists| && 0 <= j < |pointlists[i]| ==>
                 && |pointlists[i][j].data| > 0 && copy.pointlists[i][j].data == []
                 && copy.pointlists[i][j] !in position
      modifies copy.Cells()
      ensures copy.Valid()
      ensures forall i, j :: 0 <= i < |pointlists| && 0 <= j < |pointlists[i]| ==>
                copy.pointlists[i][j].data == pointlists[i][j].data
    {
      var i := 0;
      while i < Extent(shape.0)
        invariant 0 <= i <= Extent(shape.0)
        invariant copy.Valid()
        invariant forall a, b :: 0 <= a < |pointlists| && 0 <= b < |pointlists[a]| ==>
                    copy.pointlists[a][b].data == if a < i then pointlists[a][b].data else []
      {
        CopyRow(copy, i);
        i := i + 1;
      }
    }
  }
}
