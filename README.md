# PointList and PointListArray (py4DSTEM)

A Dafny model of py4DSTEM's point-list data structures.

- `PointList` is a table of points with a fixed record type (one named field per coordinate).
  It is stored as a structured numpy array `data` with a separate row counter `length`.
  Rows can be appended singly, in bulk, or from another table. The table can be sorted on a
  field, filtered by equality or half-open range constraints, and pruned by a boolean mask.
  It can be copied.
- `PointListArray` is a `shape[0]` by `shape[1]` grid of independent `PointList`s that share
  the coordinates, parent DataCube and default type, typically one per real-space scan
  position. It can be indexed and deep-copied cell by cell.

Layout:

- `schema.dfy` (module `Schemas`): the record type built from the `coordinates` argument and
  field lookup by name.
- `rows.dfy` (module `Rows`): rows, arity checks, deletion by mask (`np.delete`), and the
  reference definition of constraint selection.
- `sorting.dfy` (module `Sorting`): the order `np.sort(data, order=name)` uses, an
  insertion-sort reference for the ascending result, and the descending result as its
  reverse.
- `pointlist.dfy` (module `PointLists`): the `PointList` class.
- `pointlistarray.dfy` (module `PointListArrays`): the `PointListArray` class.

Both classes are imperative. Their methods update fields in place under `modifies` clauses,
and each method's `ensures` ties the new rows to a specification function of the old rows.
That function's properties are proved as lemmas.

Modelling choices:

- Field values are mathematical integers.
- The numpy field type is kept symbolically (`DType`), so that record types can be compared
  the way `add_pointlist` compares them.
- The parent DataCube is reduced to its scan extent `(R_Nx, R_Ny)`.
- A Python `assert` or indexing error that the source raises for bad input is a precondition.
  The exception is `add_pointarray`: it can fail part-way after appending some rows, so that
  partial effect is modelled as a result flag.
- Where the docstrings and the code differ, the model follows the code.
  - A table with no rows cannot be copied: `copy` goes through `add_pointarray`, which reads
    the first row. So `copy`, `get_subpointlist` and `PointListArray.copy` need every table
    involved to be non-empty.
  - The grid shape is not checked to be positive: a non-positive extent gives an empty
    `range`, so the grid has no rows or no columns.

## Model

| member | source | states |
|---|---|---|
| Schemas.BuildSchema | py4DSTEM/process/datastructure/pointlist.py:40-44 | one field per coordinate, named in order; plain names all take the default type, (name, dtype) pairs keep their own types |
| Schemas.IndexOf | py4DSTEM/process/datastructure/pointlist.py:81 | the position found holds the name and no earlier position does |
| Schemas.FieldIndex | py4DSTEM/process/datastructure/pointlist.py:81 | a coordinate that is a field name of the record type resolves to a field of that name |
| Schemas.FieldIndexUnique | py4DSTEM/process/datastructure/pointlist.py:81 | with distinct field names, the field of a given name is at exactly one position |
| PointLists.PointList.constructor | py4DSTEM/process/datastructure/pointlist.py:16-51 | the table starts empty with the built record type; given initial rows, it holds exactly those rows and the counter equals their number |
| PointLists.PointList.AddPoint | py4DSTEM/process/datastructure/pointlist.py:53-57 | a row with one value per field is appended at the end and the counter rises by one |
| Rows.FittingPrefix | py4DSTEM/process/datastructure/pointlist.py:59-65 | the leading rows of the right arity; the first row after them has the wrong arity |
| PointLists.PointList.AddPointArray | py4DSTEM/process/datastructure/pointlist.py:59-65 | appends the rows in order up to the first of wrong arity; reports success exactly when every row has the right arity; the counter stays equal to the number of rows |
| PointLists.PointList.AddPointList | py4DSTEM/process/datastructure/pointlist.py:67-73 | with equal record types, the other table's rows are appended in order, the counters add up, and the other table is unchanged |
| Sorting.RowLeqTotalOrder | py4DSTEM/process/datastructure/pointlist.py:84 | the record order (named field first, then all fields in schema order) is reflexive, total, antisymmetric and transitive |
| Sorting.SortAscendingOrdered | py4DSTEM/process/datastructure/pointlist.py:84 | the ascending result is ordered by the record order |
| Sorting.SortAscendingSpec | py4DSTEM/process/datastructure/pointlist.py:83-84 | the ascending result is a permutation of the rows, non-decreasing in the named field |
| Sorting.AscendingUnique | py4DSTEM/process/datastructure/pointlist.py:84 | two ordered sequences holding the same rows are equal, so the sort result does not depend on any tie-breaking choice |
| Sorting.SortDependsOnRowsOnly | py4DSTEM/process/datastructure/pointlist.py:84 | sorting two orderings of the same rows gives the same result |
| Sorting.SortAscendingOfAscending | py4DSTEM/process/datastructure/pointlist.py:84 | rows already in order are left as they are |
| Sorting.ReverseAt | py4DSTEM/process/datastructure/pointlist.py:86 | `[::-1]` puts position i at position n-1-i and keeps length and multiset |
| Sorting.SortDescendingSpec | py4DSTEM/process/datastructure/pointlist.py:85-86 | the descending result is a permutation, non-increasing in the named field, and exactly the ascending result back to front |
| Sorting.SortIdempotent | py4DSTEM/process/datastructure/pointlist.py:83-86 | sorting a sorted table again in the same order changes nothing, for both orders |
| Sorting.AscendingThenDescending | py4DSTEM/process/datastructure/pointlist.py:83-86 | sorting descending after ascending gives the ascending result reversed |
| PointLists.PointList.Sort | py4DSTEM/process/datastructure/pointlist.py:75-86 | the rows become the ascending or descending sort of the old rows on the named field; same multiset, same counter |
| Rows.SatisfiesSnoc | py4DSTEM/process/datastructure/pointlist.py:100-108 | one more constraint narrows the rows that pass by exactly that constraint |
| PointLists.PointList.DeleteMask | py4DSTEM/process/datastructure/pointlist.py:99-108 | the mask has one entry per row, true exactly when the row violates some constraint (inequality for a pair, outside `[minval, maxval)` for a triple) |
| Rows.KeptByViolations | py4DSTEM/process/datastructure/pointlist.py:99-110 | deleting the rows the violation mask marks leaves exactly the selected rows |
| Rows.SelectedMembers | py4DSTEM/process/datastructure/pointlist.py:88-111 | a row is in the sub-list exactly when it is a row of the table and meets every constraint |
| Rows.SelectedConcat | py4DSTEM/process/datastructure/pointlist.py:88-111 | selection keeps table order: it distributes over concatenation |
| Rows.SelectedNone | py4DSTEM/process/datastructure/pointlist.py:99-111 | with no constraints every row is kept |
| Rows.SelectedConjunction | py4DSTEM/process/datastructure/pointlist.py:100-108 | selecting by one list of constraints and then another is selecting by both at once |
| PointLists.PointList.GetSubPointList | py4DSTEM/process/datastructure/pointlist.py:88-111 | a new table with the same coordinates, parent and record type, holding the selected rows in order |
| Rows.KeptLength | py4DSTEM/process/datastructure/pointlist.py:113-115 | the rows left number the rows minus the true mask entries, matching the counter update |
| Rows.KeptMembers | py4DSTEM/process/datastructure/pointlist.py:114 | a row survives exactly when some position holding it is not deleted |
| Rows.KeptConcat | py4DSTEM/process/datastructure/pointlist.py:114 | deletion acts piecewise and keeps the survivors in their original order |
| Rows.KeptFits | py4DSTEM/process/datastructure/pointlist.py:114 | deletion keeps every row's arity |
| PointLists.PointList.RemovePoints | py4DSTEM/process/datastructure/pointlist.py:113-115 | the rows become those the mask does not delete, and the counter drops by the number of true entries |
| PointLists.PointList.Copy | py4DSTEM/process/datastructure/pointlist.py:117-123 | a new table with the same coordinates, parent, default type and record type, and equal rows and counter |
| Schemas.CopyAsWrittenChangesNamedSchema | py4DSTEM/process/datastructure/pointlist.py:117-123 | with plain-name coordinates, the record type that `copy` rebuilds as written gives each field the whole original record type, so it differs from the original |
| Schemas.CopyAsWrittenKeepsPairSchema | py4DSTEM/process/datastructure/pointlist.py:117-123 | with (name, dtype) pairs, `copy` as written keeps the record type |
| PointListArrays.EmptyRow | py4DSTEM/process/datastructure/pointlist.py:157-160 | one row of the comprehension: new, empty, valid tables built alike, placed in that row |
| PointListArrays.AppendRowWellFormed | py4DSTEM/process/datastructure/pointlist.py:157-160 | adding a row of new tables keeps the grid well formed, with each table in one cell |
| PointListArrays.EmptyCells | py4DSTEM/process/datastructure/pointlist.py:157-160 | the nested comprehension gives a well-formed grid of new, empty tables |
| PointListArrays.PointListArray.constructor | py4DSTEM/process/datastructure/pointlist.py:132-160 | the shape is the one given, or else the parent's `(R_Nx, R_Ny)`; every cell is a distinct new, empty table built from the shared coordinates, parent and default type |
| PointListArrays.PointListArray.GetPointList | py4DSTEM/process/datastructure/pointlist.py:162-166 | the table stored at cell (i, j), which is valid and built from the grid's coordinates |
| PointListArrays.PointListArray.CopyCell | py4DSTEM/process/datastructure/pointlist.py:180-181 | a copy of source cell (i, j) is merged into the copy's cell (i, j); no other cell of either grid changes |
| PointListArrays.PointListArray.CopyRow | py4DSTEM/process/datastructure/pointlist.py:179-181 | after the inner loop, row i of the copy holds the source's rows cell by cell and other rows are unchanged |
| PointListArrays.PointListArray.CopyInto | py4DSTEM/process/datastructure/pointlist.py:178-181 | after both loops, every cell of the copy holds the rows of the same source cell |
| PointListArrays.PointListArray.Copy | py4DSTEM/process/datastructure/pointlist.py:168-183 | a new grid with the same coordinates, parent, default type and shape, each cell a new table whose rows equal the source cell's |

## Left out

- Field values are integers: numpy's coercion of a point to the field types, floating point and NaN ordering are not modelled.
- The `DataObject` base class (parent registration, saving, logging) and the `**kwargs` passed through to it are not modelled.
- The constructor's TypeError for coordinates that are neither strings nor 2-tuples is unrepresentable: `Coordinates` has only the two accepted shapes. An empty coordinate list (IndexError on `coordinates[0]`) is excluded by a precondition.
- The shape assertions (a tuple of length 2) are unrepresentable: the shape is a pair of integers.
- PointLists.PointList.AddPoint: the AssertionError for a row of the wrong arity is a precondition; inside `add_pointarray` the same failure is modelled by the `ok` flag.
- PointLists.PointList.Sort and PointLists.PointList.GetSubPointList: their AssertionErrors (unknown field name, unknown order string, malformed constraint tuple) are preconditions. A malformed tuple is unrepresentable: `Constraint` has only the two forms.
- PointListArrays.PointListArray.GetPointList: Python's negative list indices are not modelled; indices must lie in the grid.
- PointListArrays.PointListArray.CopyCell reads the two cells directly instead of calling `get_pointlist`. This is the same cell of the same list.
- PointLists.PointList.Copy passes the table's default type, not its record type, to the constructor (see Findings). The copy therefore keeps the original record type.
- PointListArrays.PointListArray.Copy: `np.copy` versus sharing is expressed as freshness of every new table and cell; storage of the rows themselves is value-typed in the model.

## Findings

| source | as written | input that shows it | evidently intended | confidence | as-written member | corrected member |
|---|---|---|---|---|---|---|
| py4DSTEM/process/datastructure/pointlist.py:117-123 | `copy` passes `dtype=self.dtype`, the whole record type, as the per-field default type of the new table | coordinates `['qx', 'qy']` with the default `float`: the copy's fields `qx` and `qy` each get the record type `[('qx', float), ('qy', float)]`, so the copy's dtype differs from the original's. `PointListArray.copy` then fails the dtype assertion of `add_pointlist` (line 71) for every non-empty cell | pass `dtype=self.default_dtype`, so the copy has the original's record type | not executed | Schemas.CopyAsWrittenChangesNamedSchema | PointLists.PointList.Copy |
