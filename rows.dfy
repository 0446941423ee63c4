/** Rows of a PointList and the pure specifications of the row-level operations: arity
    checks, deletion by a boolean mask, and selection by field predicates. */
module Rows {
  import opened Schemas

  /** One point: one value per field of the schema. */
  type Row = seq<int>

  /** Every row has `arity` values. */
  predicate Fits(rows: seq<Row>, arity: nat)
  {
    forall r :: r in rows ==> |r| == arity
  }

  /** The number of leading rows that have `arity` values: the rows that `add_pointarray`
      appends before `add_point` rejects one. */
  function FittingPrefix(points: seq<Row>, arity: nat): (n: nat)
    ensures n <= |points|
    ensures forall j :: 0 <= j < n ==> |points[j]| == arity
    ensures n < |points| ==> |points[n]| != arity
  {
    if points == [] || |points[0]| != arity then 0 else 1 + FittingPrefix(points[1..], arity)
  }

  // ---------------------------------------------------------------------------------------
  // Deletion by boolean mask (`np.delete(data, mask.nonzero()[0])`)
  // ---------------------------------------------------------------------------------------

  /** Row `i` is deleted when the mask has a true entry at `i`; rows past the mask's end stay. */
  predicate Deletes(mask: seq<bool>, i: nat)
  {
    i < |mask| && mask[i]
  }

  /** Every true entry of the mask names an existing row (otherwise `np.delete` raises). */
  predicate MaskInRange(mask: seq<bool>, n: nat)
  {
    forall i :: 0 <= i < |mask| && mask[i] ==> i < n
  }

  /** The number of true entries, `len(mask.nonzero()[0])`. */
  function CountTrue(mask: seq<bool>): nat
  {
    if mask == [] then 0 else (if mask[0] then 1 else 0) + CountTrue(mask[1..])
  }

  function Tail(mask: seq<bool>): seq<bool>
  {
    if mask == [] then [] else mask[1..]
  }

  /** The rows the mask does not delete, in their original order. */
  function Kept(rows: seq<Row>, mask: seq<bool>): seq<Row>
  {
    if rows == [] then []
    else if Deletes(mask, 0) then Kept(rows[1..], Tail(mask))
    else [rows[0]] + Kept(rows[1..], Tail(mask))
  }

  /** The kept rows number the rows minus the true entries. */
  lemma {:induction false} KeptLength(rows: seq<Row>, mask: seq<bool>)
    requires MaskInRange(mask, |rows|)
    ensures |Kept(rows, mask)| == |rows| - CountTrue(mask)
  {
    if rows == [] {
      AllFalse(mask);
    } else {
      assert MaskInRange(Tail(mask), |rows| - 1) by {
        forall i | 0 <= i < |Tail(mask)| && Tail(mask)[i] ensures i < |rows| - 1 {
          assert mask[i + 1];
        }
      }
      KeptLength(rows[1..], Tail(mask));
      if mask != [] {
        assert Tail(mask) == mask[1..];
      }
    }
  }

  /** A mask that is in range for an empty table has no true entry. */
  lemma {:induction false} AllFalse(mask: seq<bool>)
    requires MaskInRange(mask, 0)
    ensures CountTrue(mask) == 0
  {
    if mask != [] {
      assert !mask[0];
      assert forall i :: 0 <= i < |mask[1..]| ==> mask[1..][i] == mask[i + 1];
      AllFalse(mask[1..]);
    }
  }

  /** A row is kept exactly when some position holding it is not deleted. */
  lemma {:induction false} KeptMembers(rows: seq<Row>, mask: seq<bool>, x: Row)
    ensures x in Kept(rows, mask) <==> exists i :: 0 <= i < |rows| && !Deletes(mask, i) && rows[i] == x
  {
    if rows != [] {
      KeptMembers(rows[1..], Tail(mask), x);
      if x in Kept(rows, mask) {
        if !Deletes(mask, 0) && rows[0] == x {
          assert 0 < |rows| && !Deletes(mask, 0) && rows[0] == x;
        } else {
          assert x in Kept(rows[1..], Tail(mask));
          var i :| 0 <= i < |rows[1..]| && !Deletes(Tail(mask), i) && rows[1..][i] == x;
          assert !Deletes(mask, i + 1) && rows[i + 1] == x;
        }
      }
      if exists i :: 0 <= i < |rows| && !Deletes(mask, i) && rows[i] == x {
        var i :| 0 <= i < |rows| && !Deletes(mask, i) && rows[i] == x;
        if i > 0 {
          assert !Deletes(Tail(mask), i - 1) && rows[1..][i - 1] == x;
        }
      }
    }
  }

  /** Deletion works piecewise: the mask's first `|front|` entries decide the front rows,
      the rest decide the back rows, and the kept rows keep their relative order. */
  lemma {:induction false} KeptConcat(front: seq<Row>, back: seq<Row>, m1: seq<bool>, m2: seq<bool>)
    requires |m1| == |front|
    ensures Kept(front + back, m1 + m2) == Kept(front, m1) + Kept(back, m2)
  {
    if front != [] {
      assert (front + back)[1..] == front[1..] + back;
      assert Tail(m1 + m2) == Tail(m1) + m2;
      KeptConcat(front[1..], back, Tail(m1), m2);
    } else {
      assert front + back == back;
      assert m1 + m2 == m2;
    }
  }

  /** Deletion never brings in a row from outside. */
  lemma KeptFits(rows: seq<Row>, mask: seq<bool>, arity: nat)
    requires Fits(rows, arity)
    ensures Fits(Kept(rows, mask), arity)
  {
    forall x | x in Kept(rows, mask) ensures |x| == arity {
      KeptMembers(rows, mask, x);
    }
  }

  // ---------------------------------------------------------------------------------------
  // Selection by field predicates (`get_subpointlist`)
  // ---------------------------------------------------------------------------------------

  /** A 2-tuple `(name, value)` or a 3-tuple `(name, minval, maxval)`. */
  datatype Constraint = Equals(field: string, value: int) | Within(field: string, lo: int, hi: int)

  /** Every constraint names a field of the schema. */
  predicate Known(schema: seq<Field>, cs: seq<Constraint>)
  {
    forall c :: c in cs ==> c.field in FieldNames(schema)
  }

  /** The row fails the constraint: it is marked for deletion by it. The range is half-open:
      `minval` is inside, `maxval` is not. */
  predicate Violates(schema: seq<Field>, row: Row, c: Constraint)
    requires c.field in FieldNames(schema) && |row| == |schema|
  {
    var v := row[FieldIndex(schema, c.field)];
    match c
    case Equals(_, x) => v != x
    case Within(_, lo, hi) => v < lo || v >= hi
  }

  /** The row meets every constraint. */
  predicate Satisfies(schema: seq<Field>, row: Row, cs: seq<Constraint>)
    requires Known(schema, cs) && |row| == |schema|
  {
    forall c :: c in cs ==> !Violates(schema, row, c)
  }

  /** Adding a constraint narrows what a row must meet by exactly that constraint. */
  lemma SatisfiesSnoc(schema: seq<Field>, row: Row, cs: seq<Constraint>, c: Constraint)
    requires Known(schema, cs + [c]) && |row| == |schema|
    ensures Known(schema, cs)
    ensures Satisfies(schema, row, cs + [c]) <==> Satisfies(schema, row, cs) && !Violates(schema, row, c)
  {
    assert forall d :: d in cs + [c] <==> d in cs || d == c;
  }

  /** Reference definition of the selection: the rows meeting every constraint, in order. */
  function Selected(schema: seq<Field>, rows: seq<Row>, cs: seq<Constraint>): seq<Row>
    requires Known(schema, cs) && Fits(rows, |schema|)
  {
    if rows == [] then []
    else (if Satisfies(schema, rows[0], cs) then [rows[0]] else []) + Selected(schema, rows[1..], cs)
  }

  /** The deletion mask `get_subpointlist` builds: true where the row fails some constraint. */
  function ViolationMask(schema: seq<Field>, rows: seq<Row>, cs: seq<Constraint>): (mask: seq<bool>)
    requires Known(schema, cs) && Fits(rows, |schema|)
    ensures |mask| == |rows|
  {
    seq(|rows|, i requires 0 <= i < |rows| => !Satisfies(schema, rows[i], cs))
  }

  /** Deleting the rows that fail some constraint leaves exactly the selected rows. */
  lemma {:induction false} KeptByViolations(schema: seq<Field>, rows: seq<Row>, cs: seq<Constraint>)
    requires Known(schema, cs) && Fits(rows, |schema|)
    ensures Kept(rows, ViolationMask(schema, rows, cs)) == Selected(schema, rows, cs)
  {
    if rows != [] {
      var mask := ViolationMask(schema, rows, cs);
      assert Tail(mask) == ViolationMask(schema, rows[1..], cs);
      KeptByViolations(schema, rows[1..], cs);
    }
  }

  /** A row is selected exactly when it is a row of the table and meets every constraint. */
  lemma {:induction false} SelectedMembers(schema: seq<Field>, rows: seq<Row>, cs: seq<Constraint>, x: Row)
    requires Known(schema, cs) && Fits(rows, |schema|)
    ensures x in Selected(schema, rows, cs) <==> x in rows && Satisfies(schema, x, cs)
  {
    if rows != [] {
      assert rows == [rows[0]] + rows[1..];
      SelectedMembers(schema, rows[1..], cs, x);
    }
  }

  /** Selection keeps the table order: it distributes over concatenation. */
  lemma {:induction false} SelectedConcat(schema: seq<Field>, front: seq<Row>, back: seq<Row>, cs: seq<Constraint>)
    requires Known(schema, cs) && Fits(front, |schema|) && Fits(back, |schema|)
    ensures Selected(schema, front + back, cs) == Selected(schema, front, cs) + Selected(schema, back, cs)
  {
    if front != [] {
      assert (front + back)[1..] == front[1..] + back;
      SelectedConcat(schema, front[1..], back, cs);
    } else {
      assert front + back == back;
    }
  }

  /** No constraints select every row. */
  lemma {:induction false} SelectedNone(schema: seq<Field>, rows: seq<Row>)
    requires Fits(rows, |schema|)
    ensures Selected(schema, rows, []) == rows
  {
    if rows != [] {
      SelectedNone(schema, rows[1..]);
    }
  }

  /** Constraints combine by conjunction: selecting by `c1` and then by `c2` is selecting by
      both at once. */
  lemma {:induction false} SelectedConjunction(schema: seq<Field>, rows: seq<Row>, c1: seq<Constraint>, c2: seq<Constraint>)
    requires Known(schema, c1) && Known(schema, c2) && Fits(rows, |schema|)
    ensures Fits(Selected(schema, rows, c1), |schema|)
    ensures Selected(schema, Selected(schema, rows, c1), c2) == Selected(schema, rows, c1 + c2)
  {
    forall x | x in Selected(schema, rows, c1) ensures |x| == |schema| {
      SelectedMembers(schema, rows, c1, x);
    }
    if rows != [] {
      SelectedConjunction(schema, rows[1..], c1, c2);
      var r := rows[0];
      var s1 := Selected(schema, rows[1..], c1);
      assert Satisfies(schema, r, c1 + c2) <==> Satisfies(schema, r, c1) && Satisfies(schema, r, c2);
      if Satisfies(schema, r, c1) {
        assert Selected(schema, rows, c1) == [r] + s1;
        assert ([r] + s1)[1..] == s1;
      } else {
        assert Selected(schema, rows, c1) == s1;
      }
    }
  }
}
