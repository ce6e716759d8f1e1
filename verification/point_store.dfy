/**
 * The abstract point store shared by both synchronisation adapters: four tables of point rows,
 * one per point family, each row carrying the foreign key of the measurement that owns it.
 * Table URIs, column names and SQL are replaced by this one value type.
 */
module PointStore {

  /** The four point families, in the order the upload handles them. */
  datatype PointType = Geo | Acceleration | Rotation | Direction

  /** One value per point family. */
  datatype PerType<T> = PerType(geo: T, acc: T, rot: T, dir: T) {

    function Of(t: PointType): T {
      match t
      case Geo => geo
      case Acceleration => acc
      case Rotation => rot
      case Direction => dir
    }
  }

  /** A stored point: row identity, owning measurement, timestamp and the 2 to 4 channel values. */
  datatype Row = Row(rowId: int, measurementFk: int, timestamp: int, values: seq<real>)

  /**
   * The store: GPS points (Geo), acceleration samples (Acceleration), rotation points (Rotation)
   * and magnetic value points (Direction).
   */
  datatype Store = Store(tables: PerType<seq<Row>>)

  /** The rows of `table` owned by measurement `id`, in table order. */
  function OwnedBy(table: seq<Row>, id: int): (r: seq<Row>)
    ensures |r| <= |table|
  {
    if |table| == 0 then []
    else
      var rest := OwnedBy(table[1..], id);
      if table[0].measurementFk == id then [table[0]] + rest else rest
  }

  /** The rows of `table` NOT owned by measurement `id`, in table order. */
  function NotOwnedBy(table: seq<Row>, id: int): (r: seq<Row>)
    ensures |r| <= |table|
  {
    if |table| == 0 then []
    else
      var rest := NotOwnedBy(table[1..], id);
      if table[0].measurementFk == id then rest else [table[0]] + rest
  }

  /** The rows of `table` that do not occur in `gone`, in table order. */
  function Without(table: seq<Row>, gone: seq<Row>): (r: seq<Row>)
    ensures |r| <= |table|
  {
    if |table| == 0 then []
    else
      var rest := Without(table[1..], gone);
      if table[0] in gone then rest else [table[0]] + rest
  }

  /** Removing no rows leaves the table as it is. */
  lemma {:induction false} WithoutNothing(table: seq<Row>)
    ensures Without(table, []) == table
  {
    if |table| > 0 {
      WithoutNothing(table[1..]);
      assert table == [table[0]] + table[1..];
    }
  }

  /** OwnedBy keeps each owned row as often as the table holds it, and no other row. */
  lemma {:induction false} OwnedByMultiset(table: seq<Row>, id: int)
    ensures forall x :: multiset(OwnedBy(table, id))[x] == if x.measurementFk == id then multiset(table)[x] else 0
  {
    if |table| > 0 {
      assert table == [table[0]] + table[1..];
      OwnedByMultiset(table[1..], id);
    }
  }

  /** NotOwnedBy keeps each foreign row as often as the table holds it, and no owned row. */
  lemma {:induction false} NotOwnedByMultiset(table: seq<Row>, id: int)
    ensures forall x :: multiset(NotOwnedBy(table, id))[x] == if x.measurementFk == id then 0 else multiset(table)[x]
  {
    if |table| > 0 {
      assert table == [table[0]] + table[1..];
      NotOwnedByMultiset(table[1..], id);
    }
  }

  /** Without drops every row listed in `gone` and keeps each other row as often as the table holds it. */
  lemma {:induction false} WithoutMultiset(table: seq<Row>, gone: seq<Row>)
    ensures forall x :: multiset(Without(table, gone))[x] == if x in gone then 0 else multiset(table)[x]
  {
    if |table| > 0 {
      assert table == [table[0]] + table[1..];
      WithoutMultiset(table[1..], gone);
    }
  }

  /** Every row OwnedBy returns belongs to the measurement. */
  lemma OwnedRowsBelong(table: seq<Row>, id: int)
    ensures forall x :: x in OwnedBy(table, id) ==> x.measurementFk == id
  {
  }

  /** The points of family `t` that belong to measurement `id`. */
  function Points(s: Store, t: PointType, id: int): seq<Row> {
    OwnedBy(s.tables.Of(t), id)
  }

  /** The four per-family point lists of measurement `id`. */
  function PointsOf(s: Store, id: int): PerType<seq<Row>> {
    PerType(Points(s, Geo, id), Points(s, Acceleration, id), Points(s, Rotation, id), Points(s, Direction, id))
  }

  /** The number of points of each family that belong to measurement `id` (the store's countData). */
  function CountsOf(s: Store, id: int): PerType<nat> {
    var p := PointsOf(s, id);
    PerType(|p.geo|, |p.acc|, |p.rot|, |p.dir|)
  }

  /** A measurement with no remaining points of any family. */
  predicate Emptied(s: Store, id: int) {
    forall t: PointType :: Points(s, t, id) == []
  }

  /** Removing a foreign measurement's rows does not change which rows `other` owns. */
  lemma {:induction false} OwnedByIgnoresOtherRemoval(table: seq<Row>, id: int, other: int)
    requires id != other
    ensures OwnedBy(NotOwnedBy(table, id), other) == OwnedBy(table, other)
  {
    if |table| > 0 {
      OwnedByIgnoresOtherRemoval(table[1..], id, other);
    }
  }

  /** After removing all of measurement `id`'s rows, it owns none. */
  lemma {:induction false} NothingOwnedAfterRemoval(table: seq<Row>, id: int)
    ensures OwnedBy(NotOwnedBy(table, id), id) == []
  {
    if |table| > 0 {
      NothingOwnedAfterRemoval(table[1..], id);
    }
  }

  /** Removing a list of rows that all belong to `id` leaves the rows of every other measurement. */
  lemma {:induction false} WithoutKeepsForeignRows(table: seq<Row>, gone: seq<Row>, id: int, other: int)
    requires forall x :: x in gone ==> x.measurementFk == id
    requires other != id
    ensures OwnedBy(Without(table, gone), other) == OwnedBy(table, other)
  {
    if |table| > 0 {
      WithoutKeepsForeignRows(table[1..], gone, id, other);
    }
  }

  /** Removing every row that `id` owns leaves `id` with none. */
  lemma {:induction false} WithoutAllOwned(table: seq<Row>, gone: seq<Row>, id: int)
    requires forall x :: x in OwnedBy(table, id) ==> x in gone
    ensures OwnedBy(Without(table, gone), id) == []
  {
    if |table| > 0 {
      assert table == [table[0]] + table[1..];
      if table[0].measurementFk == id {
        assert table[0] in OwnedBy(table, id);
      }
      OwnedByMultiset(table, id);
      OwnedByMultiset(table[1..], id);
      forall x | x in OwnedBy(table[1..], id)
        ensures x in gone
      {
        assert multiset(OwnedBy(table[1..], id))[x] > 0;
        assert multiset(table[1..])[x] > 0;
        assert multiset(table)[x] > 0;
        assert multiset(OwnedBy(table, id))[x] > 0;
      }
      WithoutAllOwned(table[1..], gone, id);
    }
  }
}
