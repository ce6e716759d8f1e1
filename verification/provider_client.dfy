/**
 * MeasurementContentProviderClient: read and clean access to the points of ONE measurement,
 * over the abstract store. Each operation is a function of the store value, so the loads
 * leave the store as it was by construction. A RemoteException part-way through a clean is
 * modelled by CleanFailingAt: the deletes before the failing table have happened.
 */
module ProviderClient {
  import opened PointStore

  /** A client bound to one measurement identifier. */
  datatype Client = Client(measurementIdentifier: int)

  /** Which of the three 3D-point tables a point serializer addresses. */
  datatype Point3DKind = Accelerations | Rotations | Directions

  /** The store table a 3D-point kind lives in. */
  function TableOf(kind: Point3DKind): (t: PointType)
    ensures t != Geo
  {
    match kind
    case Accelerations => Acceleration
    case Rotations => Rotation
    case Directions => Direction
  }

  /** The GPS rows of this client's measurement: exactly those rows of the GPS table whose foreign key is the id. */
  function LoadGeoLocations(c: Client, s: Store): (r: seq<Row>)
    ensures forall x :: x in r ==> x.measurementFk == c.measurementIdentifier
    ensures forall x: Row :: x.measurementFk == c.measurementIdentifier ==> multiset(r)[x] == multiset(s.tables.geo)[x]
  {
    OwnedByMultiset(s.tables.geo, c.measurementIdentifier);
    OwnedRowsBelong(s.tables.geo, c.measurementIdentifier);
    OwnedBy(s.tables.geo, c.measurementIdentifier)
  }

  /** The rows of one 3D-point table owned by this client's measurement. */
  function Load3DPoint(c: Client, s: Store, kind: Point3DKind): (r: seq<Row>)
    ensures forall x :: x in r ==> x.measurementFk == c.measurementIdentifier
    ensures forall x: Row :: x.measurementFk == c.measurementIdentifier ==>
      multiset(r)[x] == multiset(s.tables.Of(TableOf(kind)))[x]
  {
    OwnedByMultiset(s.tables.Of(TableOf(kind)), c.measurementIdentifier);
    OwnedRowsBelong(s.tables.Of(TableOf(kind)), c.measurementIdentifier);
    OwnedBy(s.tables.Of(TableOf(kind)), c.measurementIdentifier)
  }

  /** The store after a clean, and the number of rows the three deletes reported. */
  datatype Cleaned = Cleaned(store: Store, deleted: int)

  /**
   * Deletes the measurement's acceleration, rotation and direction rows; GPS rows and the rows of
   * every other measurement stay. The count is the sum of the three per-table delete counts.
   */
  function CleanMeasurement(c: Client, s: Store): (r: Cleaned)
    ensures r.store.tables.geo == s.tables.geo
    ensures RemovedOwned(r.store.tables.acc, s.tables.acc, c.measurementIdentifier)
    ensures RemovedOwned(r.store.tables.rot, s.tables.rot, c.measurementIdentifier)
    ensures RemovedOwned(r.store.tables.dir, s.tables.dir, c.measurementIdentifier)
    ensures r.deleted == |Points(s, Acceleration, c.measurementIdentifier)|
                       + |Points(s, Rotation, c.measurementIdentifier)|
                       + |Points(s, Direction, c.measurementIdentifier)|
  {
    var id := c.measurementIdentifier;
    var t := s.tables;
    var acc := NotOwnedBy(t.acc, id);
    var rot := NotOwnedBy(t.rot, id);
    var dir := NotOwnedBy(t.dir, id);
    RemovalCount(t.acc, id);
    RemovalCount(t.rot, id);
    RemovalCount(t.dir, id);
    NotOwnedByMultiset(t.acc, id);
    NotOwnedByMultiset(t.rot, id);
    NotOwnedByMultiset(t.dir, id);
    Cleaned(Store(PerType(t.geo, acc, rot, dir)), (|t.acc| - |acc|) + (|t.rot| - |rot|) + (|t.dir| - |dir|))
  }

  /** The position of a 3D-point table among cleanMeasurement's three deletes. */
  function CleanRank(kind: Point3DKind): nat {
    match kind
    case Accelerations => 0
    case Rotations => 1
    case Directions => 2
  }

  /**
   * cleanMeasurement when the delete of table `failing` raises: the deletes before it have
   * removed the measurement's rows of their tables; that table, the ones after it and the GPS
   * table are untouched.
   */
  function CleanFailingAt(c: Client, s: Store, failing: Point3DKind): (r: Store)
    ensures r.tables.geo == s.tables.geo
    ensures forall k: Point3DKind :: CleanRank(k) < CleanRank(failing) ==>
      RemovedOwned(r.tables.Of(TableOf(k)), s.tables.Of(TableOf(k)), c.measurementIdentifier)
    ensures forall k: Point3DKind :: CleanRank(k) >= CleanRank(failing) ==>
      r.tables.Of(TableOf(k)) == s.tables.Of(TableOf(k))
  {
    var id := c.measurementIdentifier;
    var t := s.tables;
    NotOwnedByMultiset(t.acc, id);
    NotOwnedByMultiset(t.rot, id);
    var acc := if CleanRank(failing) > 0 then NotOwnedBy(t.acc, id) else t.acc;
    var rot := if CleanRank(failing) > 1 then NotOwnedBy(t.rot, id) else t.rot;
    Store(PerType(t.geo, acc, rot, t.dir))
  }

  /** Cleaning again after a clean that failed part-way ends where one clean that went through ends. */
  lemma RetryCompletesFailedClean(c: Client, s: Store, failing: Point3DKind)
    ensures CleanMeasurement(c, CleanFailingAt(c, s, failing)).store == CleanMeasurement(c, s).store
  {
    var id := c.measurementIdentifier;
    NothingOwnedAfterRemoval(s.tables.acc, id);
    NothingOwnedAfterRemoval(s.tables.rot, id);
    RemovesNothingWhenNoneOwned(NotOwnedBy(s.tables.acc, id), id);
    RemovesNothingWhenNoneOwned(NotOwnedBy(s.tables.rot, id), id);
  }

  /** `after` holds every row of `before` the same number of times, except the rows of `id`, which are gone. */
  ghost predicate RemovedOwned(after: seq<Row>, before: seq<Row>, id: int) {
    forall x :: multiset(after)[x] == if x.measurementFk == id then 0 else multiset(before)[x]
  }

  /** A delete by foreign key removes exactly the rows the measurement owns. */
  lemma {:induction false} RemovalCount(table: seq<Row>, id: int)
    ensures |table| - |NotOwnedBy(table, id)| == |OwnedBy(table, id)|
  {
    if |table| > 0 {
      RemovalCount(table[1..], id);
    }
  }

  /** After a clean the three 3D tables hold nothing of the measurement, while its GPS points remain. */
  lemma CleanEmptiesOnly3DPoints(c: Client, s: Store)
    ensures var s' := CleanMeasurement(c, s).store;
      && LoadGeoLocations(c, s') == LoadGeoLocations(c, s)
      && forall kind: Point3DKind :: Load3DPoint(c, s', kind) == []
  {
    var id := c.measurementIdentifier;
    NothingOwnedAfterRemoval(s.tables.acc, id);
    NothingOwnedAfterRemoval(s.tables.rot, id);
    NothingOwnedAfterRemoval(s.tables.dir, id);
  }

  /** The same per family: the measurement keeps its GPS points and has none of the other three. */
  lemma CleanLeavesOnlyGeoPoints(c: Client, s: Store)
    ensures var s' := CleanMeasurement(c, s).store; var id := c.measurementIdentifier;
      && Points(s', Geo, id) == Points(s, Geo, id)
      && Points(s', Acceleration, id) == [] && Points(s', Rotation, id) == [] && Points(s', Direction, id) == []
  {
    var id := c.measurementIdentifier;
    NothingOwnedAfterRemoval(s.tables.acc, id);
    NothingOwnedAfterRemoval(s.tables.rot, id);
    NothingOwnedAfterRemoval(s.tables.dir, id);
  }

  /** A clean of one measurement leaves every other measurement's points of every family as they were. */
  lemma CleanLeavesOtherMeasurements(c: Client, s: Store, other: int)
    requires other != c.measurementIdentifier
    ensures PointsOf(CleanMeasurement(c, s).store, other) == PointsOf(s, other)
  {
    var id := c.measurementIdentifier;
    var s' := CleanMeasurement(c, s).store;
    assert s'.tables == PerType(s.tables.geo, NotOwnedBy(s.tables.acc, id), NotOwnedBy(s.tables.rot, id),
                                NotOwnedBy(s.tables.dir, id));
    OwnedByIgnoresOtherRemoval(s.tables.acc, id, other);
    OwnedByIgnoresOtherRemoval(s.tables.rot, id, other);
    OwnedByIgnoresOtherRemoval(s.tables.dir, id, other);
  }

  /** Cleaning twice is cleaning once: the second clean deletes nothing and changes nothing. */
  lemma CleanIsIdempotent(c: Client, s: Store)
    ensures var once := CleanMeasurement(c, s);
      var twice := CleanMeasurement(c, once.store);
      twice.store == once.store && twice.deleted == 0
  {
    var id := c.measurementIdentifier;
    NothingOwnedAfterRemoval(s.tables.acc, id);
    NothingOwnedAfterRemoval(s.tables.rot, id);
    NothingOwnedAfterRemoval(s.tables.dir, id);
    RemovesNothingWhenNoneOwned(NotOwnedBy(s.tables.acc, id), id);
    RemovesNothingWhenNoneOwned(NotOwnedBy(s.tables.rot, id), id);
    RemovesNothingWhenNoneOwned(NotOwnedBy(s.tables.dir, id), id);
  }

  /** Deleting by a foreign key that owns no rows leaves the table unchanged. */
  lemma {:induction false} RemovesNothingWhenNoneOwned(table: seq<Row>, id: int)
    requires OwnedBy(table, id) == []
    ensures NotOwnedBy(table, id) == table
  {
    if |table| > 0 {
      assert table == [table[0]] + table[1..];
      RemovesNothingWhenNoneOwned(table[1..], id);
    }
  }
}
