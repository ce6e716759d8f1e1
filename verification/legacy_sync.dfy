/**
 * The legacy sync adapter (CyfaceSyncAdapter): the run bracket of onPerformSync, the per-measurement
 * slice loop of syncMeasurement followed by deleteMeasurement, and countUnsyncedDataPoints.
 *
 * The store, the transport and every failure the store can raise are inputs. Slice reads see the
 * measurement's points as they stood when they were counted; deletions are applied to the store
 * when the measurement's loop ends. A post changes the loop's course only when a progress listener
 * rejects the slice, so the loop records its posts as attempts and the listener trace is replayed
 * from them afterwards.
 */
module LegacySync {
  import opened Outcomes
  import opened PointStore
  import opened SliceAssembly
  import opened LegacyPost
  import ProviderClient

  /** One row of the syncable-measurements cursor: the measurement id and its vehicle tag. */
  datatype MeasurementRow = MeasurementRow(id: int, vehicle: string)

  /** A failure of deletePointsOfType at family `at`; the families before it were already deleted. */
  datatype DeleteFault = DeleteFault(at: PointType, abort: Abort)

  /**
   * Everything outside the adapter: whether the post request for slice k of measurement id cannot
   * be generated (a RequestParsingException postMeasurementSlice lets through), the transport's
   * outcome for that slice otherwise, and the store failures met on the way (loading the syncable
   * measurements, counting a measurement's points up front, recounting them in syncMeasurement,
   * reading a slice, deleting a slice, and the 3D table whose delete fails when cleaning a
   * measurement).
   */
  datatype Environment = Environment(
    requestFails: (int, nat) -> bool,
    transport: (int, nat) -> PostOutcome,
    loadFails: bool,
    countFails: int -> bool,
    recountFails: int -> bool,
    readFault: (int, nat) -> Option<Abort>,
    deleteFault: (int, nat) -> Option<DeleteFault>,
    cleanFault: int -> Option<ProviderClient.Point3DKind>)

  /** What the listeners, the error intents and the SyncResult have seen so far. */
  datatype Trace = Trace(stats: Stats, events: seq<ListenerEvent>, intents: seq<ErrorCode>)

  /** The slice assembly job of one measurement: its header, its points per family, the batch sizes. */
  datatype Job = Job(header: Header, pts: PerType<seq<Row>>, batches: PerType<int>)

  /** One post of the loop: the slice and what the transport answered. */
  datatype Attempt = Attempt(slice: Slice, outcome: PostOutcome)

  /** The result of the slice loop: the posts in order, what was deleted, and the exception that stopped it, if any. */
  datatype SliceRun = SliceRun(attempts: seq<Attempt>, deleted: PerType<seq<Row>>, abort: Option<Abort>)

  /** prepareMeasurementSliceTemplate: id, device id and vehicle, set once per measurement. */
  function Template(row: MeasurementRow, deviceId: string): Header {
    Header(row.id, deviceId, row.vehicle)
  }

  function IntentOf(intent: Option<ErrorCode>): seq<ErrorCode> {
    match intent
    case None => []
    case Some(code) => [code]
  }

  /** The listener notification a post yields, stated independently of the statistics. */
  function EventFor(a: Attempt): ListenerEvent {
    match a.outcome
    case Delivered => Progress(a.slice)
    case ProgressRejected => Progress(a.slice)
    case Failed(f) => TransmitError(PostFailure(f))
  }

  function Rank(t: PointType): nat {
    match t
    case Geo => 0
    case Acceleration => 1
    case Rotation => 2
    case Direction => 3
  }

  /** The deletions of one slice: the families ranked below `upTo` have the slice's points appended. */
  function RecordDeletes(deleted: PerType<seq<Row>>, s: Slice, upTo: nat): (r: PerType<seq<Row>>)
    ensures forall t: PointType :: r.Of(t) == if Rank(t) < upTo then deleted.Of(t) + s.points.Of(t) else deleted.Of(t)
  {
    PerType(if 0 < upTo then deleted.geo + s.points.geo else deleted.geo,
            if 1 < upTo then deleted.acc + s.points.acc else deleted.acc,
            if 2 < upTo then deleted.rot + s.points.rot else deleted.rot,
            if 3 < upTo then deleted.dir + s.points.dir else deleted.dir)
  }

  const NoRows: PerType<seq<Row>> := PerType([], [], [], [])

  /**
   * The for-loop of syncMeasurement from iteration k on: while some cursor is below its count,
   * fill the slice, post it, then delete its points of all four families whatever the post's
   * outcome. Two RequestParsingExceptions leave the loop before the deletes: a post request that
   * cannot be generated (nothing is posted or notified) and a progress listener rejecting a
   * delivered slice.
   */
  function SliceLoop(env: Environment, job: Job, k: nat, cursors: PerType<int>,
                     attempts: seq<Attempt>, deleted: PerType<seq<Row>>): (r: SliceRun)
    requires ValidBatches(job.batches) && cursors == CursorsAt(k, job.batches)
    ensures |attempts| <= |r.attempts| && r.attempts[..|attempts|] == attempts
    ensures var n := SliceCount(Counts(job.pts), job.batches);
      |r.attempts| - |attempts| <= if k < n then n - k else 0
    decreases SliceCount(Counts(job.pts), job.batches) - k
  {
    if !AnyBelow(cursors, Counts(job.pts)) then SliceRun(attempts, deleted, None)
    else
      GuardIffBeforeSliceCount(k, Counts(job.pts), job.batches);
      match env.readFault(job.header.id, k)
      case Some(a) => SliceRun(attempts, deleted, Some(a))
      case None =>
        if env.requestFails(job.header.id, k) then SliceRun(attempts, deleted, Some(RequestParsingAbort))
        else
          var slice := FillSlice(job.header, job.pts, cursors, job.batches);
          var outcome := env.transport(job.header.id, k);
          var attempts' := attempts + [Attempt(slice, outcome)];
          if outcome.ProgressRejected? then SliceRun(attempts', deleted, Some(RequestParsingAbort))
          else match env.deleteFault(job.header.id, k)
          case Some(f) => SliceRun(attempts', RecordDeletes(deleted, slice, Rank(f.at)), Some(f.abort))
          case None =>
            AdvanceIsNextIteration(k, job.batches);
            SliceLoop(env, job, k + 1, Advance(cursors, job.batches), attempts', RecordDeletes(deleted, slice, 4))
  }

  /** The trace after posting one slice: its notification, its error intent and its statistics. */
  function AfterPost(tr: Trace, a: Attempt): Trace {
    var p := PostSlice(tr.stats, a.slice, a.outcome);
    Trace(p.stats, tr.events + [p.event], tr.intents + IntentOf(p.intent))
  }

  /** One post adds its notification, and one intent and one counted error exactly when it failed. */
  lemma AfterPostStep(tr: Trace, a: Attempt)
    ensures var r := AfterPost(tr, a);
      && r.events == tr.events + [EventFor(a)]
      && |r.intents| == |tr.intents| + (if a.outcome.Failed? then 1 else 0)
      && Counted(r.stats) == Counted(tr.stats) + (if a.outcome.Failed? then 1 else 0)
      && r.stats.databaseError == tr.stats.databaseError
  {
  }

  /** The trace after posting the given slices in order. */
  function Replay(tr: Trace, attempts: seq<Attempt>): Trace {
    if |attempts| == 0 then tr else AfterPost(Replay(tr, attempts[..|attempts| - 1]), attempts[|attempts| - 1])
  }

  /** The number of failed posts among `attempts`. */
  function Failures(attempts: seq<Attempt>): nat {
    if |attempts| == 0 then 0
    else Failures(attempts[..|attempts| - 1]) + (if attempts[|attempts| - 1].outcome.Failed? then 1 else 0)
  }

  /** Removes the recorded deletions from the store. */
  function ApplyDeletes(s: Store, deleted: PerType<seq<Row>>): Store {
    Store(PerType(Without(s.tables.geo, deleted.geo), Without(s.tables.acc, deleted.acc),
                  Without(s.tables.rot, deleted.rot), Without(s.tables.dir, deleted.dir)))
  }

  /** The result of handling one measurement. */
  datatype MeasurementRun = MeasurementRun(trace: Trace, store: Store, abort: Option<Abort>)

  /** The slice job of one measurement row over the current store. */
  function JobOf(row: MeasurementRow, deviceId: string, b: PerType<int>, store: Store): Job {
    Job(Template(row, deviceId), PointsOf(store, row.id), b)
  }

  /** The slice loop of one measurement, from its first iteration. */
  function LoopOf(env: Environment, row: MeasurementRow, deviceId: string, b: PerType<int>, store: Store): SliceRun
    requires ValidBatches(b)
  {
    SliceLoop(env, JobOf(row, deviceId, b, store), 0, CursorsAt(0, b), [], NoRows)
  }

  /** The recount of syncMeasurement and the clean of deleteMeasurement went through for `row`. */
  predicate StoreCallsWentThrough(env: Environment, row: MeasurementRow) {
    !env.recountFails(row.id) && env.cleanFault(row.id).None?
  }

  /**
   * One pass of the run's while-loop: syncMeasurement (count, then the slice loop), then
   * deleteMeasurement. A store failure is only reported by the run's catch clause, so the pass
   * itself never sets the database error flag; it ends normally only when the recount and the
   * clean went through.
   */
  function ProcessMeasurement(env: Environment, row: MeasurementRow, deviceId: string, b: PerType<int>,
                              store: Store, tr: Trace): (m: MeasurementRun)
    requires ValidBatches(b)
    ensures m.trace.stats.databaseError == tr.stats.databaseError
    ensures m.abort.None? ==> StoreCallsWentThrough(env, row)
  {
    if env.recountFails(row.id) then MeasurementRun(tr, store, Some(DatabaseAbort))
    else
      var r := LoopOf(env, row, deviceId, b, store);
      ReplayNotifies(tr, r.attempts);
      var tr' := Replay(tr, r.attempts);
      var s' := ApplyDeletes(store, r.deleted);
      if r.abort.Some? then MeasurementRun(tr', s', r.abort)
      else match env.cleanFault(row.id)
        case Some(k) => MeasurementRun(tr', ProviderClient.CleanFailingAt(ProviderClient.Client(row.id), s', k), Some(DatabaseAbort))
        case None => MeasurementRun(tr', ProviderClient.CleanMeasurement(ProviderClient.Client(row.id), s').store, None)
  }

  /**
   * The while-loop over the syncable measurements; the first exception ends it. It never sets the
   * database error flag itself.
   */
  function MeasurementLoop(env: Environment, rows: seq<MeasurementRow>, deviceId: string, b: PerType<int>,
                           store: Store, tr: Trace): (m: MeasurementRun)
    requires ValidBatches(b)
    ensures m.trace.stats.databaseError == tr.stats.databaseError
    decreases |rows|
  {
    if |rows| == 0 then MeasurementRun(tr, store, None)
    else
      var m := ProcessMeasurement(env, rows[0], deviceId, b, store, tr);
      if m.abort.Some? then m
      else MeasurementLoop(env, rows[1..], deviceId, b, m.store, m.trace)
  }

  /** The loop ends normally only when every measurement's recount and clean went through. */
  lemma {:induction false} NormalEndMeansStoreCallsWentThrough(env: Environment, rows: seq<MeasurementRow>,
                                                               deviceId: string, b: PerType<int>, store: Store, tr: Trace)
    requires ValidBatches(b)
    ensures MeasurementLoop(env, rows, deviceId, b, store, tr).abort.None? ==>
      forall i :: 0 <= i < |rows| ==> StoreCallsWentThrough(env, rows[i])
    decreases |rows|
  {
    if |rows| > 0 {
      var m := ProcessMeasurement(env, rows[0], deviceId, b, store, tr);
      if m.abort.None? {
        MeasurementLoopStep(env, rows, deviceId, b, store, tr);
        var rest := rows[1..];
        NormalEndMeansStoreCallsWentThrough(env, rest, deviceId, b, m.store, m.trace);
        if MeasurementLoop(env, rest, deviceId, b, m.store, m.trace).abort.None? {
          assert StoreCallsWentThrough(env, rows[0]);
          forall i | 1 <= i < |rows|
            ensures StoreCallsWentThrough(env, rows[i])
          {
            assert rows[i] == rest[i - 1];
          }
        }
      } else {
        assert MeasurementLoop(env, rows, deviceId, b, store, tr) == m;
      }
    }
  }

  /** A measurement handled without an exception hands the loop on to the next one. */
  lemma MeasurementLoopStep(env: Environment, rows: seq<MeasurementRow>, deviceId: string, b: PerType<int>,
                            store: Store, tr: Trace)
    requires ValidBatches(b) && |rows| > 0
    requires ProcessMeasurement(env, rows[0], deviceId, b, store, tr).abort.None?
    ensures var m := ProcessMeasurement(env, rows[0], deviceId, b, store, tr);
      MeasurementLoop(env, rows, deviceId, b, store, tr) == MeasurementLoop(env, rows[1..], deviceId, b, m.store, m.trace)
  {
  }

  /** The number of points of all four families that one measurement holds. */
  function RowPoints(s: Store, row: MeasurementRow): nat {
    var c := CountsOf(s, row.id);
    c.geo + c.acc + c.rot + c.dir
  }

  /** The sum of the four per-family counts over all given measurements. */
  function TotalPoints(s: Store, rows: seq<MeasurementRow>): nat {
    if |rows| == 0 then 0 else TotalPoints(s, rows[..|rows| - 1]) + RowPoints(s, rows[|rows| - 1])
  }

  /** Counting one more row adds that row's points. */
  lemma TotalPointsStep(s: Store, rows: seq<MeasurementRow>, k: nat)
    requires k < |rows|
    ensures TotalPoints(s, rows[..k + 1]) == TotalPoints(s, rows[..k]) + RowPoints(s, rows[k])
  {
    assert rows[..k + 1][..k] == rows[..k];
  }

  /** Some countData call of countUnsyncedDataPoints raises. */
  predicate CountingFails(env: Environment, rows: seq<MeasurementRow>) {
    exists i :: 0 <= i < |rows| && env.countFails(rows[i].id)
  }

  /** The observable result of onPerformSync. `escaped` is true when an exception leaves the method. */
  datatype LegacyRun = LegacyRun(events: seq<ListenerEvent>, intents: seq<ErrorCode>, stats: Stats, store: Store, escaped: bool)

  /** The run's end: the caught exception, if any, then the finished notification of the finally block. */
  function Finish(m: MeasurementRun): LegacyRun {
    match m.abort
    case None => LegacyRun(m.trace.events + [SyncFinished], m.trace.intents, m.trace.stats, m.store, false)
    case Some(a) =>
      var c := CatchAbort(m.trace.stats, a);
      LegacyRun(m.trace.events + [c.event, SyncFinished], m.trace.intents + [c.intent], c.stats, m.store, false)
  }

  /**
   * onPerformSync. A missing device id or endpoint url throws before the try block: no listener
   * is notified at all. Otherwise the run loads the syncable measurements, counts their points,
   * notifies the start, handles the measurements in cursor order and notifies the finish in the
   * finally block.
   */
  function PerformSync(env: Environment, deviceId: Option<string>, url: Option<string>,
                       rows: seq<MeasurementRow>, b: PerType<int>, store: Store, stats: Stats): (r: LegacyRun)
    requires ValidBatches(b)
    ensures r.escaped <==> deviceId.None? || url.None?
    ensures r.escaped ==> r.events == [] && r.intents == [] && r.stats == stats && r.store == store
    ensures !r.escaped ==> |r.events| > 0 && r.events[|r.events| - 1] == SyncFinished
  {
    if deviceId.None? || url.None? then LegacyRun([], [], stats, store, true)
    else if env.loadFails || CountingFails(env, rows) then
      Finish(MeasurementRun(Trace(stats, [], []), store, Some(DatabaseAbort)))
    else
      var tr := Trace(stats, [SyncStarted(TotalPoints(store, rows))], []);
      Finish(MeasurementLoop(env, rows, deviceId.value, b, store, tr))
  }

  // ---------------------------------------------------------------------------------------------
  // countUnsyncedDataPoints over a platform cursor

  /**
   * A platform cursor over the syncable measurements. Its position ranges from -1 (before the
   * first row) to |rows| (after the last row).
   */
  datatype Cursor = Cursor(rows: seq<MeasurementRow>, pos: int) {
    predicate Valid() {
      -1 <= pos <= |rows|
    }
  }

  /** A cursor after a move, and whether the move landed on a row. */
  datatype Moved = Moved(cursor: Cursor, onRow: bool)

  /** moveToPosition: a target past the end parks the cursor after the last row, one before the start parks it before the first. */
  function MoveToPosition(c: Cursor, p: int): (m: Moved)
    ensures m.cursor.rows == c.rows && m.cursor.Valid()
    ensures m.onRow <==> 0 <= p < |c.rows|
    ensures m.onRow ==> m.cursor.pos == p
  {
    if p >= |c.rows| then Moved(c.(pos := |c.rows|), false)
    else if p < 0 then Moved(c.(pos := -1), false)
    else Moved(c.(pos := p), true)
  }

  function MoveToFirst(c: Cursor): Moved {
    MoveToPosition(c, 0)
  }

  function MoveToNext(c: Cursor): Moved {
    MoveToPosition(c, c.pos + 1)
  }

  function Move(c: Cursor, offset: int): Moved {
    MoveToPosition(c, c.pos + offset)
  }

  /**
   * countUnsyncedDataPoints: sums the four point counts of every syncable measurement, visiting
   * the rows with a do-while loop, and moves the cursor back to where it was. A failing count
   * raises, which the run catches as a database error.
   */
  method CountUnsyncedDataPoints(env: Environment, store: Store, c: Cursor) returns (r: Result<nat, Abort>, c': Cursor)
    requires c.Valid()
    ensures c'.rows == c.rows && c'.Valid()
    ensures r.Failure? <==> CountingFails(env, c.rows)
    ensures r.Failure? ==> r.error == DatabaseAbort
    ensures r.Success? ==> r.value == TotalPoints(store, c.rows)
    ensures r.Success? && |c.rows| > 0 ==> c'.pos == c.pos
    ensures |c.rows| == 0 ==> !MoveToNext(c').onRow
  {
    var rows := c.rows;
    var initial := c.pos;
    var first := MoveToFirst(c);
    c' := first.cursor;
    if !first.onRow {
      return Success(0), c';
    }
    var total: nat := 0;
    var more := true;
    while more
      invariant c'.rows == rows && c'.Valid()
      invariant 0 <= c'.pos <= |rows| && (more <==> c'.pos < |rows|)
      invariant total == TotalPoints(store, rows[..c'.pos])
      invariant forall i :: 0 <= i < c'.pos ==> !env.countFails(rows[i].id)
      decreases |rows| - c'.pos, more
    {
      if env.countFails(rows[c'.pos].id) {
        return Failure(DatabaseAbort), c';
      }
      TotalPointsStep(store, rows, c'.pos);
      assert forall i :: 0 <= i < c'.pos + 1 ==> !env.countFails(rows[i].id);
      total := total + RowPoints(store, rows[c'.pos]);
      var next := MoveToNext(c');
      assert next.cursor.pos == c'.pos + 1;
      c' := next.cursor;
      more := next.onRow;
    }
    assert rows[..|rows|] == rows;
    var back := Move(c', -(c'.pos - initial));
    c' := back.cursor;
    r := Success(total);
  }

  // ---------------------------------------------------------------------------------------------
  // The slice loop without store failures

  /** No store failure and no escaping RequestParsingException for any slice of measurement `id`. */
  ghost predicate NoSliceFaults(env: Environment, id: int) {
    forall j: nat :: && env.readFault(id, j).None? && env.deleteFault(id, j).None?
                     && !env.requestFails(id, j) && !env.transport(id, j).ProgressRejected?
  }

  /** The slice of iteration k. */
  function SliceAt(job: Job, k: nat): Slice
    requires ValidBatches(job.batches)
  {
    FillSlice(job.header, job.pts, CursorsAt(k, job.batches), job.batches)
  }

  /** The post of iteration k: its slice and the transport's answer. */
  function AttemptAt(env: Environment, job: Job, k: nat): Attempt
    requires ValidBatches(job.batches)
  {
    Attempt(SliceAt(job, k), env.transport(job.header.id, k))
  }

  /** The slices are the iterations' slices, in order. */
  lemma {:induction false} SlicesAreIterations(job: Job, n: nat)
    requires ValidBatches(job.batches)
    ensures forall j :: 0 <= j < n ==> Slices(job.header, job.pts, job.batches, n)[j] == SliceAt(job, j)
  {
    if n > 0 {
      SlicesAreIterations(job, n - 1);
      assert Slices(job.header, job.pts, job.batches, n)[..n - 1] == Slices(job.header, job.pts, job.batches, n - 1);
    }
  }

  /**
   * An iteration whose guard holds, whose store calls do not fail and whose post no listener
   * rejects posts its slice, deletes its points and continues with the next.
   */
  lemma SliceLoopStep(env: Environment, job: Job, k: nat, attempts: seq<Attempt>, deleted: PerType<seq<Row>>)
    requires ValidBatches(job.batches) && k < SliceCount(Counts(job.pts), job.batches)
    requires env.readFault(job.header.id, k).None? && env.deleteFault(job.header.id, k).None?
    requires !env.requestFails(job.header.id, k) && !env.transport(job.header.id, k).ProgressRejected?
    ensures SliceLoop(env, job, k, CursorsAt(k, job.batches), attempts, deleted)
      == SliceLoop(env, job, k + 1, CursorsAt(k + 1, job.batches), attempts + [AttemptAt(env, job, k)],
                   RecordDeletes(deleted, SliceAt(job, k), 4))
  {
    GuardIffBeforeSliceCount(k, Counts(job.pts), job.batches);
    AdvanceIsNextIteration(k, job.batches);
  }

  /** The points of all four families carried by `slices`, in order. */
  function FlattenAll(slices: seq<Slice>): PerType<seq<Row>> {
    PerType(Flatten(slices, Geo), Flatten(slices, Acceleration), Flatten(slices, Rotation), Flatten(slices, Direction))
  }

  /** The posts of iterations 0 .. k-1. */
  function AttemptsUpTo(env: Environment, job: Job, k: nat): (r: seq<Attempt>)
    requires ValidBatches(job.batches)
    ensures |r| == k
  {
    if k == 0 then [] else AttemptsUpTo(env, job, k - 1) + [AttemptAt(env, job, k - 1)]
  }

  /** The posts up to k are the posts of each iteration before k. */
  lemma {:induction false} AttemptsUpToAreIterations(env: Environment, job: Job, k: nat)
    requires ValidBatches(job.batches)
    ensures forall j :: 0 <= j < k ==> AttemptsUpTo(env, job, k)[j] == AttemptAt(env, job, j)
  {
    if k > 0 {
      AttemptsUpToAreIterations(env, job, k - 1);
      var before := AttemptsUpTo(env, job, k - 1);
      assert AttemptsUpTo(env, job, k) == before + [AttemptAt(env, job, k - 1)];
      forall j | 0 <= j < k - 1
        ensures AttemptsUpTo(env, job, k)[j] == AttemptAt(env, job, j)
      {
        assert AttemptsUpTo(env, job, k)[j] == before[j];
      }
    }
  }

  /** Recording a slice's deletions extends the deletions of the slices before it. */
  lemma DeletesStep(job: Job, k: nat)
    requires ValidBatches(job.batches)
    ensures RecordDeletes(FlattenAll(Slices(job.header, job.pts, job.batches, k)), SliceAt(job, k), 4)
      == FlattenAll(Slices(job.header, job.pts, job.batches, k + 1))
  {
  }

  /**
   * Without store failures the loop posts exactly the slices of iterations 0 .. SliceCount-1, in
   * order, each with the transport's answer, and deletes exactly their points whatever the
   * transport answered.
   */
  lemma {:induction false} SliceLoopPostsAndDeletes(env: Environment, job: Job, k: nat, n: nat)
    requires ValidBatches(job.batches) && NoSliceFaults(env, job.header.id)
    requires n == SliceCount(Counts(job.pts), job.batches) && k <= n
    ensures SliceLoop(env, job, k, CursorsAt(k, job.batches), AttemptsUpTo(env, job, k),
                      FlattenAll(Slices(job.header, job.pts, job.batches, k)))
      == SliceRun(AttemptsUpTo(env, job, n), FlattenAll(Slices(job.header, job.pts, job.batches, n)), None)
    decreases n - k
  {
    if k < n {
      FaultFreeIteration(env, job, k);
      SliceLoopPostsAndDeletes(env, job, k + 1, n);
    } else {
      SliceLoopEnds(env, job, k, AttemptsUpTo(env, job, k), FlattenAll(Slices(job.header, job.pts, job.batches, k)));
    }
  }

  /** Once every slice is taken the loop ends with what it has posted and deleted. */
  lemma SliceLoopEnds(env: Environment, job: Job, k: nat, attempts: seq<Attempt>, deleted: PerType<seq<Row>>)
    requires ValidBatches(job.batches) && k == SliceCount(Counts(job.pts), job.batches)
    ensures SliceLoop(env, job, k, CursorsAt(k, job.batches), attempts, deleted) == SliceRun(attempts, deleted, None)
  {
    GuardIffBeforeSliceCount(k, Counts(job.pts), job.batches);
  }

  /** One fault-free iteration moves the loop from the state after k slices to the state after k + 1. */
  lemma FaultFreeIteration(env: Environment, job: Job, k: nat)
    requires ValidBatches(job.batches) && NoSliceFaults(env, job.header.id)
    requires k < SliceCount(Counts(job.pts), job.batches)
    ensures SliceLoop(env, job, k, CursorsAt(k, job.batches), AttemptsUpTo(env, job, k),
                      FlattenAll(Slices(job.header, job.pts, job.batches, k)))
      == SliceLoop(env, job, k + 1, CursorsAt(k + 1, job.batches), AttemptsUpTo(env, job, k + 1),
                   FlattenAll(Slices(job.header, job.pts, job.batches, k + 1)))
  {
    assert env.readFault(job.header.id, k).None? && env.deleteFault(job.header.id, k).None?;
    assert !env.requestFails(job.header.id, k) && !env.transport(job.header.id, k).ProgressRejected?;
    SliceLoopStep(env, job, k, AttemptsUpTo(env, job, k), FlattenAll(Slices(job.header, job.pts, job.batches, k)));
    DeletesStep(job, k);
  }

  /**
   * An iteration whose post a progress listener rejects ends the loop: the slice counts as posted,
   * none of its points is deleted, and the loop stops with the request-parsing exception.
   */
  lemma RejectedProgressStopsLoop(env: Environment, job: Job, k: nat, attempts: seq<Attempt>, deleted: PerType<seq<Row>>)
    requires ValidBatches(job.batches) && k < SliceCount(Counts(job.pts), job.batches)
    requires env.readFault(job.header.id, k).None? && !env.requestFails(job.header.id, k)
    requires env.transport(job.header.id, k).ProgressRejected?
    ensures SliceLoop(env, job, k, CursorsAt(k, job.batches), attempts, deleted)
      == SliceRun(attempts + [AttemptAt(env, job, k)], deleted, Some(RequestParsingAbort))
  {
    GuardIffBeforeSliceCount(k, Counts(job.pts), job.batches);
  }

  /**
   * An iteration whose post request cannot be generated ends the loop: nothing is posted or
   * notified for it, none of its points is deleted, and the loop stops with the request-parsing
   * exception.
   */
  lemma UngeneratedRequestStopsLoop(env: Environment, job: Job, k: nat, attempts: seq<Attempt>, deleted: PerType<seq<Row>>)
    requires ValidBatches(job.batches) && k < SliceCount(Counts(job.pts), job.batches)
    requires env.readFault(job.header.id, k).None? && env.requestFails(job.header.id, k)
    ensures SliceLoop(env, job, k, CursorsAt(k, job.batches), attempts, deleted)
      == SliceRun(attempts, deleted, Some(RequestParsingAbort))
  {
    GuardIffBeforeSliceCount(k, Counts(job.pts), job.batches);
  }

  /**
   * When a listener rejects the progress of a measurement's first slice, the measurement ends the
   * run's loop with the request-parsing exception and its points all stay in the store: the slice
   * was posted, but neither its deletes nor deleteMeasurement run.
   */
  lemma FirstRejectedProgressKeepsStore(env: Environment, row: MeasurementRow, deviceId: string, b: PerType<int>,
                                        store: Store, tr: Trace)
    requires ValidBatches(b) && !env.recountFails(row.id) && CountsOf(store, row.id) != PerType(0, 0, 0, 0)
    requires env.readFault(row.id, 0).None? && !env.requestFails(row.id, 0)
    requires env.transport(row.id, 0).ProgressRejected?
    ensures var m := ProcessMeasurement(env, row, deviceId, b, store, tr);
      m.abort == Some(RequestParsingAbort) && m.store == store
      && m.trace == AfterPost(tr, AttemptAt(env, JobOf(row, deviceId, b, store), 0))
  {
    var job := JobOf(row, deviceId, b, store);
    assert Counts(job.pts) == CountsOf(store, row.id);
    RejectedProgressStopsLoop(env, job, 0, [], NoRows);
    assert [] + [AttemptAt(env, job, 0)] == [AttemptAt(env, job, 0)];
    assert [AttemptAt(env, job, 0)][..0] == [];
    assert LoopOf(env, row, deviceId, b, store).attempts == [AttemptAt(env, job, 0)];
    assert Replay(tr, [AttemptAt(env, job, 0)]) == AfterPost(Replay(tr, []), AttemptAt(env, job, 0));
    WithoutNothing(store.tables.geo);
    WithoutNothing(store.tables.acc);
    WithoutNothing(store.tables.rot);
    WithoutNothing(store.tables.dir);
  }

  /** A measurement without points posts nothing and deletes nothing: the loop body never runs. */
  lemma EmptyMeasurementPostsNothing(env: Environment, job: Job)
    requires ValidBatches(job.batches) && Counts(job.pts) == PerType(0, 0, 0, 0)
    ensures SliceLoop(env, job, 0, CursorsAt(0, job.batches), [], NoRows) == SliceRun([], NoRows, None)
  {
  }

  /** The slices posted for one measurement all carry its header, and each family array is bounded by its batch size. */
  lemma {:induction false} SlicesCarryTemplate(header: Header, pts: PerType<seq<Row>>, b: PerType<int>, n: nat)
    requires ValidBatches(b)
    ensures forall j :: 0 <= j < n ==> Slices(header, pts, b, n)[j].header == header
    ensures forall j, t: PointType :: 0 <= j < n ==> |Slices(header, pts, b, n)[j].points.Of(t)| <= b.Of(t)
  {
    if n > 0 {
      SlicesCarryTemplate(header, pts, b, n - 1);
      assert Slices(header, pts, b, n)[..n - 1] == Slices(header, pts, b, n - 1);
    }
  }

  // ---------------------------------------------------------------------------------------------
  // Replaying the posts

  /**
   * Replaying posts appends exactly one notification per post, the one its outcome determines;
   * each failed post adds exactly one to the counters and one error intent, and the database
   * error flag is left alone.
   */
  lemma {:induction false} ReplayNotifies(tr: Trace, attempts: seq<Attempt>)
    ensures var r := Replay(tr, attempts);
      && |r.events| == |tr.events| + |attempts|
      && r.events[..|tr.events|] == tr.events
      && (forall j :: 0 <= j < |attempts| ==> r.events[|tr.events| + j] == EventFor(attempts[j]))
      && |r.intents| == |tr.intents| + Failures(attempts)
      && Counted(r.stats) == Counted(tr.stats) + Failures(attempts)
      && r.stats.databaseError == tr.stats.databaseError
  {
    ReplayEvents(tr, attempts);
    EventsForAt(attempts);
    ReplayCounts(tr, attempts);
    var r := Replay(tr, attempts);
    assert r.events[..|tr.events|] == tr.events;
  }

  /** The notifications of the given posts, in order. */
  function EventsFor(attempts: seq<Attempt>): (r: seq<ListenerEvent>)
    ensures |r| == |attempts|
  {
    if |attempts| == 0 then [] else EventsFor(attempts[..|attempts| - 1]) + [EventFor(attempts[|attempts| - 1])]
  }

  /** Each post contributes its own notification at its own position. */
  lemma {:induction false} EventsForAt(attempts: seq<Attempt>)
    ensures forall j :: 0 <= j < |attempts| ==> EventsFor(attempts)[j] == EventFor(attempts[j])
  {
    if |attempts| > 0 {
      var init := attempts[..|attempts| - 1];
      EventsForAt(init);
      assert forall j :: 0 <= j < |init| ==> EventsFor(attempts)[j] == EventsFor(init)[j];
    }
  }

  /** Replaying posts appends exactly the notifications their outcomes determine. */
  lemma {:induction false} ReplayEvents(tr: Trace, attempts: seq<Attempt>)
    ensures Replay(tr, attempts).events == tr.events + EventsFor(attempts)
  {
    if |attempts| > 0 {
      var init := attempts[..|attempts| - 1];
      ReplayEvents(tr, init);
      AfterPostStep(Replay(tr, init), attempts[|attempts| - 1]);
    }
  }

  /** Each failed post adds one error intent and one counted error; the database error flag is left alone. */
  lemma {:induction false} ReplayCounts(tr: Trace, attempts: seq<Attempt>)
    ensures var r := Replay(tr, attempts);
      && |r.intents| == |tr.intents| + Failures(attempts)
      && Counted(r.stats) == Counted(tr.stats) + Failures(attempts)
      && r.stats.databaseError == tr.stats.databaseError
  {
    if |attempts| > 0 {
      var init := attempts[..|attempts| - 1];
      ReplayCounts(tr, init);
      AfterPostStep(Replay(tr, init), attempts[|attempts| - 1]);
    }
  }

  /** No finished notification among `events`. */
  predicate NoFinish(events: seq<ListenerEvent>) {
    forall i :: 0 <= i < |events| ==> events[i] != SyncFinished
  }

  /** Replaying posts keeps the events seen so far and adds no finished notification. */
  lemma {:induction false} ReplayNeverFinishes(tr: Trace, attempts: seq<Attempt>)
    ensures var r := Replay(tr, attempts);
      && |tr.events| <= |r.events| && r.events[..|tr.events|] == tr.events
      && (NoFinish(tr.events) ==> NoFinish(r.events))
  {
    ReplayNotifies(tr, attempts);
    var r := Replay(tr, attempts);
    if NoFinish(tr.events) {
      forall i | 0 <= i < |r.events|
        ensures r.events[i] != SyncFinished
      {
        if i < |tr.events| {
          assert r.events[i] == r.events[..|tr.events|][i];
        } else {
          assert r.events[|tr.events| + (i - |tr.events|)] == EventFor(attempts[i - |tr.events|]);
        }
      }
    }
  }

  // ---------------------------------------------------------------------------------------------
  // One measurement without store failures

  /** No store failure of any kind for measurement `id` inside the run's loop. */
  ghost predicate NoFaults(env: Environment, id: int) {
    NoSliceFaults(env, id) && !env.recountFails(id) && env.cleanFault(id).None?
  }

  /** Removing the rows `id` owns leaves `id` with none and every other measurement with its own. */
  lemma OwnedRowsRemoved(table: seq<Row>, id: int, other: int)
    ensures OwnedBy(Without(table, OwnedBy(table, id)), id) == []
    ensures other != id ==> OwnedBy(Without(table, OwnedBy(table, id)), other) == OwnedBy(table, other)
  {
    var gone := OwnedBy(table, id);
    OwnedRowsBelong(table, id);
    WithoutAllOwned(table, gone, id);
    if other != id {
      WithoutKeepsForeignRows(table, gone, id, other);
    }
  }

  /** Removing all of a measurement's points, as recorded, leaves it with none. */
  lemma DeletesEmptyMeasurement(store: Store, id: int)
    ensures Emptied(ApplyDeletes(store, PointsOf(store, id)), id)
  {
    var s' := ApplyDeletes(store, PointsOf(store, id));
    OwnedRowsRemoved(store.tables.geo, id, id);
    OwnedRowsRemoved(store.tables.acc, id, id);
    OwnedRowsRemoved(store.tables.rot, id, id);
    OwnedRowsRemoved(store.tables.dir, id, id);
    assert Points(s', Geo, id) == [];
    assert Points(s', Acceleration, id) == [];
    assert Points(s', Rotation, id) == [];
    assert Points(s', Direction, id) == [];
  }

  /** Removing one measurement's points, as recorded, leaves every other measurement's points. */
  lemma DeletesKeepOthers(store: Store, id: int, other: int)
    requires other != id
    ensures PointsOf(ApplyDeletes(store, PointsOf(store, id)), other) == PointsOf(store, other)
  {
    OwnedRowsRemoved(store.tables.geo, id, other);
    OwnedRowsRemoved(store.tables.acc, id, other);
    OwnedRowsRemoved(store.tables.rot, id, other);
    OwnedRowsRemoved(store.tables.dir, id, other);
  }

  /** Deleting the points of all SliceCount slices deletes every point of the measurement. */
  lemma AllSlicesDeleteAllPoints(job: Job)
    requires ValidBatches(job.batches)
    ensures FlattenAll(Slices(job.header, job.pts, job.batches, SliceCount(Counts(job.pts), job.batches))) == job.pts
  {
    SlicesCoverEveryPoint(job.header, job.pts, job.batches, Geo);
    SlicesCoverEveryPoint(job.header, job.pts, job.batches, Acceleration);
    SlicesCoverEveryPoint(job.header, job.pts, job.batches, Rotation);
    SlicesCoverEveryPoint(job.header, job.pts, job.batches, Direction);
  }

  /** Without store failures the loop of a measurement posts SliceCount slices and deletes every one of its points. */
  lemma FaultFreeLoopDeletesAll(env: Environment, row: MeasurementRow, deviceId: string, b: PerType<int>, store: Store)
    requires ValidBatches(b) && NoSliceFaults(env, row.id)
    ensures var r := LoopOf(env, row, deviceId, b, store);
      && r.abort.None?
      && r.deleted == PointsOf(store, row.id)
      && |r.attempts| == SliceCount(CountsOf(store, row.id), b)
      && forall j :: 0 <= j < |r.attempts| ==> r.attempts[j] == AttemptAt(env, JobOf(row, deviceId, b, store), j)
  {
    var job := JobOf(row, deviceId, b, store);
    assert Counts(job.pts) == CountsOf(store, row.id);
    assert FlattenAll(Slices(job.header, job.pts, b, 0)) == NoRows;
    SliceLoopPostsAndDeletes(env, job, 0, SliceCount(Counts(job.pts), b));
    AllSlicesDeleteAllPoints(job);
    AttemptsUpToAreIterations(env, job, SliceCount(Counts(job.pts), b));
  }

  /** The store after deleting all of a measurement's points slice by slice and then cleaning it. */
  function DeletedAndCleaned(store: Store, id: int): Store {
    ProviderClient.CleanMeasurement(ProviderClient.Client(id), ApplyDeletes(store, PointsOf(store, id))).store
  }

  /** Deleting a measurement's points and cleaning it leaves none of its points. */
  lemma DeletedAndCleanedEmpties(store: Store, id: int)
    ensures Emptied(DeletedAndCleaned(store, id), id)
  {
    var s' := ApplyDeletes(store, PointsOf(store, id));
    var s'' := DeletedAndCleaned(store, id);
    DeletesEmptyMeasurement(store, id);
    assert Points(s', Geo, id) == [];
    ProviderClient.CleanLeavesOnlyGeoPoints(ProviderClient.Client(id), s');
    forall t: PointType
      ensures Points(s'', t, id) == []
    {
    }
  }

  /** Deleting a measurement's points and cleaning it leaves every other measurement's points. */
  lemma DeletedAndCleanedKeepsOthers(store: Store, id: int, other: int)
    requires other != id
    ensures PointsOf(DeletedAndCleaned(store, id), other) == PointsOf(store, other)
  {
    DeletesKeepOthers(store, id, other);
    ProviderClient.CleanLeavesOtherMeasurements(ProviderClient.Client(id), ApplyDeletes(store, PointsOf(store, id)), other);
  }

  /**
   * Without store failures, handling a measurement leaves the store with none of its points of
   * any family, whatever the transport answered, and leaves every other measurement's points.
   */
  lemma FaultFreeMeasurementEmptiesIt(env: Environment, row: MeasurementRow, deviceId: string, b: PerType<int>,
                                      store: Store, tr: Trace)
    requires ValidBatches(b) && NoFaults(env, row.id)
    ensures var m := ProcessMeasurement(env, row, deviceId, b, store, tr);
      && m.abort.None?
      && Emptied(m.store, row.id)
      && forall other :: other != row.id ==> PointsOf(m.store, other) == PointsOf(store, other)
  {
    FaultFreeLoopDeletesAll(env, row, deviceId, b, store);
    assert ProcessMeasurement(env, row, deviceId, b, store, tr).store == DeletedAndCleaned(store, row.id);
    DeletedAndCleanedEmpties(store, row.id);
    forall other | other != row.id
      ensures PointsOf(DeletedAndCleaned(store, row.id), other) == PointsOf(store, other)
    {
      DeletedAndCleanedKeepsOthers(store, row.id, other);
    }
  }

  /**
   * Without store failures, handling a measurement posts SliceCount slices and notifies once per
   * slice, in order: progress for a delivered slice, a transmit error for a failed one. Each
   * failed post is counted once.
   */
  lemma FaultFreeMeasurementNotifies(env: Environment, row: MeasurementRow, deviceId: string, b: PerType<int>,
                                     store: Store, tr: Trace)
    requires ValidBatches(b) && NoFaults(env, row.id)
    ensures var m := ProcessMeasurement(env, row, deviceId, b, store, tr);
      var n := SliceCount(CountsOf(store, row.id), b);
      var job := JobOf(row, deviceId, b, store);
      && |m.trace.events| == |tr.events| + n
      && m.trace.events[..|tr.events|] == tr.events
      && (forall j :: 0 <= j < n ==> m.trace.events[|tr.events| + j] == EventFor(AttemptAt(env, job, j)))
      && Counted(m.trace.stats) == Counted(tr.stats) + Failures(LoopOf(env, row, deviceId, b, store).attempts)
      && m.trace.stats.databaseError == tr.stats.databaseError
  {
    FaultFreeLoopDeletesAll(env, row, deviceId, b, store);
    ReplayNotifies(tr, LoopOf(env, row, deviceId, b, store).attempts);
  }

  // ---------------------------------------------------------------------------------------------
  // The run bracket

  /** Handling one measurement keeps the events seen so far and adds no finished notification. */
  lemma ProcessNeverFinishes(env: Environment, row: MeasurementRow, deviceId: string, b: PerType<int>,
                             store: Store, tr: Trace)
    requires ValidBatches(b)
    ensures var m := ProcessMeasurement(env, row, deviceId, b, store, tr);
      && |tr.events| <= |m.trace.events| && m.trace.events[..|tr.events|] == tr.events
      && (NoFinish(tr.events) ==> NoFinish(m.trace.events))
  {
    if !env.recountFails(row.id) {
      var r := LoopOf(env, row, deviceId, b, store);
      ReplayNeverFinishes(tr, r.attempts);
      assert ProcessMeasurement(env, row, deviceId, b, store, tr).trace == Replay(tr, r.attempts);
    }
  }

  lemma {:induction false} MeasurementLoopNeverFinishes(env: Environment, rows: seq<MeasurementRow>, deviceId: string,
                                                        b: PerType<int>, store: Store, tr: Trace)
    requires ValidBatches(b)
    ensures var m := MeasurementLoop(env, rows, deviceId, b, store, tr);
      && |tr.events| <= |m.trace.events| && m.trace.events[..|tr.events|] == tr.events
      && (NoFinish(tr.events) ==> NoFinish(m.trace.events))
    decreases |rows|
  {
    if |rows| > 0 {
      ProcessNeverFinishes(env, rows[0], deviceId, b, store, tr);
      var m := ProcessMeasurement(env, rows[0], deviceId, b, store, tr);
      if m.abort.None? {
        MeasurementLoopNeverFinishes(env, rows[1..], deviceId, b, m.store, m.trace);
        var m' := MeasurementLoop(env, rows[1..], deviceId, b, m.store, m.trace);
        assert m'.trace.events[..|tr.events|] == m'.trace.events[..|m.trace.events|][..|tr.events|];
      }
    }
  }

  /**
   * The finished notification fires exactly once, as the last notification, on every path through
   * the try block; the start notification, carrying the total point count, comes first unless
   * loading or counting failed, in which case the run reports one read error. Only a missing
   * device id or url escapes before the try block, with no notification at all.
   */
  lemma FinishedExactlyOnce(env: Environment, deviceId: Option<string>, url: Option<string>,
                            rows: seq<MeasurementRow>, b: PerType<int>, store: Store, stats: Stats)
    requires ValidBatches(b)
    ensures var r := PerformSync(env, deviceId, url, rows, b, store, stats);
      && (r.escaped <==> deviceId.None? || url.None?)
      && (r.escaped ==> r.events == [] && r.store == store)
      && (!r.escaped ==> |r.events| > 0 && r.events[|r.events| - 1] == SyncFinished && NoFinish(r.events[..|r.events| - 1]))
      && (!r.escaped && !env.loadFails && !CountingFails(env, rows) ==> r.events[0] == SyncStarted(TotalPoints(store, rows)))
      && (!r.escaped && (env.loadFails || CountingFails(env, rows)) ==>
            r.events == [ReadError, SyncFinished] && r.stats.databaseError && r.store == store)
  {
    var r := PerformSync(env, deviceId, url, rows, b, store, stats);
    if !r.escaped && !env.loadFails && !CountingFails(env, rows) {
      var tr := Trace(stats, [SyncStarted(TotalPoints(store, rows))], []);
      MeasurementLoopNeverFinishes(env, rows, deviceId.value, b, store, tr);
      var m := MeasurementLoop(env, rows, deviceId.value, b, store, tr);
      assert m.trace.events[0] == m.trace.events[..1][0];
      FinishAppendsOnce(m);
    }
  }

  /** Closing the run keeps the loop's notifications, adds at most the caught error and then exactly one finish. */
  lemma FinishAppendsOnce(m: MeasurementRun)
    requires NoFinish(m.trace.events)
    ensures var r := Finish(m);
      && |m.trace.events| < |r.events| && r.events[..|m.trace.events|] == m.trace.events
      && r.events[|r.events| - 1] == SyncFinished && NoFinish(r.events[..|r.events| - 1])
  {
  }

  /** A measurement's points are unchanged when other measurements are handled, so it stays emptied. */
  lemma EmptiedStaysEmptied(s: Store, s': Store, id: int)
    requires Emptied(s, id) && PointsOf(s', id) == PointsOf(s, id)
    ensures Emptied(s', id)
  {
  }

  /** Once emptied, a measurement stays emptied while the run's loop handles further measurements without store failures. */
  lemma {:induction false} LoopKeepsEmptied(env: Environment, rows: seq<MeasurementRow>, deviceId: string,
                                            b: PerType<int>, store: Store, tr: Trace, id: int)
    requires ValidBatches(b) && Emptied(store, id)
    requires forall i :: 0 <= i < |rows| ==> NoFaults(env, rows[i].id)
    ensures Emptied(MeasurementLoop(env, rows, deviceId, b, store, tr).store, id)
    decreases |rows|
  {
    if |rows| > 0 {
      FaultFreeMeasurementEmptiesIt(env, rows[0], deviceId, b, store, tr);
      var m := ProcessMeasurement(env, rows[0], deviceId, b, store, tr);
      MeasurementLoopStep(env, rows, deviceId, b, store, tr);
      if rows[0].id != id {
        EmptiedStaysEmptied(store, m.store, id);
      }
      var rest := rows[1..];
      assert forall i :: 0 <= i < |rest| ==> rest[i] == rows[i + 1];
      LoopKeepsEmptied(env, rest, deviceId, b, m.store, m.trace, id);
    }
  }

  /**
   * Without store failures, the run's loop handles every syncable measurement and leaves the store
   * with none of their points, whatever the transport answered; no database error is raised.
   */
  lemma {:induction false} FaultFreeRunEmptiesEveryMeasurement(env: Environment, rows: seq<MeasurementRow>,
                                                               deviceId: string, b: PerType<int>, store: Store, tr: Trace)
    requires ValidBatches(b)
    requires forall i :: 0 <= i < |rows| ==> NoFaults(env, rows[i].id)
    ensures var m := MeasurementLoop(env, rows, deviceId, b, store, tr);
      && m.abort.None?
      && (forall i :: 0 <= i < |rows| ==> Emptied(m.store, rows[i].id))
      && m.trace.stats.databaseError == tr.stats.databaseError
    decreases |rows|
  {
    FaultFreeLoopEndsNormally(env, rows, deviceId, b, store, tr);
    if |rows| > 0 {
      var row := rows[0];
      FaultFreeMeasurementEmptiesIt(env, row, deviceId, b, store, tr);
      var m := ProcessMeasurement(env, row, deviceId, b, store, tr);
      MeasurementLoopStep(env, rows, deviceId, b, store, tr);
      var rest := rows[1..];
      assert forall i :: 0 <= i < |rest| ==> rest[i] == rows[i + 1];
      FaultFreeRunEmptiesEveryMeasurement(env, rest, deviceId, b, m.store, m.trace);
      LoopKeepsEmptied(env, rest, deviceId, b, m.store, m.trace, row.id);
      EmptiedByHeadAndTail(MeasurementLoop(env, rest, deviceId, b, m.store, m.trace).store, rows);
    }
  }

  /** Every row is emptied once the first one and all the later ones are. */
  lemma EmptiedByHeadAndTail(s: Store, rows: seq<MeasurementRow>)
    requires |rows| > 0 && Emptied(s, rows[0].id)
    requires forall i :: 0 <= i < |rows| - 1 ==> Emptied(s, rows[1..][i].id)
    ensures forall i :: 0 <= i < |rows| ==> Emptied(s, rows[i].id)
  {
    forall i | 0 < i < |rows|
      ensures Emptied(s, rows[i].id)
    {
      assert rows[i] == rows[1..][i - 1];
    }
  }

  /** Without store failures the run's loop handles every measurement and ends normally. */
  lemma {:induction false} FaultFreeLoopEndsNormally(env: Environment, rows: seq<MeasurementRow>,
                                                     deviceId: string, b: PerType<int>, store: Store, tr: Trace)
    requires ValidBatches(b)
    requires forall i :: 0 <= i < |rows| ==> NoFaults(env, rows[i].id)
    ensures MeasurementLoop(env, rows, deviceId, b, store, tr).abort.None?
    decreases |rows|
  {
    if |rows| > 0 {
      FaultFreeMeasurementEmptiesIt(env, rows[0], deviceId, b, store, tr);
      var m := ProcessMeasurement(env, rows[0], deviceId, b, store, tr);
      MeasurementLoopStep(env, rows, deviceId, b, store, tr);
      var rest := rows[1..];
      assert forall i :: 0 <= i < |rest| ==> rest[i] == rows[i + 1];
      FaultFreeLoopEndsNormally(env, rest, deviceId, b, m.store, m.trace);
    }
  }
}
