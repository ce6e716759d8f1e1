/**
 * Outcome classification of the legacy adapter (CyfaceSyncAdapter): what one slice post and
 * what one run-ending exception do to the sync statistics, the listeners and the error intents.
 */
module LegacyPost {
  import opened Outcomes
  import opened SliceAssembly

  /** The transport exceptions postMeasurementSlice catches, one constructor per catch clause. */
  datatype TransmitFailure =
    | ServerUnavailable
    | MalformedUrl
    | Authenticator
    | OperationCanceled
    | ResponseParsing
    | DataTransmission(httpStatusCode: int)
    | Synchronisation
    | Io
    | Unauthorized

  /**
   * What posting one slice came to: delivered; one of the failures postMeasurementSlice catches;
   * or delivered, after which a progress listener threw a RequestParsingException. That exception
   * is declared by postMeasurementSlice and none of its catch clauses takes it, so it leaves the
   * method.
   */
  datatype PostOutcome = Delivered | Failed(failure: TransmitFailure) | ProgressRejected

  /** The exceptions that escape syncMeasurement or deleteMeasurement and end the run. */
  datatype Abort = DatabaseAbort | RequestParsingAbort | SynchronisationAbort

  /** Error codes sent as error intents. */
  datatype ErrorCode =
    | ServerUnavailableCode
    | MalformedUrlCode
    | AuthenticationErrorCode
    | AuthenticationCanceledCode
    | UnreadableHttpResponseCode
    | DataTransmissionErrorCode(httpStatusCode: int)
    | SynchronizationErrorCode
    | NetworkErrorCode
    | UnauthorizedCode
    | DatabaseErrorCode

  /** The SyncResult fields the legacy adapter writes. */
  datatype Stats = Stats(numAuthExceptions: nat, numParseExceptions: nat, numIoExceptions: nat, databaseError: bool)

  /** The reason attached to a transmit-error notification. */
  datatype Cause = PostFailure(failure: TransmitFailure) | RunFailure(abort: Abort)

  /** The notifications a SyncProgressListener receives. */
  datatype ListenerEvent =
    | SyncStarted(pointsToBeTransmitted: int)
    | Progress(slice: Slice)
    | TransmitError(cause: Cause)
    | ReadError
    | SyncFinished

  /** The sum of the three exception counters. */
  function Counted(s: Stats): nat {
    s.numAuthExceptions + s.numParseExceptions + s.numIoExceptions
  }

  /** The failures counted as authentication problems. */
  predicate AuthCounted(f: TransmitFailure) {
    f.ServerUnavailable? || f.Authenticator? || f.OperationCanceled? || f.Unauthorized?
  }

  /** The failures counted as parse problems. */
  predicate ParseCounted(f: TransmitFailure) {
    f.MalformedUrl? || f.ResponseParsing? || f.Synchronisation?
  }

  /** The failures counted as I/O problems. */
  predicate IoCounted(f: TransmitFailure) {
    f.DataTransmission? || f.Io?
  }

  /** The result of posting one slice. */
  datatype Posted = Posted(stats: Stats, event: ListenerEvent, intent: Option<ErrorCode>)

  /**
   * postMeasurementSlice: exactly one listener notification per call. A delivered slice yields one
   * progress notification and nothing else, also when a listener rejects it (the exception is
   * handled by the caller); each caught failure yields one transmit-error notification, one error
   * intent and one increment of exactly one counter, chosen by the failure's group.
   */
  function PostSlice(stats: Stats, slice: Slice, outcome: PostOutcome): (p: Posted)
    ensures !outcome.Failed? <==> p.event.Progress?
    ensures !outcome.Failed? ==> p.event == Progress(slice) && p.stats == stats && p.intent == None
    ensures outcome.Failed? ==> p.event == TransmitError(PostFailure(outcome.failure)) && p.intent.Some?
    ensures outcome.Failed? ==> Counted(p.stats) == Counted(stats) + 1 && p.stats.databaseError == stats.databaseError
    ensures outcome.Failed? ==>
      p.stats.numAuthExceptions == stats.numAuthExceptions + (if AuthCounted(outcome.failure) then 1 else 0)
    ensures outcome.Failed? ==>
      p.stats.numParseExceptions == stats.numParseExceptions + (if ParseCounted(outcome.failure) then 1 else 0)
    ensures outcome.Failed? ==>
      p.stats.numIoExceptions == stats.numIoExceptions + (if IoCounted(outcome.failure) then 1 else 0)
    ensures outcome == Failed(ServerUnavailable) ==> p.intent == Some(ServerUnavailableCode)
    ensures outcome == Failed(MalformedUrl) ==> p.intent == Some(MalformedUrlCode)
    ensures outcome == Failed(Authenticator) ==> p.intent == Some(AuthenticationErrorCode)
    ensures outcome == Failed(OperationCanceled) ==> p.intent == Some(AuthenticationCanceledCode)
    ensures outcome == Failed(ResponseParsing) ==> p.intent == Some(UnreadableHttpResponseCode)
    ensures outcome.Failed? && outcome.failure.DataTransmission? ==>
      p.intent == Some(DataTransmissionErrorCode(outcome.failure.httpStatusCode))
    ensures outcome == Failed(Synchronisation) ==> p.intent == Some(SynchronizationErrorCode)
    ensures outcome == Failed(Io) ==> p.intent == Some(NetworkErrorCode)
    ensures outcome == Failed(Unauthorized) ==> p.intent == Some(UnauthorizedCode)
  {
    match outcome
    case Delivered => Posted(stats, Progress(slice), None)
    case ProgressRejected => Posted(stats, Progress(slice), None)
    case Failed(f) =>
      var auth := stats.(numAuthExceptions := stats.numAuthExceptions + 1);
      var parse := stats.(numParseExceptions := stats.numParseExceptions + 1);
      var io := stats.(numIoExceptions := stats.numIoExceptions + 1);
      var event := TransmitError(PostFailure(f));
      match f
      case ServerUnavailable => Posted(auth, event, Some(ServerUnavailableCode))
      case MalformedUrl => Posted(parse, event, Some(MalformedUrlCode))
      case Authenticator => Posted(auth, event, Some(AuthenticationErrorCode))
      case OperationCanceled => Posted(auth, event, Some(AuthenticationCanceledCode))
      case ResponseParsing => Posted(parse, event, Some(UnreadableHttpResponseCode))
      case DataTransmission(code) => Posted(io, event, Some(DataTransmissionErrorCode(code)))
      case Synchronisation => Posted(parse, event, Some(SynchronizationErrorCode))
      case Io => Posted(io, event, Some(NetworkErrorCode))
      case Unauthorized => Posted(auth, event, Some(UnauthorizedCode))
  }

  /** The three counter groups partition the failures: each failure is counted by exactly one counter. */
  lemma CounterGroupsPartition(f: TransmitFailure)
    ensures AuthCounted(f) || ParseCounted(f) || IoCounted(f)
    ensures !(AuthCounted(f) && ParseCounted(f)) && !(AuthCounted(f) && IoCounted(f)) && !(ParseCounted(f) && IoCounted(f))
  {
  }

  /** The effect of catching a run-ending exception in onPerformSync. */
  datatype Caught = Caught(stats: Stats, event: ListenerEvent, intent: ErrorCode)

  /**
   * A database failure sets databaseError and notifies a read error; a request-parsing or
   * synchronisation failure increments numParseExceptions and notifies a transmit error.
   * Either way exactly one listener notification and one error intent follow.
   */
  function CatchAbort(stats: Stats, a: Abort): (c: Caught)
    ensures a.DatabaseAbort? ==> c.stats == stats.(databaseError := true) && c.event == ReadError
    ensures a.DatabaseAbort? ==> c.intent == DatabaseErrorCode
    ensures !a.DatabaseAbort? ==> c.stats == stats.(numParseExceptions := stats.numParseExceptions + 1)
    ensures !a.DatabaseAbort? ==> c.event == TransmitError(RunFailure(a)) && c.intent == SynchronizationErrorCode
    ensures c.event != SyncFinished
  {
    match a
    case DatabaseAbort => Caught(stats.(databaseError := true), ReadError, DatabaseErrorCode)
    case RequestParsingAbort =>
      Caught(stats.(numParseExceptions := stats.numParseExceptions + 1), TransmitError(RunFailure(a)), SynchronizationErrorCode)
    case SynchronisationAbort =>
      Caught(stats.(numParseExceptions := stats.numParseExceptions + 1), TransmitError(RunFailure(a)), SynchronizationErrorCode)
  }
}
