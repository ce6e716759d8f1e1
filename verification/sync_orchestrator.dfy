/**
 * The newer sync adapter (SyncAdapter.onPerformSync): a login check, then a sequential pass over
 * the FINISHED measurements that sends each one with a freshly fetched token, marks it
 * synchronized when the send succeeds and stops at the first send that does not. Checked
 * exceptions are mapped to one SyncResult counter each; the finished notification fires in the
 * finally block on every path.
 *
 * The account manager, the preferences, the persistence layer, the serializer and the sender are
 * inputs: their answers are fields of the environment. sendData is handed the SyncResult and may
 * write it; what it writes is an input too.
 */
module SyncOrchestrator {
  import opened Outcomes

  /** The capture status of a stored measurement. */
  datatype MeasurementStatus = Open | Paused | Finished | Synced

  datatype Measurement = Measurement(id: int, status: MeasurementStatus)

  /** The checked exceptions the try block catches. */
  datatype RunFault = CursorIsNull | RequestParsing | BadRequest | Authenticator | Io | OperationCanceled

  /** The exceptions a token request can raise. */
  datatype FetchFault = FetchAuthenticator | FetchIo | FetchCanceled

  /** The answer of one auth-token request: a token, a bundle without a token, or an exception. */
  datatype TokenFetch = Token(jwt: string) | NoToken | FetchThrew(fault: FetchFault)

  /** What sendData did: returned whether the transmission succeeded, or threw. */
  datatype SendResult = Sent(successful: bool) | SendThrew(fault: RunFault)

  /**
   * Unchecked exceptions: they leave onPerformSync, but only after the finally block ran. A missing
   * endpoint, a missing device id, a missing fresh token, a fresh token shorter than the seven
   * characters the log line cuts off, or a measurement that vanished before it was marked.
   */
  datatype Escape = MissingEndpoint | MissingDeviceId | MissingFreshToken | TokenTooShort | MeasurementVanished

  /**
   * Everything the run asks of its collaborators. `send` is what sendData answers for a measurement
   * and token, `sendWrites` the SyncResult statistics it leaves behind, from the ones it was handed.
   */
  datatype Environment = Environment(
    login: TokenFetch,
    endpoint: Option<string>,
    deviceId: Option<string>,
    loadFails: bool,
    stored: seq<Measurement>,
    serializeFault: int -> Option<RunFault>,
    freshToken: int -> TokenFetch,
    send: (int, string) -> SendResult,
    sendWrites: (int, string, Stats) -> Stats,
    markFails: int -> bool)

  /** The SyncResult counters this adapter touches. */
  datatype Stats = Stats(databaseError: bool, numParseExceptions: nat, numConflictDetectedExceptions: nat,
                         numAuthExceptions: nat)

  /** The error codes the error intents carry. */
  datatype ErrorCode = DatabaseErrorCode | SynchronizationErrorCode | BadRequestCode | AuthenticationErrorCode

  /** The listener notifications of the bracket. */
  datatype Event = SyncStarted | SyncFinished

  /** One call of sendData: which measurement, with which token. */
  datatype Send = Send(id: int, token: string)

  /** The four counters, as a classification target. */
  datatype Counter = DatabaseErrorFlag | ParseCounter | ConflictCounter | AuthCounter

  /** The counter each caught exception class is meant to increment. */
  function CounterFor(f: RunFault): Counter {
    match f
    case CursorIsNull => DatabaseErrorFlag
    case RequestParsing => ParseCounter
    case BadRequest => ConflictCounter
    case Authenticator => AuthCounter
    case Io => AuthCounter
    case OperationCanceled => AuthCounter
  }

  /** Counter `c` moved from `s` to `s'` (incremented, or the flag set) and no other counter changed. */
  predicate Bumped(s: Stats, s': Stats, c: Counter) {
    && s'.databaseError == (s.databaseError || c == DatabaseErrorFlag)
    && s'.numParseExceptions == s.numParseExceptions + (if c == ParseCounter then 1 else 0)
    && s'.numConflictDetectedExceptions == s.numConflictDetectedExceptions + (if c == ConflictCounter then 1 else 0)
    && s'.numAuthExceptions == s.numAuthExceptions + (if c == AuthCounter then 1 else 0)
  }

  /** A caught exception: the updated statistics and the error intent sent. */
  datatype Handled = Handled(stats: Stats, intent: ErrorCode)

  /** The catch clauses of onPerformSync. */
  function Catch(stats: Stats, f: RunFault): (h: Handled)
    ensures Bumped(stats, h.stats, CounterFor(f))
    ensures h.intent == DatabaseErrorCode <==> f == CursorIsNull
    ensures f == RequestParsing ==> h.intent == SynchronizationErrorCode
    ensures f == BadRequest ==> h.intent == BadRequestCode
    ensures CounterFor(f) == AuthCounter ==> h.intent == AuthenticationErrorCode
  {
    match f
    case CursorIsNull => Handled(stats.(databaseError := true), DatabaseErrorCode)
    case RequestParsing => Handled(stats.(numParseExceptions := stats.numParseExceptions + 1), SynchronizationErrorCode)
    case BadRequest =>
      Handled(stats.(numConflictDetectedExceptions := stats.numConflictDetectedExceptions + 1), BadRequestCode)
    case _ => Handled(stats.(numAuthExceptions := stats.numAuthExceptions + 1), AuthenticationErrorCode)
  }

  function FaultOf(f: FetchFault): RunFault {
    match f
    case FetchAuthenticator => Authenticator
    case FetchIo => Io
    case FetchCanceled => OperationCanceled
  }

  /** loadMeasurements(FINISHED): every finished measurement and nothing else. */
  function FinishedOnly(ms: seq<Measurement>): (r: seq<Measurement>)
    ensures forall i :: 0 <= i < |r| ==> r[i].status == Finished
    ensures multiset(r) <= multiset(ms)
    ensures forall m :: m in ms && m.status == Finished ==> m in r
  {
    if |ms| == 0 then []
    else
      assert ms == [ms[0]] + ms[1..];
      if ms[0].status == Finished then [ms[0]] + FinishedOnly(ms[1..]) else FinishedOnly(ms[1..])
  }

  /** How the measurement loop ended. */
  datatype LoopEnd = Completed | Broke | Threw(fault: RunFault) | Escaped(escape: Escape)

  /** The sends and marks of the measurement loop, how it ended, and the statistics the sends left behind. */
  datatype LoopRun = LoopRun(sends: seq<Send>, marked: seq<int>, end: LoopEnd, stats: Stats)

  /** The statistics after the given sendData calls, in order, each writing over what the previous one left. */
  function Writes(env: Environment, stats: Stats, sends: seq<Send>): Stats
    decreases |sends|
  {
    if |sends| == 0 then stats
    else Writes(env, env.sendWrites(sends[0].id, sends[0].token, stats), sends[1..])
  }

  /**
   * The measurement loop: serialize, fetch a fresh token, send, then mark or break. Only sendData
   * touches the statistics inside the loop.
   */
  function SendEach(env: Environment, ms: seq<Measurement>, stats: Stats): (r: LoopRun)
    ensures |r.marked| <= |r.sends| <= |ms|
    ensures r.stats == Writes(env, stats, r.sends)
    decreases |ms|
  {
    if |ms| == 0 then LoopRun([], [], Completed, stats)
    else
      var m := ms[0];
      match env.serializeFault(m.id)
      case Some(f) => LoopRun([], [], Threw(f), stats)
      case None =>
        match env.freshToken(m.id)
        case FetchThrew(f) => LoopRun([], [], Threw(FaultOf(f)), stats)
        case NoToken => LoopRun([], [], Escaped(MissingFreshToken), stats)
        case Token(jwt) =>
          if |jwt| < 7 then LoopRun([], [], Escaped(TokenTooShort), stats)
          else
            var s := Send(m.id, jwt);
            var written := env.sendWrites(m.id, jwt, stats);
            assert Writes(env, stats, [s]) == written;
            match env.send(m.id, jwt)
            case SendThrew(f) => LoopRun([s], [], Threw(f), written)
            case Sent(ok) =>
              if !ok then LoopRun([s], [], Broke, written)
              else if env.markFails(m.id) then LoopRun([s], [], Escaped(MeasurementVanished), written)
              else
                var rest := SendEach(env, ms[1..], written);
                assert ([s] + rest.sends)[1..] == rest.sends;
                LoopRun([s] + rest.sends, [m.id] + rest.marked, rest.end, rest.stats)
  }

  /**
   * The observable result of onPerformSync. `written` is the statistics as the try block left them
   * (sendData's writes), `stats` the final statistics after the catch clause.
   */
  datatype OrchestratorRun = OrchestratorRun(events: seq<Event>, intents: seq<ErrorCode>, written: Stats, stats: Stats,
                                             sends: seq<Send>, marked: seq<int>,
                                             caught: Option<RunFault>, escaped: Option<Escape>)

  /**
   * The end of the run: the catch clause of a thrown exception, then the finally block's finished
   * notification after events `before`. The catch clause, if any, bumps one counter on top of the
   * statistics the try block left; an unchecked exception passes the finally block uncaught.
   */
  function Close(before: seq<Event>, stats: Stats, sends: seq<Send>, marked: seq<int>, end: LoopEnd): (r: OrchestratorRun)
    ensures r.events == before + [SyncFinished] && r.written == stats && r.sends == sends && r.marked == marked
    ensures end.Threw? <==> r.caught.Some?
    ensures end.Escaped? <==> r.escaped.Some?
    ensures r.caught.Some? ==> Bumped(stats, r.stats, CounterFor(r.caught.value)) && |r.intents| == 1
    ensures r.caught.None? ==> r.stats == stats && r.intents == []
  {
    match end
    case Threw(f) =>
      var h := Catch(stats, f);
      OrchestratorRun(before + [SyncFinished], [h.intent], stats, h.stats, sends, marked, Some(f), None)
    case Escaped(e) => OrchestratorRun(before + [SyncFinished], [], stats, stats, sends, marked, None, Some(e))
    case _ => OrchestratorRun(before + [SyncFinished], [], stats, stats, sends, marked, None, None)
  }

  /**
   * onPerformSync: the finished notification always comes last, nothing is sent before the login,
   * endpoint, device id and measurement list are in place, and an exception is either caught or
   * escapes, never both.
   */
  function PerformSync(env: Environment, stats: Stats): (r: OrchestratorRun)
    ensures |r.events| > 0 && r.events[|r.events| - 1] == SyncFinished
    ensures !ReachesLoop(env) ==> r.sends == [] && r.marked == [] && r.written == stats
    ensures r.caught.None? || r.escaped.None?
  {
    match env.login
    case FetchThrew(f) => Close([], stats, [], [], Threw(FaultOf(f)))
    case NoToken => Close([], stats, [], [], Threw(Authenticator))
    case Token(_) =>
      if env.endpoint.None? then Close([], stats, [], [], Escaped(MissingEndpoint))
      else if env.deviceId.None? then Close([], stats, [], [], Escaped(MissingDeviceId))
      else if env.loadFails then Close([], stats, [], [], Threw(CursorIsNull))
      else
        var finished := FinishedOnly(env.stored);
        if |finished| == 0 then Close([SyncStarted], stats, [], [], Completed)
        else
          var l := SendEach(env, finished, stats);
          Close([SyncStarted], l.stats, l.sends, l.marked, l.end)
  }

  // ---------------------------------------------------------------------------------------------
  // Properties

  /** The login succeeded and the run reached the measurement list. */
  predicate ReachesLoop(env: Environment) {
    env.login.Token? && env.endpoint.Some? && env.deviceId.Some? && !env.loadFails
  }

  /** Every step for measurement `m` goes through: serialized, token fetched and long enough, sent successfully, marked. */
  predicate Succeeds(env: Environment, m: Measurement) {
    && env.serializeFault(m.id).None?
    && env.freshToken(m.id).Token?
    && |env.freshToken(m.id).jwt| >= 7
    && env.send(m.id, env.freshToken(m.id).jwt) == Sent(true)
    && !env.markFails(m.id)
  }

  /**
   * The loop marks exactly the longest prefix of the list whose measurements all succeed, sends at
   * most one measurement past it, sends them in list order, and sends each with the fresh token
   * fetched for it.
   */
  lemma {:induction false} MarkedIsLongestSucceedingPrefix(env: Environment, ms: seq<Measurement>, stats: Stats)
    ensures var r := SendEach(env, ms, stats);
      var k := |r.marked|;
      && (forall i :: 0 <= i < k ==> r.marked[i] == ms[i].id && Succeeds(env, ms[i]))
      && (k < |ms| ==> !Succeeds(env, ms[k]))
      && (k == |ms| <==> r.end == Completed)
      && |r.sends| <= k + 1
      && (forall i :: 0 <= i < |r.sends| ==> r.sends[i].id == ms[i].id)
      && (forall i :: 0 <= i < |r.sends| ==> env.freshToken(ms[i].id) == Token(r.sends[i].token))
    decreases |ms|
  {
    if |ms| > 0 {
      var m := ms[0];
      var r := SendEach(env, ms, stats);
      if Succeeds(env, m) {
        var jwt := env.freshToken(m.id).jwt;
        var written := env.sendWrites(m.id, jwt, stats);
        MarkedIsLongestSucceedingPrefix(env, ms[1..], written);
        var rest := SendEach(env, ms[1..], written);
        assert r == LoopRun([Send(m.id, jwt)] + rest.sends, [m.id] + rest.marked, rest.end, rest.stats);
        forall i | 0 <= i < |r.sends|
          ensures r.sends[i].id == ms[i].id && env.freshToken(ms[i].id) == Token(r.sends[i].token)
        {
          if i > 0 {
            assert r.sends[i] == rest.sends[i - 1];
            assert ms[i] == ms[1..][i - 1];
          }
        }
        forall i | 0 <= i < |r.marked|
          ensures r.marked[i] == ms[i].id && Succeeds(env, ms[i])
        {
          if i > 0 {
            assert r.marked[i] == rest.marked[i - 1];
            assert ms[i] == ms[1..][i - 1];
          }
        }
      } else {
        assert r.marked == [];
        assert r.end != Completed;
      }
    }
  }

  /**
   * In a run that reaches its measurement list, only FINISHED measurements are sent, in stored
   * order; the marked ones are the longest prefix that succeeds, and nothing after the first
   * failure is sent.
   */
  lemma RunSendsFinishedPrefix(env: Environment, stats: Stats)
    requires ReachesLoop(env)
    ensures var r := PerformSync(env, stats);
      var fin := FinishedOnly(env.stored);
      var k := |r.marked|;
      && k <= |fin|
      && (forall i :: 0 <= i < k ==> r.marked[i] == fin[i].id && Succeeds(env, fin[i]))
      && (k < |fin| ==> !Succeeds(env, fin[k]))
      && |r.sends| <= k + 1 && |r.sends| <= |fin|
      && (forall i :: 0 <= i < |r.sends| ==> r.sends[i].id == fin[i].id && fin[i].status == Finished)
      && (forall i :: 0 <= i < |r.sends| ==> env.freshToken(r.sends[i].id) == Token(r.sends[i].token))
  {
    MarkedIsLongestSucceedingPrefix(env, FinishedOnly(env.stored), stats);
  }

  /**
   * Without a login token the run stops before loading anything: nothing is sent or marked, the
   * start notification never fires, and exactly the auth counter is incremented.
   */
  lemma NoLoginTokenAbortsEarly(env: Environment, stats: Stats)
    requires env.login == NoToken
    ensures var r := PerformSync(env, stats);
      && r.sends == [] && r.marked == []
      && r.events == [SyncFinished]
      && Bumped(stats, r.stats, AuthCounter)
      && r.intents == [AuthenticationErrorCode]
  {
  }

  /** With no FINISHED measurement the listeners see the start and the finish, and nothing else happens. */
  lemma EmptyFinishedListOnlyBrackets(env: Environment, stats: Stats)
    requires ReachesLoop(env)
    requires forall i :: 0 <= i < |env.stored| ==> env.stored[i].status != Finished
    ensures var r := PerformSync(env, stats);
      && r.events == [SyncStarted, SyncFinished]
      && r.sends == [] && r.marked == [] && r.intents == []
      && r.stats == stats && r.caught.None? && r.escaped.None?
  {
    NoFinishedSelectsNothing(env.stored);
  }

  /** A list without FINISHED measurements yields no candidates. */
  lemma {:induction false} NoFinishedSelectsNothing(ms: seq<Measurement>)
    requires forall i :: 0 <= i < |ms| ==> ms[i].status != Finished
    ensures FinishedOnly(ms) == []
  {
    if |ms| > 0 {
      NoFinishedSelectsNothing(ms[1..]);
    }
  }

  /**
   * On every path the finished notification fires exactly once, as the last notification, and the
   * start notification fires at most once, first. The try block changes the statistics only
   * through sendData. On top of that, a caught exception increments exactly the counter of its
   * class and sends one intent; otherwise nothing more changes.
   */
  lemma FinishedExactlyOnce(env: Environment, stats: Stats)
    ensures var r := PerformSync(env, stats);
      && (r.events == [SyncFinished] || r.events == [SyncStarted, SyncFinished])
      && (r.events == [SyncStarted, SyncFinished] <==> ReachesLoop(env))
      && r.written == Writes(env, stats, r.sends)
      && (r.caught.Some? ==> Bumped(r.written, r.stats, CounterFor(r.caught.value)) && |r.intents| == 1)
      && (r.caught.None? ==> r.stats == r.written && r.intents == [])
      && (r.caught.None? || r.escaped.None?)
  {
  }
}
