# Cyface synchronization core, modelled in Dafny

This project models the decision logic of the Cyface Android synchronization module. It has four parts:

- **The legacy sync adapter (`CyfaceSyncAdapter`).** A run brackets its work with a started and a finished notification. It counts the points still to upload. Then, for each syncable measurement, it:
  - cuts the points into slices with four independent cursors, one per point family (GPS, acceleration, rotation, direction);
  - posts every slice and classifies the transport's answer into one statistics counter and one listener notification;
  - deletes the posted points;
  - finally cleans the measurement.
- **The newer sync orchestrator (`SyncAdapter`).** It checks the login token, then walks the FINISHED measurements in order. It sends each one with a freshly fetched token. It marks every successful one as synchronized and stops at the first failure. Each caught exception class maps to one counter.
- **The WiFi surveyor (`WiFiSurveyor`):**
  - the syncable-network predicate;
  - the connectivity-change transition that switches automatic sync on and off;
  - the guards of an immediate sync request;
  - the one-account rule, account deletion, starting surveillance and changing the metered-network flag.
- **Per-measurement store access (`MeasurementContentProviderClient`).** Loading a measurement's GPS and 3D points, and cleaning a measurement. Cleaning removes the measurement's acceleration, rotation and direction rows and nothing else.

The content provider becomes one value type, `PointStore.Store`: four tables of rows, each row carrying its measurement's foreign key. Everything the Android framework, the account manager, the HTTP transport and the store report is an input to the model:

- transport outcomes per slice or per measurement;
- store failures;
- tokens;
- connectivity facts.

What the code asks of them comes back as an effect value: listener events, error intents, sync requests and `setSyncAutomatically` values.

Modules, one per file:

| file | module | models |
|---|---|---|
| `outcomes.dfy` | `Outcomes` | `Option` and `Result` |
| `point_store.dfy` | `PointStore` | the abstract four-table store, selection and deletion by foreign key |
| `provider_client.dfy` | `ProviderClient` | `MeasurementContentProviderClient` |
| `slice_assembly.dfy` | `SliceAssembly` | the four-cursor slice loop, window reads, slice filling; the 32-bit cursor variant |
| `legacy_post.dfy` | `LegacyPost` | `postMeasurementSlice` and the run-level catch clauses of `CyfaceSyncAdapter` |
| `legacy_sync.dfy` | `LegacySync` | `onPerformSync`, `syncMeasurement`, `deleteMeasurement` and `countUnsyncedDataPoints` of `CyfaceSyncAdapter` |
| `sync_orchestrator.dfy` | `SyncOrchestrator` | `SyncAdapter.onPerformSync` |
| `wifi_surveyor.dfy` | `Surveyor` | `WiFiSurveyor` |

Where the repository's prose and its code differ, or the code does something easy to miss, the model follows the code:

- A measurement with no points of any family yields no slice at all. The loop condition is false at once, so no header-only slice is posted.
- All four families are queried on every iteration, even once their cursor has passed their count. An exhausted family contributes an empty array.
- The legacy adapter deletes a slice's points after every post, whether the post succeeded or not. Transport failures are caught inside `postMeasurementSlice` and not rethrown.
- Two `RequestParsingException`s do leave `postMeasurementSlice`, because none of its catch clauses takes them:
  - `http.post` could not generate the request. Nothing is posted and no notification is sent (the environment's `requestFails`).
  - A progress listener rejected a delivered slice. The progress notification has been sent (the `ProgressRejected` outcome).

  In both cases that slice's points are not deleted, no later slice is posted, `deleteMeasurement` is skipped, and the run-level catch counts a parse error with the synchronization error intent.
- `cleanMeasurement` runs three deletes in turn (acceleration, rotation, direction). A `RemoteException` in one of them leaves the earlier deletes applied (`ProviderClient.CleanFailingAt`).
- In `SyncAdapter`, unchecked exceptions (`Validate.notNull` failures, `IllegalStateException`, a `substring` on a too-short token) still pass through the `finally` block. So the finished notification fires on those paths too, before the exception leaves the method.

## Model

| member | source | states |
|---|---|---|
| PointStore.OwnedByMultiset | synchronization/src/main/java/de/cyface/synchronization/MeasurementContentProviderClient.java:54-58 | a query with `measurement_fk = id` yields each row of that measurement as often as the table holds it, and no row of another measurement |
| PointStore.NotOwnedByMultiset | synchronization/src/main/java/de/cyface/synchronization/MeasurementContentProviderClient.java:85-87 | a delete with `measurement_fk = id` keeps each row of other measurements as often as the table holds it, and none of the measurement's rows |
| PointStore.WithoutMultiset | synchronization/src/cyface/java/de/cyface/synchronization/CyfaceSyncAdapter.java:380-389 | deleting a slice's posted rows removes exactly the rows listed and keeps every other row with its multiplicity |
| PointStore.OwnedRowsBelong | synchronization/src/main/java/de/cyface/synchronization/MeasurementContentProviderClient.java:57-58 | every row a foreign-key query returns carries the queried measurement id |
| PointStore.OwnedByIgnoresOtherRemoval | synchronization/src/main/java/de/cyface/synchronization/MeasurementContentProviderClient.java:83-95 | deleting one measurement's rows does not change which rows another measurement owns |
| PointStore.NothingOwnedAfterRemoval | synchronization/src/main/java/de/cyface/synchronization/MeasurementContentProviderClient.java:85-93 | after a delete by foreign key the measurement owns no row of that table |
| PointStore.WithoutKeepsForeignRows | synchronization/src/cyface/java/de/cyface/synchronization/CyfaceSyncAdapter.java:242-245 | deleting rows that all belong to one measurement leaves every other measurement's rows, in order |
| PointStore.WithoutAllOwned | synchronization/src/cyface/java/de/cyface/synchronization/CyfaceSyncAdapter.java:242-245 | deleting a list that contains every row of a measurement leaves it none |
| ProviderClient.TableOf | synchronization/src/main/java/de/cyface/synchronization/MeasurementContentProviderClient.java:68-74 | a 3D-point serializer never addresses the GPS table |
| ProviderClient.LoadGeoLocations | synchronization/src/main/java/de/cyface/synchronization/MeasurementContentProviderClient.java:53-59 | the result holds only rows of this client's measurement, and every GPS row of it as often as the table holds it; the store is a value and is not changed |
| ProviderClient.Load3DPoint | synchronization/src/main/java/de/cyface/synchronization/MeasurementContentProviderClient.java:68-74 | the same for the table the serializer names |
| ProviderClient.CleanMeasurement | synchronization/src/main/java/de/cyface/synchronization/MeasurementContentProviderClient.java:83-95 | the GPS table is untouched; the acceleration, rotation and direction tables lose exactly this measurement's rows and keep every other row with its multiplicity; the result is the sum of the three per-table delete counts |
| ProviderClient.RemovalCount | synchronization/src/main/java/de/cyface/synchronization/MeasurementContentProviderClient.java:84-94 | the number a delete by foreign key reports equals the number of rows the measurement owned |
| ProviderClient.CleanEmptiesOnly3DPoints | synchronization/src/main/java/de/cyface/synchronization/MeasurementContentProviderClient.java:76-95 | after a clean no 3D point of the measurement remains, and its GPS points are exactly as before |
| ProviderClient.CleanLeavesOtherMeasurements | synchronization/src/main/java/de/cyface/synchronization/MeasurementContentProviderClient.java:83-95 | a clean leaves the points of every other measurement, in all four families, unchanged |
| ProviderClient.CleanIsIdempotent | synchronization/src/main/java/de/cyface/synchronization/MeasurementContentProviderClient.java:83-95 | cleaning a second time changes nothing and reports 0 deleted rows |
| ProviderClient.CleanFailingAt | synchronization/src/main/java/de/cyface/synchronization/MeasurementContentProviderClient.java:83-95 | a clean whose delete of one 3D table throws has removed the measurement's rows from the tables deleted before it, and left that table, the ones after it and the GPS table untouched |
| ProviderClient.RetryCompletesFailedClean | synchronization/src/main/java/de/cyface/synchronization/MeasurementContentProviderClient.java:83-95 | cleaning again after such a failure gives the same store as a clean that went through at once |
| ProviderClient.RemovesNothingWhenNoneOwned | synchronization/src/main/java/de/cyface/synchronization/MeasurementContentProviderClient.java:85-93 | a delete by a foreign key that owns no row leaves the table unchanged |
| SliceAssembly.CeilDiv | synchronization/src/cyface/java/de/cyface/synchronization/CyfaceSyncAdapter.java:223-226 | the number of batch-size steps a cursor takes to reach a count is the least q with count <= q*batch; it is 0 exactly for count 0 |
| SliceAssembly.SliceCount | synchronization/src/cyface/java/de/cyface/synchronization/CyfaceSyncAdapter.java:223-226 | the slice count is the maximum over the four families of ceil(count/batch); it is 0 exactly when all four counts are 0 |
| SliceAssembly.BelowIffBeforeCeil | synchronization/src/cyface/java/de/cyface/synchronization/CyfaceSyncAdapter.java:223-226 | a cursor that advanced k times is below its count exactly while k is below that family's window count |
| SliceAssembly.GuardIffBeforeSliceCount | synchronization/src/cyface/java/de/cyface/synchronization/CyfaceSyncAdapter.java:223-226 | the loop condition holds at iteration k exactly when k is below the slice count |
| SliceAssembly.AdvanceIsNextIteration | synchronization/src/cyface/java/de/cyface/synchronization/CyfaceSyncAdapter.java:226 | the for-update moves every cursor, exhausted or not, from k*B to (k+1)*B |
| SliceAssembly.PlanSlices | synchronization/src/cyface/java/de/cyface/synchronization/CyfaceSyncAdapter.java:223-226 | with positive batch sizes the loop terminates after exactly SliceCount iterations, and iteration k starts every family at k*B |
| SliceAssembly.NonPositiveBatchNeverTerminates | synchronization/src/cyface/java/de/cyface/synchronization/CyfaceSyncAdapter.java:106-115 | the constructor stores batch sizes unchecked: with a batch size <= 0 and a point of that family the loop condition holds forever |
| SliceAssembly.Window | synchronization/src/cyface/java/de/cyface/synchronization/CyfaceSyncAdapter.java:262 | the windowed read [start, start+batch) returns the points at start, start+1, ... in order: exactly min(batch, count - start) of them for a start within the points (so a full batch inside, the remainder on the last page), and nothing at or past the end |
| SliceAssembly.FillSlice | synchronization/src/cyface/java/de/cyface/synchronization/CyfaceSyncAdapter.java:252-278 | a filled slice keeps the template header and each family's array holds at most that family's batch size |
| SliceAssembly.UploadedIsPrefix | synchronization/src/cyface/java/de/cyface/synchronization/CyfaceSyncAdapter.java:262-276 | the first n windows of one family read exactly its first min(n*B, count) points, each once and in order |
| SliceAssembly.WindowsCoverAllPoints | synchronization/src/cyface/java/de/cyface/synchronization/CyfaceSyncAdapter.java:223-226 | once a family's window count is reached its windows have read all its points |
| SliceAssembly.FlattenSlices | synchronization/src/cyface/java/de/cyface/synchronization/CyfaceSyncAdapter.java:226-278 | the family arrays of the first n slices, concatenated, are that family's first n windows |
| SliceAssembly.SlicesCoverEveryPoint | synchronization/src/cyface/java/de/cyface/synchronization/CyfaceSyncAdapter.java:223-278 | across all slices of a measurement each family's arrays concatenate to exactly its points: none read twice, none skipped, order kept |
| SliceAssembly.ReadingIteration | synchronization/src/cyface/java/de/cyface/synchronization/CyfaceSyncAdapter.java:262-276 | the iteration index/B has a window that contains the index |
| SliceAssembly.IndexReadByExactlyOneSlice | synchronization/src/cyface/java/de/cyface/synchronization/CyfaceSyncAdapter.java:223-276 | every index below a family's count lies in the window of exactly one iteration, and the loop performs that iteration |
| SliceAssembly.ExhaustedFamilyContributesNothing | synchronization/src/cyface/java/de/cyface/synchronization/CyfaceSyncAdapter.java:262-278 | a family whose window count is reached is still queried, at an offset >= its count, and contributes an empty array |
| SliceAssembly.GpsOnlyExample | synchronization/src/cyface/java/de/cyface/synchronization/CyfaceSyncAdapter.java:223-278 | 250 GPS points with GPS batch 100 and no other points give three slices of 100, 100 and 50 GPS points with empty other arrays |
| SliceAssembly.WrapInt | synchronization/src/cyface/java/de/cyface/synchronization/CyfaceSyncAdapter.java:226 | Java int addition: the result lies in the int range and equals the sum when the sum fits |
| SliceAssembly.Int32CursorExactBeforeWrap | synchronization/src/cyface/java/de/cyface/synchronization/CyfaceSyncAdapter.java:223-226 | with batch 2 the int cursor equals 2k for k < 2^30 |
| SliceAssembly.Int32CursorWrapsNegative | synchronization/src/cyface/java/de/cyface/synchronization/CyfaceSyncAdapter.java:223-226 | with batch 2 the int cursor of iteration 2^30 is -2^31, below a count of 2147483647 |
| SliceAssembly.Int32LoopNeverExits | synchronization/src/cyface/java/de/cyface/synchronization/CyfaceSyncAdapter.java:223-226 | with batch 2 the int cursor stays even and below 2147483647 on every iteration, so for that count the loop never exits |
| LegacyPost.PostSlice | synchronization/src/cyface/java/de/cyface/synchronization/CyfaceSyncAdapter.java:312-369 | one notification per post: progress with the slice exactly on delivery (also when a listener then rejects it), with no intent and unchanged statistics; each caught failure gives one transmit error, the error intent of its class (server unavailable, malformed url, authentication error or cancelled, unreadable response, data transmission with the HTTP status, synchronization, network, unauthorized), one increment of the counter of its group (auth, parse or I/O), the other two counters and databaseError unchanged |
| LegacyPost.CounterGroupsPartition | synchronization/src/cyface/java/de/cyface/synchronization/CyfaceSyncAdapter.java:332-368 | the three counter groups cover every caught failure and do not overlap |
| LegacyPost.CatchAbort | synchronization/src/cyface/java/de/cyface/synchronization/CyfaceSyncAdapter.java:160-169 | a database failure sets databaseError, sends the database error intent and notifies a read error; a request-parsing or synchronisation failure increments numParseExceptions, sends the synchronization error intent and notifies a transmit error; no other counter changes, and neither is the finished notification |
| LegacySync.RecordDeletes | synchronization/src/cyface/java/de/cyface/synchronization/CyfaceSyncAdapter.java:242-245 | the four deletes run in family order: the families before a failing one have the slice's points deleted, the rest are untouched |
| LegacySync.CountUnsyncedDataPoints | synchronization/src/cyface/java/de/cyface/synchronization/CyfaceSyncAdapter.java:464-486 | fails exactly when some count fails, as a database error; otherwise returns the sum of the four per-family counts over all measurements (0 without any) and moves a non-empty cursor back to its initial position |
| LegacySync.SliceLoop | synchronization/src/cyface/java/de/cyface/synchronization/CyfaceSyncAdapter.java:223-249 | the loop only appends to the posts made so far, and makes at most one post per remaining iteration below the slice count |
| LegacySync.SlicesAreIterations | synchronization/src/cyface/java/de/cyface/synchronization/CyfaceSyncAdapter.java:223-232 | the j-th slice is the one filled from the cursors of iteration j |
| LegacySync.SliceLoopStep | synchronization/src/cyface/java/de/cyface/synchronization/CyfaceSyncAdapter.java:223-249 | an iteration whose guard holds, whose store calls succeed, whose post request can be generated and whose progress no listener rejects posts its slice, deletes all four of its arrays and continues with the next cursors |
| LegacySync.SliceLoopPostsAndDeletes | synchronization/src/cyface/java/de/cyface/synchronization/CyfaceSyncAdapter.java:223-249 | without store failures, ungenerated post requests and rejected progress notifications the loop posts the slices of iterations 0 .. SliceCount-1 in order with the transport's answers, and deletes exactly their points whether each post was delivered or failed |
| LegacySync.RejectedProgressStopsLoop | synchronization/src/cyface/java/de/cyface/synchronization/CyfaceSyncAdapter.java:232-248 | when a listener rejects a slice's progress, the loop ends there: the slice counts as posted, none of its points is deleted, and the loop ends with the request-parsing exception |
| LegacySync.UngeneratedRequestStopsLoop | synchronization/src/cyface/java/de/cyface/synchronization/CyfaceSyncAdapter.java:312-322 | when the post request of an iteration cannot be generated, the loop ends there with the request-parsing exception: nothing more is posted and nothing of that slice is deleted |
| LegacySync.FirstRejectedProgressKeepsStore | synchronization/src/cyface/java/de/cyface/synchronization/CyfaceSyncAdapter.java:152-169 | when that happens to a measurement's first slice, the measurement ends the loop with the request-parsing exception, the store keeps all its points, and the trace shows only that slice's post |
| LegacySync.EmptyMeasurementPostsNothing | synchronization/src/cyface/java/de/cyface/synchronization/CyfaceSyncAdapter.java:223-226 | when all four counts are 0 no slice is built, posted or deleted |
| LegacySync.SlicesCarryTemplate | synchronization/src/cyface/java/de/cyface/synchronization/CyfaceSyncAdapter.java:391-406 | every slice of a measurement carries the same id, device id and vehicle header, and only the four arrays vary, each bounded by its batch size |
| LegacySync.ReplayNotifies | synchronization/src/cyface/java/de/cyface/synchronization/CyfaceSyncAdapter.java:312-369 | posting n slices appends exactly n notifications, the j-th determined by the j-th outcome; the error intents and the counter total grow by the number of failures; databaseError is untouched |
| LegacySync.ReplayNeverFinishes | synchronization/src/cyface/java/de/cyface/synchronization/CyfaceSyncAdapter.java:312-369 | posting slices keeps the events so far and never adds the finished notification |
| LegacySync.OwnedRowsRemoved | synchronization/src/cyface/java/de/cyface/synchronization/CyfaceSyncAdapter.java:242-245 | removing the rows a measurement owns leaves it none and leaves every other measurement its rows |
| LegacySync.DeletesEmptyMeasurement | synchronization/src/cyface/java/de/cyface/synchronization/CyfaceSyncAdapter.java:233-248 | deleting all of a measurement's points, as recorded, leaves none of them in any family |
| LegacySync.DeletesKeepOthers | synchronization/src/cyface/java/de/cyface/synchronization/CyfaceSyncAdapter.java:233-248 | those deletes leave every other measurement's points unchanged |
| LegacySync.AllSlicesDeleteAllPoints | synchronization/src/cyface/java/de/cyface/synchronization/CyfaceSyncAdapter.java:223-249 | the slices of all iterations together carry every point of the measurement in all four families |
| LegacySync.FaultFreeLoopDeletesAll | synchronization/src/cyface/java/de/cyface/synchronization/CyfaceSyncAdapter.java:223-249 | without store failures, ungenerated post requests and rejected progress notifications the loop ends normally after SliceCount posts and its deletions are exactly the measurement's points |
| LegacySync.DeletedAndCleanedEmpties | synchronization/src/cyface/java/de/cyface/synchronization/CyfaceSyncAdapter.java:152-158 | deleting the posted points and then cleaning the measurement leaves none of its points |
| LegacySync.DeletedAndCleanedKeepsOthers | synchronization/src/cyface/java/de/cyface/synchronization/CyfaceSyncAdapter.java:152-158 | and leaves every other measurement's points unchanged |
| LegacySync.FaultFreeMeasurementEmptiesIt | synchronization/src/cyface/java/de/cyface/synchronization/CyfaceSyncAdapter.java:152-158 | without store failures, ungenerated post requests and rejected progress notifications, handling a measurement ends normally, empties it whether the posts were delivered or failed, and keeps every other measurement's points |
| LegacySync.FaultFreeMeasurementNotifies | synchronization/src/cyface/java/de/cyface/synchronization/CyfaceSyncAdapter.java:193-249 | without store failures, ungenerated post requests and rejected progress notifications, handling a measurement appends one notification per slice in slice order (progress or transmit error), with one intent and one counter increment per failed post |
| LegacySync.ProcessMeasurement | synchronization/src/cyface/java/de/cyface/synchronization/CyfaceSyncAdapter.java:152-158 | handling one measurement (syncMeasurement, then deleteMeasurement) never sets databaseError itself, and ends without an exception only when the recount and every delete of the clean went through |
| LegacySync.ProcessNeverFinishes | synchronization/src/cyface/java/de/cyface/synchronization/CyfaceSyncAdapter.java:152-158 | handling one measurement keeps the events so far and adds no finished notification |
| LegacySync.MeasurementLoop | synchronization/src/cyface/java/de/cyface/synchronization/CyfaceSyncAdapter.java:152-158 | the while-loop over the measurements never sets databaseError itself |
| LegacySync.NormalEndMeansStoreCallsWentThrough | synchronization/src/cyface/java/de/cyface/synchronization/CyfaceSyncAdapter.java:152-158 | the while-loop ends without an exception only when every measurement's recount and clean went through |
| LegacySync.MeasurementLoopNeverFinishes | synchronization/src/cyface/java/de/cyface/synchronization/CyfaceSyncAdapter.java:152-158 | the same for the whole while-loop over the measurements |
| LegacySync.PerformSync | synchronization/src/cyface/java/de/cyface/synchronization/CyfaceSyncAdapter.java:130-177 | the run escapes exactly when the device id or the url is missing, and then notifies nothing and changes neither the statistics nor the store; otherwise its last notification is the finished one |
| LegacySync.FinishedExactlyOnce | synchronization/src/cyface/java/de/cyface/synchronization/CyfaceSyncAdapter.java:130-177 | on every path through the try block the finished notification fires exactly once, last; the start notification with the total point count comes first unless loading or counting failed, which reports one read error; only a missing device id or url escapes, with no notification |
| LegacySync.LoopKeepsEmptied | synchronization/src/cyface/java/de/cyface/synchronization/CyfaceSyncAdapter.java:152-158 | an emptied measurement stays emptied while the loop handles other measurements without store failures |
| LegacySync.FaultFreeLoopEndsNormally | synchronization/src/cyface/java/de/cyface/synchronization/CyfaceSyncAdapter.java:152-158 | without store failures, ungenerated post requests and rejected progress notifications the while-loop handles every measurement and ends without an exception |
| LegacySync.FaultFreeRunEmptiesEveryMeasurement | synchronization/src/cyface/java/de/cyface/synchronization/CyfaceSyncAdapter.java:146-158 | without store failures, ungenerated post requests and rejected progress notifications the loop ends normally and leaves none of the points of any syncable measurement, whether the posts were delivered or failed |
| SyncOrchestrator.Catch | synchronization/src/main/java/de/cyface/synchronization/SyncAdapter.java:178-196 | each caught exception class moves exactly its own counter (CursorIsNull sets databaseError; RequestParsing counts a parse error; BadRequest a conflict; Authenticator, IO and OperationCanceled an auth error) and nothing else; CursorIsNull, and only it, sends the database error code, RequestParsing the synchronization error code, BadRequest the bad request code, and Authenticator, IO and OperationCanceled the authentication error code |
| SyncOrchestrator.FinishedOnly | synchronization/src/main/java/de/cyface/synchronization/SyncAdapter.java:126 | the candidates are all FINISHED, drawn from the stored list, and include every FINISHED measurement |
| SyncOrchestrator.SendEach | synchronization/src/main/java/de/cyface/synchronization/SyncAdapter.java:135-177 | the loop sends at most one measurement per candidate and marks at most those it sent; the statistics after the loop are what the successive sendData calls wrote, in send order, and nothing else in the loop writes them |
| SyncOrchestrator.MarkedIsLongestSucceedingPrefix | synchronization/src/main/java/de/cyface/synchronization/SyncAdapter.java:135-177 | the marked measurements are exactly the longest prefix whose steps all succeed; at most one measurement past it is sent; sends follow list order, each with the fresh token fetched for that measurement |
| SyncOrchestrator.RunSendsFinishedPrefix | synchronization/src/main/java/de/cyface/synchronization/SyncAdapter.java:126-177 | in a run that reaches the measurement list only FINISHED measurements are sent, in stored order, and the marked ones are the longest succeeding prefix of them |
| SyncOrchestrator.NoLoginTokenAbortsEarly | synchronization/src/main/java/de/cyface/synchronization/SyncAdapter.java:106-111 | without a login token nothing is sent or marked, the start notification never fires, the finished one does, and exactly the auth counter is incremented |
| SyncOrchestrator.EmptyFinishedListOnlyBrackets | synchronization/src/main/java/de/cyface/synchronization/SyncAdapter.java:128-133 | with no FINISHED measurement the listeners see exactly start then finish, nothing is sent and the statistics are unchanged |
| SyncOrchestrator.NoFinishedSelectsNothing | synchronization/src/main/java/de/cyface/synchronization/SyncAdapter.java:126 | a list without FINISHED measurements yields no candidate |
| SyncOrchestrator.FinishedExactlyOnce | synchronization/src/main/java/de/cyface/synchronization/SyncAdapter.java:102-202 | on every path the finished notification fires exactly once, last, and the start notification at most once, first; the try block changes the statistics only through sendData's writes; on top of those a caught exception bumps exactly its class's counter and sends one intent, and otherwise nothing more changes |
| SyncOrchestrator.Close | synchronization/src/main/java/de/cyface/synchronization/SyncAdapter.java:178-202 | the finally block appends exactly one finished notification after the events so far, on every path; a caught exception bumps exactly its class's counter on top of what sendData wrote and sends one intent; without one the statistics are what sendData wrote and no intent is sent; an escaping exception stays escaping; the sends and marks of the try block are kept |
| SyncOrchestrator.PerformSync | synchronization/src/main/java/de/cyface/synchronization/SyncAdapter.java:102-202 | every run ends with the finished notification; a run that does not reach the measurement list (no login token, no endpoint or device id, or a failed load) sends and marks nothing and its try block writes nothing into the statistics; an exception is either caught or escapes, never both |
| Surveyor.IsConnected | synchronization/src/main/java/de/cyface/synchronization/WiFiSurveyor.java:340-371 | syncable implies connected; missing capabilities (API level M and later) mean not syncable; with the flag off syncable is connected; with the flag on it is connected and unmetered (M and later) or connected and WiFi (before M) |
| Surveyor.RelaxingTheFlagOnlyAddsNetworks | synchronization/src/main/java/de/cyface/synchronization/WiFiSurveyor.java:354 | every network syncable with the flag on is syncable with it off |
| Surveyor.TestScenarios | synchronization/src/test/java/de/cyface/synchronization/WiFiSurveyorTest.java:84-110 | before M with the default flag: WiFi off is not syncable, WiFi on is; with the flag off, no network is not syncable and mobile on is |
| Surveyor.NewSurveyor | synchronization/src/main/java/de/cyface/synchronization/WiFiSurveyor.java:106-113 | a new surveyor has no account, is inactive and syncs on unmetered networks only |
| Surveyor.ScheduleSyncNow | synchronization/src/main/java/de/cyface/synchronization/WiFiSurveyor.java:185-197 | a request is issued exactly when there is an account and the network is syncable, and it is for that account, expedited and manual |
| Surveyor.OnReceive | synchronization/src/main/java/de/cyface/synchronization/WiFiSurveyor.java:199-232 | it throws exactly for an action-less broadcast with an account set; otherwise it changes at most the active flag, and a setSyncAutomatically call sets the new active value, which differs from the old one |
| Surveyor.OnReceiveTransitions | synchronization/src/main/java/de/cyface/synchronization/WiFiSurveyor.java:213-231 | for a connectivity broadcast: inactive on a syncable network with master sync on becomes active with auto-sync on; active on an unsyncable network becomes inactive with auto-sync off; the state changes in exactly these two cases, and otherwise no auto-sync call is made |
| Surveyor.OnReceiveIgnores | synchronization/src/main/java/de/cyface/synchronization/WiFiSurveyor.java:202-211 | without an account, or for another action, nothing changes |
| Surveyor.OnReceiveIsIdempotent | synchronization/src/main/java/de/cyface/synchronization/WiFiSurveyor.java:213-231 | receiving the same broadcast again in the same conditions changes nothing |
| Surveyor.ActiveTracksConnectivity | synchronization/src/main/java/de/cyface/synchronization/WiFiSurveyor.java:213-231 | with master sync on, after a connectivity broadcast the surveyor is active exactly when the network is syncable |
| Surveyor.GetAccount | synchronization/src/main/java/de/cyface/synchronization/WiFiSurveyor.java:323-333 | fails when the context is gone, before the accounts are looked at; otherwise succeeds exactly when there is one account of the type and returns it, with the no-account error exactly when there is none |
| Surveyor.RemoveAccount | synchronization/src/main/java/de/cyface/synchronization/WiFiSurveyor.java:253-257 | the removed account is gone, every other account stays and none is added |
| Surveyor.DeleteAccount | synchronization/src/main/java/de/cyface/synchronization/WiFiSurveyor.java:244-260 | fails exactly when the context is gone, and then clears and removes nothing; otherwise the current account is cleared and nothing else in the surveyor changes, the named account is removed and the others kept |
| Surveyor.NoSyncAfterDelete | synchronization/src/main/java/de/cyface/synchronization/WiFiSurveyor.java:186-189 | after a deleteAccount that went through, no immediate sync is requested on any network |
| Surveyor.StartSurveillance | synchronization/src/main/java/de/cyface/synchronization/WiFiSurveyor.java:131-137 | throws exactly when the context is gone; otherwise the account is set first, and a request is issued exactly when an account is given and the network is syncable, for that account |
| Surveyor.StopSurveillance | synchronization/src/main/java/de/cyface/synchronization/WiFiSurveyor.java:161-179 | throws exactly when the context is gone or the platform refuses to unregister, and for a gone context with the no-context error |
| Surveyor.SetSyncOnUnMeteredNetworkOnly | synchronization/src/main/java/de/cyface/synchronization/WiFiSurveyor.java:396-402 | the flag is stored even when the restart throws; the restart throws exactly when the context is gone or unregistering is refused; otherwise it requests a sync exactly when there is an account and the network is syncable under the new flag |
| Surveyor.FlagChangeReschedules | synchronization/src/main/java/de/cyface/synchronization/WiFiSurveyor.java:396-402 | a restart that goes through issues exactly the request scheduleSyncNow issues in the new state, and setting the same flag again changes nothing more |
| Surveyor.StartThenScheduleUsesNewAccount | synchronization/src/main/java/de/cyface/synchronization/WiFiSurveyor.java:136-137 | starting with an account on a syncable network issues the expedited manual request for that account |

## Left out

- Android framework calls are inputs or are left out: content resolver sync flags, periodic syncs and their one-hour interval, `setIsSyncable`, account creation, network-callback and broadcast-receiver registration, shared preferences and intents. `stopSurveillance` is kept only as its outcome: whether it throws, with the platform's refusal to unregister as an input. The model keeps their results (a boolean, an optional value, a thrown exception) and not their behaviour. `createAccount` and `makeAccountSyncable` are framework calls only and are not modelled.
- HTTP transport, JSON mappers, point serializers and the compressed measurement serializer are opaque. The transport's answer per slice (legacy) or per measurement (`sendData`) is a function in the environment. Serialization failures are an input. `buildMarkSyncedOperation` is modelled as deleting exactly the slice's rows.
- The windowed store queries the legacy adapter calls (`loadGeoLocations(start, end)`, `load3DPoint(serializer, start, end)`, `countData`) are not part of this model. Reads are modelled as offset/limit windows over a stable snapshot: the measurement's points as they stood when counted at the start of `syncMeasurement`. Deletions are applied to the store when the measurement's loop ends, so a later slice's window is not shifted by an earlier slice's deletes. In the code, window k+1 is read after slice k's points were deleted; if those loaders applied offset/limit to the live table, every second window's worth of points would be skipped. The four lines below name the theorems that rest on this assumption.
- LegacySync.SliceLoopPostsAndDeletes: assumes the stable snapshot reads above; under offset/limit over the live table the slices would not be the consecutive windows it states.
- LegacySync.FaultFreeLoopDeletesAll: assumes the stable snapshot reads above; it does not promise that every point is deleted when the loaders read the live table.
- LegacySync.FaultFreeMeasurementEmptiesIt: assumes the stable snapshot reads above; it does not promise an emptied measurement when the loaders read the live table.
- LegacySync.FaultFreeRunEmptiesEveryMeasurement: assumes the stable snapshot reads above, for every measurement of the run.
- The model reads the cursor's position through a model of the platform cursor (`moveToPosition` clamps to -1 and to the row count). The cursor's close calls and the `getColumnIndex` lookups are left out.
- `synchronized` blocks, the weakly held context and listener sets are concurrency and lifetime. The weak context is a boolean `contextAvailable`, and listeners are one ordered event list.
- `onReceive` calls `isConnected` twice. The model evaluates it once on one connectivity snapshot; the network is assumed not to change between the two calls.
- `countUnsyncedDataPoints` sums Java `long` values and `cleanMeasurement` sums `int` delete counts; the model uses unbounded integers for both, as no realistic store reaches the limits.
- The one-second timeout on the token futures is not modelled: the token answer (a token, no token, or an exception) is an input.
- `SyncPerformer.sendData` internals and the upload-progress callback (`onProgress(percent, id)`) are not part of this model.
- The error-message strings and log lines are left out. The one exception is the fresh-token log line, whose `substring(length - 7)` throws on a token shorter than seven characters; that is the `TokenTooShort` escape.
- The legacy slice loop's cursors are unbounded integers in the main model. The Java `int` wrap-around is modelled separately (`SliceAssembly.Int32CursorAt`) for the finding below.
- `fillMeasurementSlice` fills one template JSON object in place and returns that same object for every slice, so every listener notified with a slice holds a reference to the one object, which later slices overwrite. The model gives each slice as its own value (`SliceAssembly.FillSlice`); nothing in the modelled sync depends on the sharing, and what a listener sees after the next slice is filled is not modelled.
- LegacyPost.PostSlice: when a progress listener rejects a slice, the model records the progress notification as sent. It does not tell apart the listeners after the rejecting one in the listener set, which never receive it. An ungenerated post request is not a `PostSlice` outcome: the slice loop stops before the call (`LegacySync.UngeneratedRequestStopsLoop`), as the two exceptions above describe.
- SyncOrchestrator.SendEach: what `sendData` writes into the statistics is an input; its own contract states the size bounds and the statistics only; its behaviour (longest succeeding prefix, order, fresh tokens) is stated by SyncOrchestrator.MarkedIsLongestSucceedingPrefix.
- LegacySync.CountUnsyncedDataPoints: the cursor is promised back at its initial position only when the count succeeds over a non-empty cursor. On a failing count the exception leaves the cursor wherever the loop stood. On an empty cursor the early return skips the restore; the contract states instead that the run's first `moveToNext` finds no row.

## Findings

| source | as written | input that shows it | evidently intended | confidence | as-written member | corrected member |
|---|---|---|---|---|---|---|
| synchronization/src/cyface/java/de/cyface/synchronization/CyfaceSyncAdapter.java:223-226 | the four slice cursors are `int` and grow by their batch size, compared against `long` counts; near the top of the int range a cursor wraps to a negative value and stays below the count | 2147483647 GPS points with GPS batch size 2: the cursor goes 0, 2, ..., 2147483646, then wraps to -2147483648, and the loop never exits | cursors as wide as the counts (`long`), so the loop stops after ceil(count/batch) slices | not executed; needs about 2^31 stored points of one family, far beyond ordinary measurements | SliceAssembly.Int32LoopNeverExits | SliceAssembly.PlanSlices |
