# Grainlift: a verified model of its stateful core

Grainlift is a proxy for ADBC: one server process owns database sessions, statements, result cursors and
parameter uploads, and clients drive them over a request/response transport that may lose or repeat turns.
This project models the parts of it that keep state across calls, and proves what every run of them keeps.

| file | part |
|---|---|
| `SessionManager.dfy`, `SessionRuns.dfy` | the session registry: admission, leases, shutdown; first as code, then in every interleaving |
| `SessionWorker.dfy` | the bounded FIFO worker of a session, with callers that time out |
| `SessionResources.dfy`, `SessionHandles.dfy` | statements, results and uploads of a session; requests whose steps run on the worker |
| `StatementResults.dfy` | how many live results a statement has, for every order of operations |
| `ResultCursor.dfy`, `RemoteDelivery.dfy` | the one-deep replay window over a read-once reader, and the client reader at the other end |
| `BindUpload.dfy`, `BindExchange.dfy` | the upload actor, and parameter binding from the client's loop to the statement |
| `BoundedEncoding.dfy`, `IpcFraming.dfy`, `BufferBytes.dfy` | the bounded sink, the IPC framing check, the deduplicated buffer size |
| `PartitionTokens.dfy` | signed partition descriptors and the response budget |
| `ConnectionPool.dfy` | the weak pool of Iroh connections and the retry of `open_client` |
| `InfoReader.dfy` | the run-slicing info reader |
| `Prelude.dfy`, `Sums.dfy` | shared types, sums over maps |

Code that updates objects in place is a class or a loop and is proved against a function of the old state;
what the system promises is then proved about those functions. Concurrency is a machine of small actions,
each one a critical section or one access to a shared flag. An action that is not enabled changes nothing,
so every list of actions is a run and "every run" is a quantification over lists.

## Assumptions

- Session, statement, result and upload identifiers are fresh (random UUIDs in the code, counters here).
- No lock is poisoned and nothing panics; the clock behind leases is monotone.
- The Arrow codec is lossless and its writer frames messages as the format says (`Lossless`); the flatbuffer
  metadata is an uninterpreted function from metadata bytes to an optional body length; the keyed hash is an
  uninterpreted function to 32 bytes.
- The backend reader, the backend's outcomes, the clock, the network and the file system are parameters, and
  every result is for all values of them.
- Requests for one statement do not overlap (docs/adbc-protocol-review.md:106-108 allows ADBC drivers to demand
  this). Only `SessionHandles` assumes it. `StatementResults` does without: it says exactly when a statement has
  one result and when a closed one has none; `OverlapLeavesTwoResults` and `OverlappedCloseLeavesResult` show what
  the code does when requests overlap.

Where the code does less than one might expect, the model follows the code: a timed-out job that had already
started still takes effect and its handle is known to nobody; the last batch is no longer replayable after
the end of the stream; a reader that finds itself finished never looks at its pending queue; an upload turn
carries no number, so a repeated one is staged again.

## Model

| member | source | states |
|---|---|---|
| SessionWorker.PendingMoves | crates/grainlift-server/src/session.rs:147-193 | how each action moves the pending jobs: a call appends exactly when the queue of 32 has room, and only the oldest job ever leaves |
| SessionWorker.FifoKept | crates/grainlift-server/src/session.rs:147-193 | every action keeps "accepted jobs = finished jobs followed by pending jobs", each job being its caller's own operation |
| SessionWorker.ExplainedKept | crates/grainlift-server/src/session.rs:165-170 | every action keeps "the shared state and all results are those of running the finished jobs one after the other" |
| SessionWorker.RepliesKept | crates/grainlift-server/src/session.rs:165-191 | replies come only from executed jobs, answers only from replies, and the abandoned flags are exactly those of the callers that timed out |
| SessionWorker.PendingNotReplied | crates/grainlift-server/src/session.rs:165-170 | a pending job has no reply yet and belongs to a caller that was not refused, so no job can run twice |
| SessionWorker.RunKeeps | crates/grainlift-server/src/session.rs:147-193 | all three invariants hold after every list of actions |
| SessionWorker.Linearizable | crates/grainlift-server/src/session.rs:147-193 | in every run, under timeouts: finished jobs are a prefix of the accepted ones in acceptance order, none twice; the state is that of running them in order; every answered caller has the result of its own operation on the state left by all earlier jobs; a refused caller's job was never accepted; a flag is stored exactly for each caller that timed out |
| SessionWorker.AnswerFound | crates/grainlift-server/src/session.rs:179-181 | finds the execution that explains an answer, and no other dequeued job belongs to that caller |
| SessionWorker.AbandonedInTimeNeverRuns | crates/grainlift-server/src/session.rs:165-187 | in every run, the job of a caller that timed out before the worker reached it never runs, however the run goes on |
| SessionWorker.ReachedRuns | crates/grainlift-server/src/session.rs:165-170 | a job that the worker had reached runs to its end, whatever becomes of its caller |
| SessionWorker.CallExact | crates/grainlift-server/src/session.rs:172-178 | a caller waits exactly if the queue of 32 had room for its job, and is refused otherwise |
| SessionWorker.TimeoutExact | crates/grainlift-server/src/session.rs:179-190 | a caller whose deadline passes without a reply times out, its flag is stored, and nothing else changes |
| SessionWorker.OldestAbandonedIsSkipped | crates/grainlift-server/src/session.rs:165-168 | an idle worker passes over the oldest job if its caller has timed out, and the state is as before |
| SessionWorker.RefusedNeverRuns | crates/grainlift-server/src/session.rs:172-178 | the job of a "queue is full" caller never runs, in any continuation |
| SessionWorker.OldestJobIsServed | crates/grainlift-server/src/session.rs:150-170 | an idle worker takes the oldest live job, runs it on the current state and its waiting caller gets that result |
| SessionWorker.ServedAlone | crates/grainlift-server/src/session.rs:150-193 | a call on a worker with nothing else to do runs on the current state, is answered with its own result, and leaves the worker idle |
| SessionManager.Manager.CountOwned | crates/grainlift-server/src/session.rs:453-457 | counts exactly the registered sessions of a principal |
| SessionManager.Refusal | crates/grainlift-server/src/session.rs:449-465 | refuses exactly when sessions plus reservations reach the global or the principal's own limit, and reports a full registry first |
| SessionManager.Manager.CheckQuotas | crates/grainlift-server/src/session.rs:449-465 | counts and compares to exactly that refusal |
| SessionManager.Manager.CountReservation | crates/grainlift-server/src/session.rs:466-470 | the new registry is the old one with one more reservation of the principal |
| SessionManager.Manager.Admit | crates/grainlift-server/src/session.rs:442-472 | the second critical section: shutting down, refused with the right quota error, or exactly one reservation more |
| SessionManager.Manager.ReserveOpen | crates/grainlift-server/src/session.rs:435-472 | undisturbed, an open is admitted exactly while both quotas leave room after expired leases were swept; refused, it carries the error of the quota that is full and reserves nothing |
| SessionManager.Manager.ReleaseOpenReservation | crates/grainlift-server/src/session.rs:425-433 | the new registry is the old one with one reservation of the principal given back |
| SessionManager.Manager.PublishOpened | crates/grainlift-server/src/session.rs:402-413 | the reservation is given back in both cases; the session is registered exactly when the flag is clear |
| SessionManager.Manager.Get | crates/grainlift-server/src/session.rs:474-508 | the four outcomes (missing, foreign, lapsed, granted) with their errors and the new registry of each |
| SessionManager.Manager.Close | crates/grainlift-server/src/session.rs:510-529 | succeeds exactly for the owner and then removes exactly that session |
| SessionManager.Manager.ReapExpired | crates/grainlift-server/src/session.rs:534-562 | removes exactly the sessions nobody else holds whose lease has run out, and counts them |
| SessionManager.Manager.CloseAll | crates/grainlift-server/src/session.rs:566-577 | sets the flag, empties the map, and reports how many sessions it held |
| SessionRuns.ReleaseExact | crates/grainlift-server/src/session.rs:425-433 | in every state an open can release from, neither subtraction saturates, no zero counter is left, and the total stays the sum of the counters |
| SessionRuns.ReserveKeeps | crates/grainlift-server/src/session.rs:435-472 | a reservation keeps both limits and all counters exact |
| SessionRuns.LockKeeps | crates/grainlift-server/src/session.rs:402-411 | so does giving it back under the lock, the pending insert still counted against the limits |
| SessionRuns.InsertKeeps | crates/grainlift-server/src/session.rs:412-413 | so does the insert itself, which cannot break a limit |
| SessionRuns.NextAdmission | crates/grainlift-server/src/session.rs:326-577 | every action keeps the lock, counter, limit and shutdown invariants |
| SessionRuns.NextLifetimes | crates/grainlift-server/src/session.rs:326-577 | every action keeps "a created session has an owner or was destroyed, never both, and never twice" |
| SessionRuns.RunKeeps | crates/grainlift-server/src/session.rs:326-577 | both, after every list of actions |
| SessionRuns.AdmissionSafe | crates/grainlift-server/src/session.rs:326-472 | in every interleaving of opens, failures, closes and reaps: sessions plus reservations respect the global and the per-principal limit, the total equals the sum of the per-principal counters and the number of opens in flight, no zero counter is stored |
| SessionRuns.UndisturbedOpenRegisters | crates/grainlift-server/src/session.rs:326-414 | with fewer sessions plus reservations than both limits and no shutdown, the four actions of an open register exactly one new session and leave every counter as it was |
| SessionRuns.FailedOpenReleases | crates/grainlift-server/src/session.rs:367-373 | an open whose backend failed or timed out gives exactly its own reservation back and is over |
| SessionRuns.RefusedOpenLeavesNothing | crates/grainlift-server/src/session.rs:435-465 | an open that finds the flag stored or a limit reached reserves nothing and is over |
| SessionRuns.LateOpenIsDropped | crates/grainlift-server/src/session.rs:402-411 | an open that finds the flag stored when it has its connection gives its reservation back, registers nothing and destroys its session |
| SessionRuns.ShutdownIsTerminal | crates/grainlift-server/src/session.rs:566-577 | in any run: the flag is stored, anything happens, `close_all` takes the map; from then on the map is empty in every later state, even if another open had checked the flag before and inserts later |
| SessionRuns.LeavesExactlyWhen | crates/grainlift-server/src/session.rs:474-577 | a session leaves the registry if and only if its owner closes it, shutdown takes it, or a sweep or its owner's request finds it idle for longer than the lease with no other holder |
| SessionRuns.EntersExactlyWhen | crates/grainlift-server/src/session.rs:402-413 | a session enters the registry if and only if the open that holds it inserts it |
| SessionRuns.LeaseChangesOnlyByGet | crates/grainlift-server/src/session.rs:474-508 | a lease changes only by its owner's request |
| SessionRuns.IdleSessionIsReaped | crates/grainlift-server/src/session.rs:534-562 | a session that nobody uses for longer than its lease is gone after the next sweep |
| SessionRuns.GetExact | crates/grainlift-server/src/session.rs:474-508 | the owner's request on a session in flight or within its lease is always granted, renews the lease and takes a reference; otherwise the session is removed; a foreign request changes nothing |
| SessionRuns.DestroyedOnce | crates/grainlift-server/src/session.rs:500-577 | in every run no session is destroyed twice, a destroyed one is outside the registry and held by nobody, and every other created session still has an owner |
| SessionRuns.DropExact | crates/grainlift-server/src/session.rs:500-577 | dropping a reference destroys the session exactly if it was the last of all, and touches no other |
| SessionResources.Resources.NewStatement | crates/grainlift-server/src/session.rs:677-704 | refused exactly at the quota, the backend's error below it, otherwise exactly one new statement with its handle |
| SessionResources.Resources.RemoveStatement | crates/grainlift-server/src/session.rs:744-755 | removes exactly that statement, or reports it missing |
| SessionResources.Resources.UseStatement | crates/grainlift-server/src/session.rs:706-730 | not found exactly for an unknown statement, otherwise what the statement answers; nothing changes |
| SessionResources.Resources.InvalidateResults | crates/grainlift-server/src/session.rs:870-886 | keeps exactly the results of other owners |
| SessionResources.Resources.InsertOwnedResult | crates/grainlift-server/src/session.rs:888-919 | refused exactly at the quota, otherwise exactly one new result of that owner |
| SessionResources.Resources.ReadResult | crates/grainlift-server/src/session.rs:921-956 | not found exactly for an unknown result; nothing changes |
| SessionResources.Resources.CloseResult | crates/grainlift-server/src/session.rs:958-970 | removes exactly that result, or reports it missing |
| SessionResources.ApplyKeepsQuotas | crates/grainlift-server/src/session.rs:677-970 | every operation keeps the statement and result counts within quota and identifiers fresh |
| SessionResources.ResultLives | crates/grainlift-server/src/session.rs:870-970 | an inserted result stays, with its owner, exactly until something ends it, through every list of operations |
| SessionResources.ResultCleanupExact | crates/grainlift-server/src/service.rs:857-874 | a result is announced or gone, whatever the worker runs between insert and cleanup: a failed response takes away the handle just allocated and nothing else, for good; an announced result is there exactly if nothing has ended it meanwhile |
| SessionHandles.QuotasHold | crates/grainlift-server/src/session.rs:677-919 | the quotas hold in every state of every run of the worker, late effects of timed-out jobs included |
| SessionHandles.ApplyOn | crates/grainlift-server/src/session.rs:706-919 | what an operation can do to one statement: only its own insert adds a result, invalidation clears it, a removed statement never comes back |
| SessionHandles.SkipKeeps | crates/grainlift-server/src/session.rs:165-168 | skipping an abandoned job keeps the per-statement invariant |
| SessionHandles.ExecuteKeeps | crates/grainlift-server/src/session.rs:861-919 | running the oldest job keeps it: results and queued inserts of a statement are together at most one |
| SessionHandles.SubmitKeeps | crates/grainlift-server/src/service.rs:615-633 | queueing the next step of a request keeps it, because an insert is queued only behind a completed invalidation |
| SessionHandles.ResumeKeeps | crates/grainlift-server/src/session.rs:179-191 | going on after a reply, or giving up after an error or timeout, keeps it |
| SessionHandles.LocalKeeps | crates/grainlift-server/src/session.rs:756-842 | adding, taking and clearing uploads keeps it |
| SessionHandles.RoundTaken | crates/grainlift-server/src/session.rs:147-193 | one step of a request through the idle worker: the request goes on after a good reply and stops after any other |
| SessionHandles.RunKeeps | crates/grainlift-server/src/session.rs:677-919 | the invariant of worker, quotas and every statement holds after every list of actions |
| SessionHandles.OneLiveResult | crates/grainlift-server/src/session.rs:861-919 | in every run each statement owns at most one live result and both quotas hold, although timed-out jobs may take effect later |
| SessionHandles.ClosedIsGone | crates/grainlift-server/src/session.rs:744-842 | after `close_statement` returned success no registration, result, upload or queued insert of the statement exists in any later state, and every bind or execute on it is answered "not found" |
| SessionHandles.UnissuedIsClean | crates/grainlift-server/src/session.rs:677-919 | in every run a statement that has not been issued yet has no result, no upload and no queued insert |
| SessionHandles.StatementCleanupExact | crates/grainlift-server/src/service.rs:258-278 | in every run, and whatever runs in between without naming the new statement: closing the statement whose handle could not be returned takes back exactly it, and finds no result to invalidate and no upload to clear |
| SessionHandles.RequestAlone | crates/grainlift-server/src/service.rs:566-750 | every kind of request alone on an idle worker, whatever the session holds, as a run of the session: EXECUTE, update, prepare, close, start and finish of a bind each have exactly their stated effect on handles and uploads, have the worker perform exactly the stated operations, succeed exactly as stated, and change nothing else |
| SessionHandles.CloseAlone | crates/grainlift-server/src/session.rs:744-775 | a close alone: a registered statement ends closed and unregistered, its results and uploads are gone and everything else is as before; an unknown one is answered "not found" and nothing changes |
| SessionHandles.ResumeExact | crates/grainlift-server/src/session.rs:179-191 | a waiting request ends exactly if its call timed out or was answered with an error, and goes on exactly after a good answer |
| SessionHandles.FullQueueEndsRequest | crates/grainlift-server/src/session.rs:172-175 | a request whose call finds the queue of 32 full ends, and nothing was queued |
| SessionHandles.FailExact | crates/grainlift-server/src/service.rs:615-633 | an error met between two steps of a request ends that request and changes nothing else |
| SessionHandles.CancelExact | crates/grainlift-server/src/session.rs:844-852 | cancelling an upload takes away that upload and no other |
| SessionHandles.ExecuteReplacesResult | crates/grainlift-server/src/service.rs:615-627 | an EXECUTE alone, as a run of the session: an unknown statement or a failed execution only loses its results and stops there, a successful one replaces them by one new result unless the quota is reached; nothing else changes |
| StatementResults.LiveResult | crates/grainlift-server/src/session.rs:861-970 | for every list of executed operations: a result of a statement is live if and only if an insert granted it and neither an invalidation of the statement nor a close of the result has run since |
| StatementResults.LiveCount | crates/grainlift-server/src/session.rs:861-970 | so the number of live results of a statement is the number of its grants that nothing has ended since |
| StatementResults.OneResultIff | crates/grainlift-server/src/session.rs:861-919 | a statement has at most one live result after every operation if and only if, between any two grants to it, something ends the earlier result |
| StatementResults.WorkerOneResultIff | crates/grainlift-server/src/session.rs:147-193 | the same for every run of the worker, with overlapping requests, timeouts and late effects: exact count, and at most one result in every state if and only if the executed operations are so separated |
| StatementResults.RequestsSeparate | crates/grainlift-server/src/service.rs:615-633 | every run of requests that do not overlap on one statement is separated |
| StatementResults.OverlapLeavesTwoResults | crates/grainlift-server/src/service.rs:618-626 | two overlapping EXECUTEs on a registered statement: a run of the worker in which each request waits for every answer and meets no error, and which leaves two live results |
| StatementResults.ClearIff | crates/grainlift-server/src/session.rs:744-755 | for every list of executed operations: once invalidated, a statement stays without results if and only if no later insert is granted to it |
| StatementResults.ClosedStaysClearIff | crates/grainlift-server/src/session.rs:744-755 | the same for every run of the worker after the invalidation of a close, and every later state of it, overlapping requests included |
| StatementResults.OverlappedCloseLeavesResult | crates/grainlift-server/src/session.rs:744-919 | a close that runs between the execution and the insertion of an EXECUTE on the same statement: no request meets an error, and the closed statement is left with a live result |
| ResultCursor.ResultEntry.Next | crates/grainlift-server/src/session.rs:1013-1054 | window and answer after one request equal reading item k of the reader's fixed list through the window; the reader was pulled exactly as often as the window says |
| ResultCursor.ReplyExact | crates/grainlift-server/src/session.rs:1013-1054 | a request is refused if and only if it is outside the window; only the next item of a live stream pulls, once, and everything else changes nothing |
| ResultCursor.RunRefinesList | crates/grainlift-server/src/session.rs:1013-1054 | for every list of requests, every answer for k that is not a refusal is the k-th item, and all earlier items were batches |
| ResultCursor.RepeatsAgree | crates/grainlift-server/src/session.rs:1014-1023 | two answers for one sequence number never differ, however far apart |
| ResultCursor.ClosedWindowIsStable | crates/grainlift-server/src/session.rs:1019-1052 | the end and the terminal error are repeated for ever and never pull again |
| ResultCursor.NoSkipAhead | crates/grainlift-server/src/session.rs:1013-1054 | requests that do not run ahead of position c keep item c readable |
| ResultCursor.LastBatchNotReplayableAfterEnd | crates/grainlift-server/src/session.rs:1048-1052 | the last batch can be replayed exactly as long as the end has not been reached |
| RemoteDelivery.ResultProducer.Produce | crates/grainlift-server/src/service.rs:108-126 | a turn emits one batch with the next token, or finishes, or fails, never two of them, and the cursor moves only with a batch |
| RemoteDelivery.AfterNoise | crates/grainlift-server/src/session.rs:1013-1054 | repeated and delayed turns that do not run ahead leave the next item readable |
| RemoteDelivery.ServerTurn | crates/grainlift-server/src/service.rs:108-140 | after any other requests, a turn at cursor c carries exactly item c or an error; in step and undisturbed it fails only if the backend failed there |
| RemoteDelivery.RemoteReader.Open | crates/adbc-driver-grainlift/src/lib.rs:1319-1371 | a reader that opened is at the first batch, or finished because there is none; it fails over a byte stream only if the stream cannot be opened, and undisturbed over HTTP only with the backend's first error |
| RemoteDelivery.RemoteReader.Begin | crates/adbc-driver-grainlift/src/lib.rs:1354-1370 | what the reader keeps of any first turn |
| RemoteDelivery.RemoteReader.NextHttp | crates/adbc-driver-grainlift/src/lib.rs:1378-1402 | the pending batch, the end where there is no token, or the next turn; in a run of the real producer this is the backend's next batch, and a clean end is reported only at the backend's end |
| RemoteDelivery.RemoteReader.ResumeStream | crates/adbc-driver-grainlift/src/lib.rs:1389-1401 | one more turn at the continuation token, which is used up by asking |
| RemoteDelivery.RemoteReader.NextByte | crates/adbc-driver-grainlift/src/lib.rs:1403-1407 | the same over a byte stream |
| RemoteDelivery.RemoteReader.NextRemote | crates/adbc-driver-grainlift/src/lib.rs:1373-1409 | the same for both, and a finished reader asks nobody |
| RemoteDelivery.RemoteReader.Next | crates/adbc-driver-grainlift/src/lib.rs:1423-1432 | an error finishes the reader: after it nothing but the end is yielded |
| RemoteDelivery.ReadAll | crates/adbc-driver-grainlift/src/lib.rs:1318-1433 | for every backend, every lost or repeated turn and every other client: the yielded batches are a gap-free, duplicate-free prefix of the backend's, a clean end comes only after all of them, nothing follows an error; with nothing lost and nobody ahead the reader reproduces the backend exactly, its error included |
| RemoteDelivery.FirstTurnFate | crates/adbc-driver-grainlift/src/lib.rs:1356-1388 | for every first turn: its batch is lost if and only if the turn also finishes the stream, and a batch without a token ends the stream behind it, so delivery rests on the producer's discipline |
| BindUpload.UploadActor.Handle | crates/grainlift-server/src/bind_upload.rs:126-163 | every reply is that of the budgeted list on the command history, the byte counts of an over-limit error included |
| BindUpload.UploadActor.Stage | crates/grainlift-server/src/bind_upload.rs:128-151 | a push is refused with the earlier error, or written and then checked against the limit, as in the budgeted list |
| BindUpload.UploadActor.Conclude | crates/grainlift-server/src/bind_upload.rs:152-185 | the finish: the earlier error, a failed close, the limit with the terminator, a failed reopen, or the staged batches |
| BindUpload.Run | crates/grainlift-server/src/bind_upload.rs:107-200 | so is every reply of a whole command sequence, also when the file or the writer could not be set up |
| BindUpload.ErrorIsSticky | crates/grainlift-server/src/bind_upload.rs:129-149 | the first error of a history is the error of every longer history |
| BindUpload.RefusalIsFinal | crates/grainlift-server/src/bind_upload.rs:129-159 | after a refused push, every later push and the finish return that same error |
| BindUpload.CleanHistory | crates/grainlift-server/src/bind_upload.rs:126-151 | no error so far means that every command was a whole write, in order, within the limit |
| BindUpload.ReaderIsExact | crates/grainlift-server/src/bind_upload.rs:152-185 | a reader holds exactly the acknowledged batches in order, its file was closed and reopened, and all bytes with the terminator are within the limit, so an overshooting batch is on disk but never visible |
| BindUpload.FittingUploadSucceeds | crates/grainlift-server/src/bind_upload.rs:126-185 | conversely, whole writes that fit are all acknowledged and come back |
| BindUpload.PushReplyExact | crates/grainlift-server/src/bind_upload.rs:128-151 | behind acknowledged pushes: a push is refused for a failed write or for the byte limit, with that error, and acknowledged otherwise |
| BindUpload.FinishReplyExact | crates/grainlift-server/src/bind_upload.rs:152-185 | behind acknowledged pushes: the finish fails for a failed close, the byte limit or a failed reopen, in that order, and otherwise gives all pushed batches |
| BindUpload.FailedStartup | crates/grainlift-server/src/bind_upload.rs:108-122 | an upload that could not be started answers every push and the finish with that error |
| BindExchange.TurnRoundTrip | crates/grainlift-protocol/src/responses.rs:425-467 | a turn decodes to what was encoded or not at all, and exactly when it decodes; a batch never becomes a finish or another batch |
| BindExchange.ReadBindTurn | crates/grainlift-protocol/src/responses.rs:442-467 | any turn whatsoever: wrong row count, wrong schema, either field null, a finish with a payload, an unreadable payload, or its content |
| BindExchange.TurnAcceptedIff | crates/grainlift-protocol/src/responses.rs:442-467 | exactly which turns are accepted, as a finish and as a batch |
| BindExchange.BindSession.FinishUpload | crates/grainlift-server/src/session.rs:819-842 | the upload is gone afterwards; the statement is bound to exactly the staged batches or not at all, never after a failed close, reopen, read or refusal, in batch mode only if there is exactly one; success means bound in time |
| BindExchange.BindSession.PushUpload | crates/grainlift-server/src/session.rs:809-817 | an acknowledged push extends the staged batches by exactly that batch; with room and no fault it is acknowledged |
| BindExchange.BindSession.CancelUpload | crates/grainlift-server/src/session.rs:844-852 | the upload is gone and nothing is bound |
| BindExchange.BindSession.Exchange | crates/grainlift-server/src/service.rs:44-80 | one turn: a batch turn binds nothing and stages that batch or cancels the upload; the finish turn binds all staged batches or none; a turn that does not decode within the limit cancels the upload; without an upload nothing happens |
| BindExchange.BindSession.Copy | crates/grainlift-server/src/service.rs:32-80 | a repeated turn carries no number, so a repeated batch is staged once more and a repeated finish binds what is staged |
| BindExchange.BindSession.Repeated | crates/grainlift-server/src/service.rs:32-80 | so do any number of copies of any turns sent so far, in any order, and nothing is bound but by a copy of the finish |
| BindExchange.BindSession.Carry | crates/adbc-driver-grainlift/src/lib.rs:1121-1131 | the same through a transport that may repeat any earlier turn and lose the request or the reply: an acknowledgement means the turn took effect on exactly what had arrived before |
| BindExchange.ExactIffUnrepeated | crates/adbc-driver-grainlift/src/lib.rs:1081-1113 | what is staged at the finish is the input if and only if every batch turn took effect once |
| BindExchange.BoundExactly | crates/grainlift-server/src/session.rs:819-842 | a bind never has fewer batches than were sent; without repeats, or with a single batch, it is exactly what was sent |
| BindExchange.SendOne | crates/adbc-driver-grainlift/src/lib.rs:1085-1108 | a turn goes out only if both running totals, this batch included, are within the budget and the turn is within the size of a control message |
| BindExchange.SendNext | crates/adbc-driver-grainlift/src/lib.rs:1085-1109 | one pass of the loop extends what was sent and staged by exactly the next input batch, or ends it |
| BindExchange.SendBatches | crates/adbc-driver-grainlift/src/lib.rs:1081-1109 | what was sent is a prefix of the input within the budget; if all were acknowledged, exactly what arrived is staged |
| BindExchange.SendFinish | crates/adbc-driver-grainlift/src/lib.rs:1110-1112 | an acknowledged finish means the statement was bound to exactly what had arrived |
| BindExchange.BindBatches | crates/adbc-driver-grainlift/src/lib.rs:1064-1154 | for every input, budget, transport, writer and backend behaviour, lost and repeated turns included: the statement is bound at most once, and only to what arrived; success means it was bound to all of it, which is exactly the input if and only if every batch turn took effect once; in batch mode it is never bound to anything but the input, so a repeated turn makes the call fail; at every point the turns sent are within the budget in memory and encoded; and if everything fits and nothing fails the call succeeds |
| BindExchange.RepeatedTurnBindsTwice | crates/grainlift-server/src/service.rs:32-80 | in stream mode a repeated turn does get through: the client is told of success and the statement is bound to the batch twice |
| BoundedEncoding.BoundedBuffer.Write | crates/grainlift-protocol/src/responses.rs:221-238 | a write is taken whole if and only if it fits, otherwise nothing changes |
| BoundedEncoding.WriteEach | crates/grainlift-protocol/src/responses.rs:221-238 | for any list of writes, even past a refusal, the sink never exceeds its limit and holds exactly the accepted writes |
| BoundedEncoding.EncodeBatchIpc | crates/grainlift-protocol/src/responses.rs:241-255 | for any split of the stream into writes, encoding succeeds if and only if memory size and full encoded length are at most the limit, and yields the whole stream |
| BoundedEncoding.DecodeBatchIpc | crates/grainlift-protocol/src/responses.rs:302-315 | decoding succeeds exactly for a complete stream within the limit that holds one batch whose deduplicated buffers are within the limit |
| BoundedEncoding.EncodedIsFramed | crates/grainlift-protocol/src/responses.rs:241-299 | whatever the writer encodes passes the framing check |
| BoundedEncoding.EncodedDecodes | crates/grainlift-protocol/src/responses.rs:241-315 | what was encoded decodes to the same value exactly when stream and decoded buffers fit the receiver's limit, else not at all |
| BoundedEncoding.OnlyWholeStreamsDecode | crates/grainlift-protocol/src/responses.rs:301-315 | no proper prefix and no extension of an encoded batch decodes |
| BoundedEncoding.BoundedResponseIff | crates/grainlift-server/src/service.rs:894-903 | a response is given if and only if record and envelope both fit the limit in memory and encoded, and it is that envelope |
| IpcFraming.LeInjective | crates/grainlift-protocol/src/responses.rs:267-273 | a 32-bit little-endian word has one representation |
| IpcFraming.LittleEndian | crates/grainlift-protocol/src/responses.rs:267-273 | the first byte of a word is the least significant and the last carries the sign |
| IpcFraming.LengthIsRead | crates/grainlift-protocol/src/responses.rs:264-275 | four bytes that spell n, least significant first, are read as length n, with or without FF FF FF FF before them |
| IpcFraming.OneMessageAccepted | crates/grainlift-protocol/src/responses.rs:258-299 | a stream of one message in the current format, spelled out byte by byte, is accepted |
| IpcFraming.HeaderRejections | crates/grainlift-protocol/src/responses.rs:264-283 | truncated prefix, truncated continuation and negative length, each by the bytes that bring it about |
| IpcFraming.MetadataTruncated | crates/grainlift-protocol/src/responses.rs:284-289 | a length beyond the end of the bytes is reported as truncated metadata |
| IpcFraming.MetadataRejections | crates/grainlift-protocol/src/responses.rs:290-297 | unreadable metadata, a negative body length and a body beyond the end, each with its own error |
| IpcFraming.ReadLength | crates/grainlift-protocol/src/responses.rs:264-275 | the length prefix of a frame, behind its continuation marker if it has one, with both truncations |
| IpcFraming.ScanFrame | crates/grainlift-protocol/src/responses.rs:263-298 | one pass of the loop: the verdict, or the offset of the next frame, from which the verdict is the same |
| IpcFraming.ValidateIpc | crates/grainlift-protocol/src/responses.rs:258-299 | the loop terminates with all offsets in bounds and returns the verdict of the recursive check, error by error |
| IpcFraming.CheckSkipsFrame | crates/grainlift-protocol/src/responses.rs:263-298 | a well-formed frame is consumed whole and the verdict is that of what follows |
| IpcFraming.CheckOfEmit | crates/grainlift-protocol/src/responses.rs:258-299 | every output of the framing writer is accepted, and any byte behind its end marker is reported as trailing |
| IpcFraming.FirstFrame | crates/grainlift-protocol/src/responses.rs:263-298 | an accepted string that does not start with the end marker starts with a well-formed frame followed by an accepted string |
| IpcFraming.AcceptedIsWritten | crates/grainlift-protocol/src/responses.rs:258-299 | every accepted string is an output of the framing writer |
| IpcFraming.AcceptsExactlyStreams | crates/grainlift-protocol/src/responses.rs:258-299 | accepted if and only if zero or more complete messages, one end marker, nothing behind it |
| IpcFraming.PrefixFree | crates/grainlift-protocol/src/responses.rs:276-282 | no proper extension of an accepted string is accepted |
| IpcFraming.FrameSplitsOneWay | crates/grainlift-protocol/src/responses.rs:263-298 | a string splits into first frame and rest in one way |
| IpcFraming.FramingInjective | crates/grainlift-protocol/src/responses.rs:258-299 | one byte string has one list of messages and one kind of end marker |
| BufferBytes.Visit | crates/grainlift-protocol/src/responses.rs:319-336 | visiting an array adds exactly its buffers, its null mask and those of its children to the table of largest extents |
| BufferBytes.VisitAll | crates/grainlift-protocol/src/responses.rs:333-340 | the same for a list of arrays |
| BufferBytes.Total | crates/grainlift-protocol/src/responses.rs:341-343 | the fold is the saturated sum of the table, in whatever order it is walked |
| BufferBytes.BatchBufferBytes | crates/grainlift-protocol/src/responses.rs:318-344 | the saturated sum, over distinct allocation addresses, of the largest extent seen at that address |
| BufferBytes.TableCoversTree | crates/grainlift-protocol/src/responses.rs:319-336 | every buffer and null mask anywhere in the columns counts at its address with its capacity and its saturated end |
| BufferBytes.TableComesFromTree | crates/grainlift-protocol/src/responses.rs:319-336 | every size in the table is the larger of capacity and saturated end of some buffer or null mask in the columns |
| BufferBytes.TableIsUnique | crates/grainlift-protocol/src/responses.rs:328-331 | the set of buffers alone decides the table |
| BufferBytes.OnlyAllocationsMatter | crates/grainlift-protocol/src/responses.rs:318-344 | sharing and nesting do not change the size |
| BufferBytes.ColumnOrderIrrelevant | crates/grainlift-protocol/src/responses.rs:337-340 | neither does reordering or repeating columns |
| PartitionTokens.PreimageInjective | crates/grainlift-server/src/partitions.rs:56-60 | the owner preimage is injective for NUL-free targets, although principals may contain NULs |
| PartitionTokens.HexInjective | crates/grainlift-server/src/partitions.rs:60-64 | the hexadecimal owner determines the hash |
| PartitionTokens.HexText | crates/grainlift-server/src/partitions.rs:60-64 | the owner is written as two lower-case digits per byte, the high half first |
| PartitionTokens.TokenParts | crates/grainlift-server/src/partitions.rs:83-86 | a token splits back into magic, tag and payload |
| PartitionTokens.SealIff | crates/grainlift-server/src/partitions.rs:67-88 | sealing succeeds if and only if the expiry is a 64-bit time and the claims fit behind the 36-byte header |
| PartitionTokens.SealedTokenOpens | crates/grainlift-server/src/partitions.rs:67-112 | a sealed token opens to its own descriptor if and only if it is presented in time, with room for it, by an owner with the same hash; otherwise it does not open |
| PartitionTokens.OnlyOwnerOpens | crates/grainlift-server/src/partitions.rs:90-112 | where the hash separates the two preimages, only the sealing target and principal open the token |
| PartitionTokens.OpenIff | crates/grainlift-server/src/partitions.rs:90-112 | any byte string whatsoever opens if and only if it is the magic, the tag of its payload and the payload, which decodes within the limit to unexpired claims of version 1 for this owner; the answer is their descriptor |
| PartitionTokens.TamperedTokenFails | crates/grainlift-server/src/partitions.rs:97-102 | a payload opens under no other 36 bytes than the magic and its own tag |
| PartitionTokens.AlteredPayloadFails | crates/grainlift-server/src/partitions.rs:100-102 | another payload does not open under the tag of the first, wherever the hash separates the two |
| PartitionTokens.SealedSize | crates/grainlift-server/src/partitions.rs:67-88 | a token's size is within its cost and its limit, and it opens to its descriptor |
| PartitionTokens.SealNext | crates/grainlift-server/src/service.rs:709-717 | a token, its overhead included, fits what is left of the limit and opens to its descriptor; a descriptor whose cost fits is sealed |
| PartitionTokens.SealPartitions | crates/grainlift-server/src/service.rs:703-717 | on success the schema, every token and its overhead sum to at most the response limit and token i opens to descriptor i; and if the descriptors' total cost fits, it succeeds |
| PartitionTokens.ExecutePartitions | crates/grainlift-server/src/service.rs:703-729 | in addition the affected row count is valid and the response record and its envelope fit the limit; once the tokens fit, the response fails only if one of these does not hold |
| ConnectionPool.WeakPool.AcquireSlot | crates/adbc-driver-grainlift/src/iroh_pool.rs:127-141 | dead entries are swept; the live slot of the key is returned, or the new one is registered |
| ConnectionPool.WeakPool.Invalidate | crates/adbc-driver-grainlift/src/iroh_pool.rs:146-155 | the entry of the key is removed only while it is the expected live slot |
| ConnectionPool.AcquireKeeps | crates/adbc-driver-grainlift/src/iroh_pool.rs:118-141 | acquiring keeps the invariant of entries, slots and callers |
| ConnectionPool.BeginInitKeeps | crates/adbc-driver-grainlift/src/iroh_pool.rs:142 | so does starting the initializer of an empty slot |
| ConnectionPool.EndInitKeeps | crates/adbc-driver-grainlift/src/iroh_pool.rs:142-143 | so does its success or failure |
| ConnectionPool.InvalidateKeeps | crates/adbc-driver-grainlift/src/iroh_pool.rs:146-155 | so does an invalidation |
| ConnectionPool.NextKeeps | crates/adbc-driver-grainlift/src/iroh_pool.rs:118-261 | so does every action of every caller |
| ConnectionPool.RunKeeps | crates/adbc-driver-grainlift/src/iroh_pool.rs:118-261 | so does every list of actions |
| ConnectionPool.PoolSafety | crates/adbc-driver-grainlift/src/iroh_pool.rs:118-261 | in every interleaving: an initializer runs at most once per slot; a held slot is the registered one of its key or was explicitly invalidated, so two live slots of a key are never both valid; a leased slot is initialized; the second attempt of `open_client` never holds the slot whose stream open failed |
| ConnectionPool.InvalidationIsPrecise | crates/adbc-driver-grainlift/src/iroh_pool.rs:146-155 | invalidation never removes a newer slot or another key and marks only its own slot |
| ConnectionPool.UnheldKeyStartsOver | crates/adbc-driver-grainlift/src/iroh_pool.rs:127-141 | once nobody holds a key the next acquirer gets a new, uninitialized slot, so a failed initialization does not block it |
| ConnectionPool.HeldKeyIsShared | crates/adbc-driver-grainlift/src/iroh_pool.rs:132-133 | a key with a valid live slot is shared and no slot is created |
| ConnectionPool.SlotsAreSetOnce | crates/adbc-driver-grainlift/src/iroh_pool.rs:142 | a slot's outcome and its invalidation survive every later action |
| ConnectionPool.InvalidatedNeverReturns | crates/adbc-driver-grainlift/src/iroh_pool.rs:236-261 | an invalidated slot is never handed out again, in any later state |
| ConnectionPool.FailedStreamRetries | crates/adbc-driver-grainlift/src/iroh_pool.rs:253-258 | a first stream that fails is retried on another slot: the failed one is invalidated and no longer registered |
| ConnectionPool.ReturnsExactlyWhen | crates/adbc-driver-grainlift/src/iroh_pool.rs:236-261 | a call ends without a connection if and only if an initializer failed or its second stream failed, and gives one back only by releasing it |
| ConnectionPool.LeasesExactlyWhen | crates/adbc-driver-grainlift/src/iroh_pool.rs:246-252 | a call has a connection if and only if it opened a stream on the initialized slot that it holds |
| ConnectionPool.AcquiredIsRegistered | crates/adbc-driver-grainlift/src/iroh_pool.rs:127-141 | acquiring gives the registered slot of the key and leaves no entry of a slot that nobody holds |
| ConnectionPool.InitializerDecides | crates/adbc-driver-grainlift/src/iroh_pool.rs:142-143 | the outcome of the initializer is everybody's: each holder goes on or returns with it |
| ConnectionPool.OthersWaitForInitializer | crates/adbc-driver-grainlift/src/iroh_pool.rs:142 | while it runs, no other holder goes on or starts another |
| ConnectionPool.FreshCallLeases | crates/adbc-driver-grainlift/src/iroh_pool.rs:236-252 | a call for a key that nobody holds, with a good initializer and a good stream, ends with a lease on a new slot |
| ConnectionPool.SharedCallLeases | crates/adbc-driver-grainlift/src/iroh_pool.rs:236-252 | a call for a key with a valid initialized slot and a good stream shares it, and no initializer runs |
| InfoReader.SliceRuns | crates/adbc-driver-grainlift/src/lib.rs:462-475 | the slices joined are the rows whose code is not a driver code, in order, and none is empty |
| InfoReader.TakeItem | crates/adbc-driver-grainlift/src/lib.rs:448-479 | queueing the slices of one downstream batch loses and adds nothing |
| InfoReader.QueuedIsJoined | crates/adbc-driver-grainlift/src/lib.rs:444-446 | what is queued is observed before, and apart from, what is still downstream |
| InfoReader.GrainliftInfoReader.Next | crates/adbc-driver-grainlift/src/lib.rs:440-480 | what is yielded followed by what remains is what remained before; the end means that nothing remains |
| InfoReader.GrainliftInfoReader.NextFromDownstream | crates/adbc-driver-grainlift/src/lib.rs:448-479 | the same for the loop that skips batches without kept rows; no empty slice |
| InfoReader.ReadAll | crates/adbc-driver-grainlift/src/lib.rs:437-481 | a whole traversal observes the client's own rows, then the filtered downstream rows in order with errors in place, and no empty slice |

## Left out

- ResultCursor.ResultEntry.Next: sequence numbers are unbounded; the code's are 64-bit and would overflow after 2^63 batches.
- BindUpload.UploadActor.Handle: errors carry the figures of their message beside its text; what Arrow puts on disk is batches and byte counts.
- BindExchange.ReadBindTurn: every reason why a payload cannot be decoded gives the same error here.
- SessionResources.ResultCleanupExact: the cleanup call itself is taken to complete; the code ignores its failure.
- SessionManager.Manager.ReserveOpen: is one undisturbed call; the sweep and the admission are two critical sections, which `SessionRuns` interleaves with everything else.
- PartitionTokens.SealPartitions: a system clock before 1970 is not modelled.
- IpcFraming.ValidateIpc: the address arithmetic cannot overflow on unbounded integers, so the code's overflow errors do not appear.
- SessionWorker.Linearizable: the worker, its channel and its callers are values, because all of them act at once; update in place and aliasing are not captured there, nor is a worker that stopped.
- SessionHandles.ClosedIsGone: the request handlers are step lists over the worker; pushing batches into an upload is modelled in `BindExchange` instead.
- ConnectionPool.PoolSafety: callers and slots are values in the interleaved machine; the two critical sections themselves are the methods of `WeakPool`.
- Target authorization, target lookup and client option policy: independent simple checks before the modelled core.
- Server start-up, configuration, TLS, HTTP, TCP and Iroh transports, telemetry.
- Backend wrappers and the metadata, option and transaction handlers, which forward to the foreign driver.
- Native cancellation, cleanup threads, thread spawning failures, lock poisoning.
- The number of uploads of a session, which the code does not limit.
- Arrow array contents, flatbuffer parsing, HMAC and SHA-256 internals, status names, schema constructors, base64.
- Liveness beyond the stated "if everything fits and nothing fails, it succeeds" results: no fairness of the scheduler is assumed.
- The Python harnesses, load tools and examples of the repository.
