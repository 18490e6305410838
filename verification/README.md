# Verified model of the workspace platform's core

A control plane and an agent host share a Postgres database.  The control plane lets users open
workspaces and watch their sessions in a browser; the agent host runs the turns, writes every event
to the durable log and resumes sessions from it after a restart.  This project models the code that
those promises rest on and proves them for every input, every run and every interleaving of its
steps.  `dafny verify dfyconfig.toml` checks all of it.

## What is modelled

* **Event log to browser page** (`EventLog`, `SseOutput`, `LineFraming`, `SseParser`, `SseNumbers`,
  `SseFormat`, `Delivery`, `PageLoops`, `JsNumbers`). Append transactions as interleaved SQL
  statements with aborts; the stream endpoint; the wire text cut at any character; the incremental
  parser; the page that resumes from its cursor. The end result is one theorem over the whole
  system: the page shows exactly the first `maxSeq + 1` rows of the log. Findings: the parent-row
  lock is not what keeps the log contiguous (the primary key alone does; the lock only keeps appends
  from failing), and formatting then parsing is the identity exactly when event types hold no
  newline and do not end in a carriage return; connecting while a disconnected loop still waits to
  reconnect can leave two loops running, which show rows twice, and is the only click that can.
* **Session replay** (`ReplayOrder`, `Replay`, `ReplayMeaning`). The reordering of stored rows, the
  renumbering, and the resolution of citations by rank. The replay order is characterised without
  the code's queue and flag; the logs that replay are characterised on stored rows alone; a replayed
  citation denotes the live event that was cited exactly when that event cites its nearest citable
  predecessors. Parallel tool calls break that premise, and such a log replays with a wrong citation
  instead of failing.
* **Controller lease** (`Lease`, `LeaseMutex`, `LeaseProtocol`, `LeaseAlone`, `LeaseRenewal`,
  `LeaseTiming`, `LeaseTicks`, `Timestamps`). The service calls over their store, then any number of
  processes whose clock readings, reads and conditional writes interleave, with opens that share a
  lease and hosts that adopt it, and the renewal loop; without interference the interleaved steps
  are proved to do what each call promises. Findings: a stale heartbeat can revive an expired lease
  (exactly when it read the clock before the expiry) and can move an expiry back (exactly when its
  clock reading is older than the row's last write); the exact condition on delays and failures
  under which the loop holds its lease, which is that no two consecutive ticks miss if every attempt
  ends within its interval; a re-acquire that finds the runtime not READY leaves the host failed
  through any number of later renewals; a stopped loop's tick under way can still report READY, and
  nothing else of it can; the production stores read instants back in whole seconds, so in the last
  second of a lease an open throws and a host is refused its own lease.
* **Approval bridge and append chains** (`Approvals`, `ApprovalRaces`, `ApprovalOrder`,
  `AppendChain`). A decision before or after its ask, with any events in between. Findings: an early
  decision by a known asked id settles another, call-less ask of the session if one is pending; an
  early decision is lost exactly if its id is not yet linked to the call or reaches another ask, and
  always for an ask without a call id; one parked decision can settle two asks, exactly when it is
  parked under two keys.
* **Auth session stores** (`AuthStores`, `AuthClock`, `Timestamps`). The in-memory and the Postgres
  store give the same answers although they delete rows at different times, but for the instants of
  a found session, which PostgreSQL gives back in whole seconds. A clock that goes back tells them
  apart exactly when it goes back across an expiry.
* **Failure marks** (`RestoreMarks`). The two compare-and-set writers against arbitrary other
  writers, with the two age judgments. Finding: the mark may hit a fresh generation that replaced
  the judged one, exactly when the row was written in between and is coming up again.
* **Connection strings, output window, instance sweep** (`StringSearch`, `DsnText`, `Dsn`,
  `DsnRoundTrip`, `DsnReadBack`, `BunEnvironment`, `OutputWindow`, `InstanceGc`). Finding: with the
  database in a parameter, a password is cut short exactly when it holds an `@` before its first `/`
  or right before some `/`; in the documented form the parts are read back exactly when no raw `?`
  or `#` stands in the password.

Time is an integer number of milliseconds.  Random ids and tokens, clock readings, replies of other
services and everything the network does are parameters or actions of the machines.

## Model

| member | source | states |
|---|---|---|
| EventLog.GapCheckIsContiguity | packages/session-persistence-postgres/src/repository.ts:531-538 | the check on positions passes exactly when no number below the largest is missing |
| EventLog.FindGap | packages/session-persistence-postgres/src/repository.ts:531-538 | reports the first row that does not carry its own position, or none exactly when all do |
| EventLog.AppendedIsContiguous | packages/session-persistence-postgres/src/repository.ts:413-483 | numbering a batch from the maximum on keeps a contiguous log contiguous, reads back as the old log and then the batch, and cannot repair a broken log |
| EventLog.SessionEvents.Append | packages/session-persistence-postgres/src/repository.ts:413-483 | succeeds exactly for an empty batch or an existing session with a contiguous log, and then inserts exactly the numbered batch; otherwise nothing changes, and the first gap is reported |
| EventLog.SessionEvents.CheckContiguous | packages/session-persistence-postgres/src/repository.ts:531-538 | passes exactly on a contiguous log, and otherwise names its first gap |
| EventLog.FirstMisnumberedIsTheGap | packages/session-persistence-postgres/src/repository.ts:531-538 | the first misnumbered row names the lowest missing number and the next stored one |
| EventLog.ReadsAll | packages/session-persistence-postgres/src/repository.ts:485-499 | a read misses no row of its range, whatever is missing in between |
| EventLog.ContiguousReads | packages/session-persistence-postgres/src/repository.ts:485-499 | a read from a cursor returns exactly the rows from the cursor on, in order |
| EventLog.LogIsAlwaysContiguous | packages/session-persistence-postgres/src/repository.ts:413-483 | whatever is interleaved or aborted, the committed log is numbered 0 to n-1 and the in-transaction gap check never fires; with the row lock no append fails at all |
| EventLog.AppendAlone | packages/session-persistence-postgres/src/repository.ts:413-483 | with the lock free an append can go on to commit exactly its batch, numbered on from the last row, and gives the lock back |
| EventLog.LockedAppendCommits | packages/session-persistence-postgres/src/repository.ts:413-483 | the same from any point of an append that holds the lock, whoever waits for it |
| EventLog.BatchIsKept | packages/session-persistence-postgres/src/repository.ts:413-483 | no statement of anyone changes what an append has inserted and has still to insert, taken together |
| EventLog.ReceiptsPartitionTheLog | packages/session-persistence-postgres/src/repository.ts:413-483 | the ranges returned by committed appends are consecutive, disjoint and make up the log |
| EventLog.ReadersSeePrefixes | packages/session-persistence-postgres/src/repository.ts:485-499 | an earlier read is a prefix of every later one |
| EventLog.WithoutTheLockAppendsCanFail | packages/session-persistence-postgres/src/repository.ts:402-412 | without the parent-row lock two appends can pick the same number and one is refused |
| LineFraming.FeedIsChars | apps/control-plane/public/sse.js:66-72 | splitting a chunk into lines and holding back the rest equals a character-by-character automaton, for every parser value |
| LineFraming.ChunkingIsUnobservable | apps/control-plane/public/sse.js:61-96 | any text fed in any pieces gives the final state, events, gaps and duplicates of feeding it whole |
| LineFraming.NoChunksIsNoText | apps/control-plane/public/sse.js:66-72 | feeding nothing agrees with feeding the empty text exactly when no whole line is held back |
| LineFraming.FeedHoldsNoNewline | apps/control-plane/public/sse.js:68-71 | what a call holds back never contains a newline |
| SseParsing.SseParser.ParseSseChunks | apps/control-plane/public/sse.js:66-96 | the mutable parser's call is one step of the framing over the field grammar, in state and output |
| SseParsing.SseParser.DispatchPending | apps/control-plane/public/sse.js:28-59 | dispatch, duplicate and gap bookkeeping of one blank line, on the parser's own fields |
| SseParsing.CharsTrackLastNumber | apps/control-plane/public/sse.js:48-58 | the number kept for duplicate and gap detection is that of the last numbered event handed out |
| SseParsing.FieldIs | apps/control-plane/public/sse.js:77-92 | what each field name does, with or without a colon, and that any other does nothing |
| SseParsing.JoinedLines | apps/control-plane/public/sse.js:39 | data lines are joined by newlines, and are those lines again when split |
| SseNumbers.NumbersRiseAndGapsAreExact | apps/control-plane/public/sse.js:48-58 | for any text the numbers handed out rise strictly above the remembered one, the gaps are exactly the ranges they leave out, and what is dropped and counted is exactly what would not rise |
| SseFormatting.StreamReadsBack | apps/control-plane/src/sse.ts:30-33 | consecutively numbered rows with comments between them parse to their arrivals with no gap and no duplicate |
| SseFormatting.RoundTripIffWireSafe | apps/control-plane/src/sse.ts:30-33 | formatting then parsing is the identity exactly when every type has no newline and no trailing carriage return |
| SseFormatting.FeedKeepsTypesClean | apps/control-plane/public/sse.js:72-92 | no parsed event type ever holds a newline, whatever the text |
| SseFormatting.WireText | apps/control-plane/src/sse.ts:30-33 | the text of a row on the wire, to the character |
| Delivery.EventPage.StartLoop | apps/control-plane/public/app.js:355-362 | a (re)connect uses a fresh parser seeded from the highest number seen and asks for the next one |
| Delivery.EventPage.OnChunk | apps/control-plane/public/app.js:376-387 | a chunk updates cursor, list, gaps and duplicates exactly as one parser step does |
| Delivery.EventPage.Render | apps/control-plane/public/app.js:381-385 | appends a chunk's events in order and raises the cursor to the highest number among them |
| Delivery.StreamEndpoint.Poll | apps/control-plane/src/sse.ts:95-102 | a poll writes its rows, one item each with the row's number, type and data, in order, and moves the cursor to the last of them |
| Delivery.PollRunsTheSystem | apps/control-plane/src/sse.ts:95-102 | a poll on what it reads from its cursor on is the system's poll and all its writes, so that the theorems below are about this loop |
| Delivery.PieceOfStream | apps/control-plane/src/sse.ts:91-119 | however much of a stream has arrived, it has given the rows from its cursor on, in order, with nothing reported missing or repeated |
| Delivery.PageShowsExactPrefix | apps/control-plane/public/app.js:355-429 | in every state of every run whose log is so far fit for the wire, the page shows exactly the first maxSeq+1 rows of the log, each once, in order, with no gap and no duplicate |
| Delivery.CaughtUpPageShowsWholeLog | apps/control-plane/public/app.js:355-429 | a page that has read all that a current stream holds shows the whole log, if that is fit for the wire, whatever was cut before |
| Delivery.PageCanCatchUp | apps/control-plane/public/app.js:355-429 | whatever has been cut, a new connection, one poll and the arrival of what it wrote show the whole log |
| PageLoops.CarefulPageShowsPrefix | apps/control-plane/public/app.js:397-441 | with manual disconnects and connects, but no connect while a disconnected loop still waits to reconnect, the page always shows exactly a prefix of the log, however streams fail |
| PageLoops.ConnectCanSpoilIff | apps/control-plane/public/app.js:409-428 | a connect on such a page can come to show a row twice, even with careful clicks from then on, exactly when a disconnected loop still waits to reconnect |
| PageLoops.DisconnectDuringTheWait | apps/control-plane/public/app.js:397-441 | a run in which a disconnect during the wait leaves such a loop, so that a connect can spoil the page |
| PageLoops.DisconnectStops | apps/control-plane/public/app.js:431-441 | a disconnect ends the current loop, unless it waits to reconnect, and then leaves it waiting |
| PageLoops.DisconnectedShowsNothingMore | apps/control-plane/public/app.js:431-441 | until the next connect nothing more is shown |
| PageLoops.WokenLoopResumes | apps/control-plane/public/app.js:409-428 | a current loop that was not disconnected fetches again from maxSeq+1 when it wakes |
| PageLoops.ConnectedPageCanCatchUp | apps/control-plane/public/app.js:409-428 | a connected page with careful clicks can come to show every stored row without a further click |
| ReplayOrder.OrderRows | apps/agent-host/src/session-persistence.ts:298-336 | the loop with its arrays and flag computes the scan the properties below are about |
| ReplayOrder.PushUsers | apps/agent-host/src/session-persistence.ts:328-336 | pushes the queued messages in order |
| ReplayOrder.OrderedIsSorted | apps/agent-host/src/session-persistence.ts:298-336 | the replay order holds exactly the kept rows, each once, sorted by the row they are placed with |
| ReplayOrder.FaithfulReordering | apps/agent-host/src/session-persistence.ts:26-35 | verbatim rows keep their order, messages keep theirs and only move later |
| ReplayOrder.MessageFollowsItsStep | apps/agent-host/src/session-persistence.ts:26-35 | a message stands right after the earliest later step that is first in its turn, or in a tail of messages if there is none |
| Replay.WalkBack | apps/agent-host/src/session-persistence.ts:373-380 | the backward walk finds the nearest citable positions before the citer, ascending |
| Replay.RemapCitations | apps/agent-host/src/session-persistence.ts:345-387 | checks and errors of a citation list in the code's order, then resolution by rank |
| Replay.CheckShapeIs | apps/agent-host/src/session-persistence.ts:350-371 | a citation list is refused as no list or empty, as holding a non-integer, or as not strictly ascending, in that order, and otherwise passes |
| Replay.CheckSurfaceOpIs | apps/agent-host/src/session-persistence.ts:479-497 | a malformed operation and a replace are refused, each with its error, and nothing else |
| Replay.CitableRowIs | apps/agent-host/src/session-persistence.ts:338-344 | which rows are counted, by type |
| Replay.NearestSkipsNone | apps/agent-host/src/session-persistence.ts:373-380 | the walk passes over no citable position nearer than the ones it takes, and takes all if there are too few |
| Replay.ConvertRow | apps/agent-host/src/session-persistence.ts:389-411 | converts one row or fails with the first of its errors |
| Replay.Load | apps/agent-host/src/session-persistence.ts:283-336 | refuses at the first gap; on a contiguous log yields the replay or the first row's failure |
| ReplayMeaning.NearestMatches | apps/agent-host/src/session-persistence.ts:373-380 | rank is invariant: an order-preserving match of citable positions carries nearest positions to nearest positions |
| ReplayMeaning.RemapByRank | apps/agent-host/src/session-persistence.ts:345-387 | a citation list resolves exactly when it is a non-empty, strictly ascending list of integers, enough citable rows precede it and the nearest ones are of the right kind, and then to their positions; otherwise it fails with the first of those conditions that does not hold |
| ReplayMeaning.ReplaysIffEveryRowOk | apps/agent-host/src/session-persistence.ts:293-336 | a contiguous log replays exactly when each row passes conditions on the stored log alone: text content for a message, and for a kept row its citations as above and no malformed or replacing operation |
| ReplayMeaning.FirstRefusalIsReported | apps/agent-host/src/session-persistence.ts:389-411 | a contiguous log that does not replay fails with the error of the first refused item of the replay order, and which error that is |
| ReplayMeaning.ChunkedMessageReplays | apps/agent-host/src/session-persistence.ts:362-387 | a log of two chunks and the message that cites both replays, the message citing both |
| ReplayMeaning.ReplayedRowsAreFaithful | apps/agent-host/src/session-persistence.ts:389-411 | the output is numbered 0 to m-1 and keeps every row's type, time, data and placement, and every message's text and origin |
| ReplayMeaning.CitationsDenoteNearestRows | apps/agent-host/src/session-persistence.ts:338-387 | every replayed citation is an earlier position holding the citable row of the same rank |
| ReplayMeaning.ReplayPreservesCitationsIff | apps/agent-host/src/session-persistence.ts:36-44 | a replayed event cites the images of what its live event cited exactly when that event cites its nearest citable predecessors |
| ReplayMeaning.CitationsDenoteNearestLive | apps/agent-host/src/turn.ts:422-426 | with messages filtered out and control rows interleaved anywhere, citations denote the images of the nearest citable live events |
| ReplayMeaning.ParallelCallsAreMisCited | apps/agent-host/src/session-persistence.ts:36-44 | with two calls open at once a stored log replays with a result citing the other call |
| ReplayMeaning.PlacedItemsStay | apps/agent-host/src/session-persistence.ts:306-336 | appending rows moves no placed item; only unconsumed trailing messages are not placed |
| ReplayMeaning.ReplayIsIncremental | apps/agent-host/src/session-persistence.ts:306-411 | if the longer log replays so does the shorter, and every placed event keeps its number and its citations |
| Lease.InMemoryLeaseStore.UpsertIfExpired | packages/controller-lease/src/testing.ts:81-98 | inserts or replaces exactly when no unexpired lease is held, and otherwise writes nothing |
| Lease.InMemoryLeaseStore.ExtendIfOwner | packages/controller-lease/src/testing.ts:100-127 | extends exactly an unexpired lease of the caller, keeps controller and user, and otherwise writes nothing |
| Lease.InMemoryLeaseStore.Transaction | packages/controller-lease/src/testing.ts:46-79 | a transaction that throws leaves the table as it was before, whatever it had written; one that returns keeps its writes |
| Lease.InMemoryLeaseStore.Insert | packages/controller-lease/src/testing.ts:56-61 | inserts a missing row and refuses a duplicate key |
| Lease.ControllerLeaseService.Acquire | packages/controller-lease/src/index.ts:172-198 | an unexpired row refuses and is named, anything else is replaced by a fresh 45 s lease |
| Lease.ControllerLeaseService.Heartbeat | packages/controller-lease/src/index.ts:211-241 | extends exactly an unexpired lease of its own, and each typed error means exactly its cause |
| Lease.ControllerLeaseService.Release | packages/controller-lease/src/index.ts:243-254 | deletes exactly an owned row; a missing and a foreign row are told apart and left |
| Lease.ControllerLeaseService.Takeover | packages/controller-lease/src/index.ts:261-293 | always installs the new controller and names the one it demoted |
| Lease.ControllerLeaseService.GetActive | packages/controller-lease/src/index.ts:305-311 | returns the row exactly while it is unexpired |
| LeaseMutex.OneHolderInOrder | packages/controller-lease/src/testing.ts:15-40 | over any run at most one caller holds the mutex, it is granted in order of arrival, and it is free only when nobody waits |
| LeaseMutex.EveryCallerIsServed | packages/controller-lease/src/testing.ts:15-40 | whenever the mutex is free every caller that arrived has held it and left |
| LeaseMutex.Mutex.Acquire | packages/controller-lease/src/testing.ts:19-30 | takes a free lock at once, otherwise queues last |
| LeaseMutex.Mutex.Release | packages/controller-lease/src/testing.ts:32-39 | hands the lock to the first waiter, or frees it |
| LeaseProtocol.OwnershipStep | packages/controller-lease/src/index.ts:172-293 | a row changes hands only by a takeover, its owner's release, or an acquire that finds no row or one expired by its own clock reading, and the new owner is the one that wrote |
| LeaseProtocol.OnlySuccessWrites | packages/controller-lease/src/index.ts:119-141 | a step that changes the row is the successful last step of its call: a failed CAS or transaction has changed nothing |
| LeaseProtocol.RefusedHeartbeatIsToldBy | packages/controller-lease/src/index.ts:226-241 | which error a refused heartbeat gives, for every row read afterwards, also one that has changed since |
| LeaseProtocol.TakeoverWrites | packages/controller-lease/src/index.ts:261-293 | a takeover replaces the row it locked; one that found none inserts, and is refused by a row inserted meanwhile, which stays |
| LeaseProtocol.OwnershipEndsOnlySo | packages/controller-lease/src/index.ts:172-293 | over any run, whoever no longer owns the row lost it at a step of one of those kinds |
| LeaseProtocol.DisplacedStaysDisplaced | packages/controller-lease/src/index.ts:201-210 | a controller that does not own the row comes to own it only by its own acquire or takeover |
| LeaseProtocol.DisplacedHeartbeatsFail | packages/controller-lease/src/index.ts:201-210 | until then its heartbeats are refused and write nothing, however early they read the clock |
| LeaseProtocol.CalmKeepsOwner | packages/controller-lease/src/index.ts:96-109 | an unexpired lease that is neither released nor taken over is never stolen |
| LeaseProtocol.OpensAndAdoptionsAgree | apps/control-plane/src/handlers.ts:443-469 | while no lease expires, is released or is taken over, all opens and host adoptions that succeed end with one controller id, which owns the row: a host that adopts what an open returned owns the row under that id |
| LeaseProtocol.OpenReturnsAStoredLease | apps/control-plane/src/handlers.ts:452-469 | in any run, a successful open returns a controller that owned the row at an instant of the call, unexpired then unless the call took 45 s |
| LeaseProtocol.AdoptionOwnsItsId | apps/agent-host/src/recovery.ts:146-158 | over any run, an adoption that returned ends with the id it was called with and owned the row under it within the call |
| LeaseProtocol.ThrownCallsWroteNothing | apps/agent-host/src/recovery.ts:131-158 | over any run, a call that threw, adoption or other, has no step of its own that changed the row |
| LeaseProtocol.AdoptionStep | apps/agent-host/src/recovery.ts:146-158 | each step of an adoption goes on under its own id, ends owning the row under it, or throws, and only a successful last one touches the row |
| LeaseAlone.InLastSecondIff | apps/control-plane/src/prod-adapters.ts:233-241 | a stored lease is active and read back as expired exactly between the whole second its end is cut to and its end, with columns read as dates |
| LeaseAlone.AcquireAlone | packages/controller-lease/src/index.ts:172-198 | the interleaved steps of an acquire, undisturbed: refused exactly by an unexpired row, whose holder is named |
| LeaseAlone.HeartbeatAlone | packages/controller-lease/src/index.ts:211-241 | undisturbed, a heartbeat extends exactly its own unexpired lease and each error means its cause |
| LeaseAlone.ReleaseAlone | packages/controller-lease/src/index.ts:243-254 | undisturbed, a release deletes exactly an owned row |
| LeaseAlone.TakeoverAlone | packages/controller-lease/src/index.ts:261-293 | undisturbed, a takeover installs the new controller on a held and on a missing row |
| LeaseAlone.OpenAlone | apps/control-plane/src/handlers.ts:452-469 | undisturbed, an open shares an active lease, whoever holds it, and acquires its own when none is active; in the last second of a lease, as it is read back, it throws and changes nothing |
| LeaseAlone.AdoptAlone | apps/agent-host/src/recovery.ts:131-158 | undisturbed, a host acquires when no lease is active, extends its own, and is refused another's, and in a lease's last second even its own, with nothing changed |
| LeaseAlone.OpenAndAdoptSucceedIff | packages/controller-lease/src/index.ts:305-311 | an undisturbed open succeeds exactly outside the last second of a lease, and an adoption exactly when moreover no other controller's lease is active |
| LeaseProtocol.ExpiryMovesBackIff | packages/controller-lease/src/index.ts:211-225 | a successful heartbeat moves the expiry back exactly when its clock reading is older than the row's last write |
| LeaseProtocol.RevivesExpiredIff | packages/controller-lease/src/index.ts:211-225 | a heartbeat of the owner on a row expired by the clock still extends it exactly when its own clock reading is before the row's expiry |
| LeaseProtocol.LeaseEndsOneExpiryAfterItsWrite | packages/controller-lease/src/index.ts:7-9 | in every reachable state a lease ends 45 s after its last write's clock reading, and so at most 45 s from now |
| LeaseProtocol.StaleHeartbeatRevivesAndShortens | packages/controller-lease/src/index.ts:201-225 | a run in which an overlapping heartbeat extends an already expired lease and moves its expiry back |
| LeaseRenewal.LeaseHeartbeatLoop.Start | apps/agent-host/src/lease-heartbeat.ts:91-102 | starts a loop that is not running and clears its stop, otherwise nothing |
| LeaseRenewal.LeaseHeartbeatLoop.Stop | apps/agent-host/src/lease-heartbeat.ts:105-109 | stops the loop and leaves a tick under way and the health as they are |
| LeaseRenewal.LeaseHeartbeatLoop.Fire | apps/agent-host/src/lease-heartbeat.ts:112-119 | a tick starts a heartbeat exactly when the loop is not stopped, no tick is under way and the runtime is not stopped, and then awaits it; a stopped runtime stops an idle loop |
| LeaseRenewal.LeaseHeartbeatLoop.Answer | apps/agent-host/src/lease-heartbeat.ts:119-141 | a lost renewal fails health and goes on to re-acquire, any other answer leaves health and ends the tick |
| LeaseRenewal.LeaseHeartbeatLoop.Reacquire | apps/agent-host/src/lease-heartbeat.ts:143-159 | health becomes READY only when the acquire succeeds and the runtime is READY |
| LeaseRenewal.EveryIdleTickBeats | apps/agent-host/src/lease-heartbeat.ts:112-141 | over any run without a stop, every tick that finds none under way starts a heartbeat, whose answer ends it or leads to a re-acquire |
| LeaseRenewal.ReadyAfterLossIff | apps/agent-host/src/composition.ts:238-254 | after a lost renewal the host reports READY exactly when its own re-acquire has since succeeded with the runtime READY and nothing was lost after it |
| LeaseRenewal.HealthUntouchedUntilLoss | apps/agent-host/src/lease-heartbeat.ts:119-137 | without a lost renewal the loop leaves health alone |
| LeaseRenewal.RegainedWhileNotReadyStaysFailed | apps/agent-host/src/composition.ts:246-250 | a re-acquire that finds the runtime not READY leaves health failed through any number of successful renewals |
| LeaseRenewal.StoppedLoopCanReportReady | apps/agent-host/src/lease-heartbeat.ts:104-109 | stopping does not call back a tick under way, which can still report READY |
| LeaseRenewal.StoppedLoopHealth | apps/agent-host/src/lease-heartbeat.ts:104-159 | a stopped loop that is not started again ends with the health that the first answer and the first re-acquire of the tick under way decide, and nothing later has any effect |
| LeaseRenewal.StoppedIdleLoopKeepsHealth | apps/agent-host/src/lease-heartbeat.ts:104-119 | with no tick under way at the stop health never changes |
| LeaseTiming.LeaseHoldsIffInTime | apps/agent-host/src/lease-heartbeat.ts:112-141 | whatever attempts fail, however long each takes and whichever ticks it suppresses, the 45 s lease is unexpired at every instant exactly when every renewal reads the clock and is written before the renewal in force runs out, up to the end |
| LeaseTiming.LeaseHoldsIffNoTwoMisses | packages/controller-lease/src/index.ts:7-9 | when every attempt ends before the next tick, that is exactly when no two consecutive ticks miss |
| LeaseTiming.TwoMissesExpire | packages/controller-lease/src/index.ts:227-237 | the tick after two misses finds the lease expired and is classified so |
| LeaseTicks.TicksDriveTheLoop | apps/agent-host/src/lease-heartbeat.ts:112-141 | the renewal loop driven by its timer starts its heartbeats at the ticks the timing theorems count, and leaves the same row |
| LeaseTicks.RowIsTheHosts | apps/agent-host/src/lease-heartbeat.ts:112-141 | at every instant the stored row is the one the timing theorems speak of |
| Approvals.HarnessTurnStarter.ResolveApproval | apps/agent-host/src/turn.ts:205-226 | a decision settles or is parked as the maps and links say, and is reported known exactly when its id pends as a call or has been asked |
| Approvals.HarnessTurnStarter.ResolveLinked | apps/agent-host/src/turn.ts:210-220 | an asked id settles its call's ask, else the session's first call-less one, else is parked under itself and its call |
| Approvals.HarnessTurnStarter.SettleCallId | apps/agent-host/src/turn.ts:389-396 | settles exactly an unsettled ask pending under the call id |
| Approvals.HarnessTurnStarter.OnApprovalRequest | apps/agent-host/src/turn.ts:353-387 | a parked decision under the call id answers at once with its outcome; otherwise the ask pends, and one aborted already is cancelled |
| Approvals.HarnessTurnStarter.SettleAnonymous | apps/agent-host/src/turn.ts:398-404 | settles the first unsettled entry of the session's queue, if any |
| Approvals.HarnessTurnStarter.Settle | apps/agent-host/src/turn.ts:367-372 | the first outcome is final and takes the ask out of exactly one pending map |
| Approvals.PendingMapsAlwaysExact | apps/agent-host/src/turn.ts:88-93 | over any run the pending maps hold unsettled asks only, each call's latest and every call-less one of a session, oldest first |
| Approvals.AsksSettleOnce | apps/agent-host/src/turn.ts:365-386 | whatever happens later, a settled ask stays as it was settled |
| Approvals.OutcomesAreGiven | apps/agent-host/src/turn.ts:353-387 | over any run an ask settled by a decision has the outcome that decision gave, and one settled by none was cancelled |
| Approvals.AbortedIsCancelled | apps/agent-host/src/turn.ts:374-386 | an aborted ask that no parked decision answers is cancelled, at once or when the abort comes, and pends nowhere |
| Approvals.DecisionSettlesOneAsk | apps/agent-host/src/turn.ts:205-216 | a decision settles at most one ask on arrival and changes no other: the one pending for the call, or the session's oldest call-less one |
| ApprovalRaces.EachDecisionSettlesOneAsk | apps/agent-host/src/turn.ts:205-226 | over any run in which call ids and asked ids stay apart, a decision settles at most one ask, now or later |
| ApprovalRaces.OverlappingIdsSettleTwo | apps/agent-host/src/turn.ts:215-219 | with an asked id that is also a call id, one parked decision settles two asks |
| ApprovalOrder.DecisionCanSettleTwoIff | apps/agent-host/src/turn.ts:215-219 | in every reachable state, a decision can come to settle two asks exactly when it reaches no pending ask on arrival and its id is linked to a call of another id, so that it is parked under both |
| ApprovalOrder.CanSettleTwoIff | apps/agent-host/src/turn.ts:215-219 | the same for any state whose numbers are those of decisions that have arrived |
| ApprovalOrder.OrderDoesNotMatterIff | apps/agent-host/src/turn.ts:205-226 | with any events in between that neither request nor decide the call, if the decision after the ask settles it, the decision before it gives the same outcome exactly when its id already led to the call and to no other pending ask |
| ApprovalOrder.LateDecisionSettlesIff | apps/agent-host/src/turn.ts:353-387 | a pending ask outlasts any such events that do not abort it, and a decision then settles it exactly when its id leads to the call as it arrives; otherwise the ask goes on pending |
| ApprovalOrder.EarlyDecisionSettlesIff | apps/agent-host/src/turn.ts:205-226 | whatever such events follow, an early decision answers the ask exactly when on arrival its id led to the call and reached no other pending ask; otherwise the ask pends |
| ApprovalRaces.EarlyEqualsLateIff | apps/agent-host/src/turn.ts:205-226 | with nothing in between, the two orders give the same ask, outcome and decision number, under the same condition |
| ApprovalOrder.DecisionBeforeAskedIsLost | apps/agent-host/src/turn.ts:221-225 | a decision by an id not yet linked to the call is lost on it, whenever the asked event comes and whatever else happens |
| ApprovalRaces.EarlyDecisionForCalllessAskIsLost | apps/agent-host/src/turn.ts:358-365 | an early decision for an ask without a call id is accepted and never found |
| AppendChain.TurnAppends.EnqueueAppend | apps/agent-host/src/turn.ts:422-433 | a user message is dropped, any other event is chained to its session's tail and becomes the tail |
| AppendChain.TurnAppends.Settle | apps/agent-host/src/turn.ts:429-434 | an append's promise settles whether it succeeded or not, and only a success is stored |
| AppendChain.TurnAppends.Forget | apps/agent-host/src/turn.ts:434-437 | the tail is dropped exactly when it is still this append |
| AppendChain.AppendsAreSerial | apps/agent-host/src/turn.ts:426-438 | at most one append of a session runs at a time |
| AppendChain.RowsFollowTheEvents | apps/agent-host/src/turn.ts:426-438 | a session's rows are stored in the order of its events, whichever appends fail in between |
| AppendChain.DrainWaitsForAll | apps/agent-host/src/turn.ts:440-442 | a flush that takes its session's tail at one instant and goes on once that has settled, or at once if there is none, has waited for every append enqueued by the first instant, whatever is enqueued meanwhile |
| AppendChain.EveryEventHasItsAppend | apps/agent-host/src/turn.ts:422-433 | every event that is not a user message has its append, in order, and no other has |
| AppendChain.StoredIffSucceeded | apps/agent-host/src/turn.ts:429-434 | what is stored is exactly what has been appended successfully |
| AppendChain.ChainsGoOn | apps/agent-host/src/turn.ts:426-438 | while an append has not settled, it or one before it can start or finish |
| AuthStores.InMemorySessionStore.CreateSession | apps/control-plane/src/auth-session.ts:222-234 | stores the session under its token for 7 days |
| AuthStores.InMemorySessionStore.LookupSession | apps/control-plane/src/auth-session.ts:236-242 | finds a session exactly for a non-empty token whose row is unexpired |
| AuthStores.InMemorySessionStore.RevokeSession | apps/control-plane/src/auth-session.ts:244-247 | removes the session of a non-empty token |
| AuthStores.InMemorySessionStore.CreateLoginFlow | apps/control-plane/src/auth-session.ts:249-263 | stores the flow under its state for 5 minutes |
| AuthStores.InMemorySessionStore.ConsumeLoginFlow | apps/control-plane/src/auth-session.ts:265-274 | deletes the row whatever its age and returns it exactly when it was unexpired |
| AuthStores.InMemorySessionStore.RevokeLoginFlow | apps/control-plane/src/auth-session.ts:276-279 | removes the flow of a non-empty state |
| AuthStores.InMemorySessionStore.CleanupExpired | apps/control-plane/src/auth-session.ts:281-301 | removes expired rows only, at most the limit per table, and all of them when fewer than the limit were found |
| AuthStores.SelectExpired | apps/control-plane/src/auth-session.ts:284-290 | takes expired rows in map order, at most the limit, and all of them when fewer |
| AuthStores.HexReadsBackIff | apps/control-plane/src/auth-session.ts:383 | a binding hash survives the byte column exactly when it is lower-case hexadecimal of even length |
| AuthStores.BytesAre | apps/control-plane/src/auth-session.ts:383 | each byte is two lower-case hexadecimal digits, the high one first |
| AuthStores.StepAgrees | apps/control-plane/src/auth-session.ts:215-442 | one operation on two stores that agree on unexpired rows gives the same answer, but for how a found session's instants are read back, and keeps them agreeing |
| AuthStores.StoresAreIndistinguishable | apps/control-plane/src/auth-session.ts:175-200 | over any operations with readings that do not go back across an expiry, fresh tokens and canonical inputs, and whatever either has swept: create, consume, revoke and cleanup answers are equal, and a session is found by both or neither, with one id and one user and its instants as they are read back |
| AuthStores.AnswersAreEqualIff | apps/control-plane/src/auth-session.ts:335-350 | the whole answers are equal exactly when no session is found, or one created on a whole second, or columns are read as text |
| AuthStores.SecondsAreCut | apps/control-plane/src/auth-session.ts:343-349 | a session created at 1500 ms is looked up as created at 1500 from memory and at 1000 from PostgreSQL |
| AuthStores.SessionLivesSevenDays | apps/control-plane/src/auth-session.ts:222-242 | in either store a created session expires 604800000 ms later and is found exactly until then |
| AuthStores.TakenKeysAreRefused | apps/control-plane/src/auth-session.ts:315-381 | Postgres refuses a token that is taken, and a user id that is no number, and changes no row but what it sweeps |
| AuthStores.MemoryFlowLivesFiveMinutes | apps/control-plane/src/auth-session.ts:249-274 | a created login flow expires 300000 ms later and can be consumed exactly until then |
| AuthStores.DatabaseFlowLivesFiveMinutes | apps/control-plane/src/auth-session.ts:359-414 | the same for Postgres, with the binding hash read back as it was |
| AuthStores.CleanupIsUnobservable | apps/control-plane/src/auth-session.ts:194-200 | whatever is swept and whenever, the answers are those of a store that never sweeps |
| AuthStores.FlowIsConsumedOnce | apps/control-plane/src/auth-session.ts:391-414 | from Postgres a login flow is consumed at most once, whatever the clock does |
| AuthStores.MemoryFlowIsConsumedOnce | apps/control-plane/src/auth-session.ts:265-274 | from memory, no attempt after the first to consume a flow gives it out, even if the first was refused |
| AuthStores.BackwardsClockTellsThemApart | apps/control-plane/src/auth-session.ts:265-274 | with a clock that goes back the two stores answer differently |
| AuthClock.CanBeToldApartIff | apps/control-plane/src/auth-session.ts:265-301 | some operations at given readings of the clock tell the stores apart exactly when a reading goes back across an expiry: something created at one reading has expired at a later one and has not at one after that |
| RestoreMarks.WorkspaceRow.MarkRestoreFailedIfStarting | packages/session-persistence-postgres/src/repository.ts:258-284 | fails the row with the reason exactly from STARTING or RESTORING |
| RestoreMarks.WorkspaceRow.RecordRestoreErrorIfFailed | packages/session-persistence-postgres/src/repository.ts:286-323 | also fills a missing reason on a failed row, and leaves any other row |
| RestoreMarks.WorkspaceRow.Apply | apps/control-plane/src/prod-adapters.ts:350-378 | a row in the expected state ends in the new one, at that time and with its reason kept; any other is left, and the state found is reported |
| RestoreMarks.FailStaleStartingWorkspace | apps/control-plane/src/handlers.ts:267-302 | undisturbed, it fails a row exactly when it is coming up and older than ten minutes, or older than two with a definitive probe |
| RestoreMarks.JudgedToFailIff | apps/control-plane/src/handlers.ts:271-302 | the interleaved judgment goes on to mark exactly under the same condition on the row it loaded |
| RestoreMarks.FailureWritersAreSafe | packages/session-persistence-postgres/src/repository.ts:258-323 | the failure writers enter RESTORE_FAILED only from STARTING or RESTORING and otherwise only fill in a missing reason |
| RestoreMarks.WritersLeaveTheirReason | packages/session-persistence-postgres/src/repository.ts:258-323 | a mark on a row coming up, and a record on one or on a failed row without a reason, leave the row failed with exactly the given reason; any other row is unchanged |
| RestoreMarks.JudgmentAlone | apps/control-plane/src/handlers.ts:267-320 | the interleaved steps, undisturbed, fail the row and serve it failed exactly under the two age rules, and otherwise serve it as it is |
| RestoreMarks.SettledRowsSurvive | packages/session-persistence-postgres/src/repository.ts:258-323 | a READY row, or a reason on a failed row, survives any number of marks and records |
| RestoreMarks.MarksAreJudged | apps/control-plane/src/handlers.ts:267-302 | every mark goes by a stored row that was coming up and more than two minutes old; if not more than ten, the probe was definitive |
| RestoreMarks.MarkHitsJudgedRowIff | apps/control-plane/src/handlers.ts:309-320 | a mark is about the very row it judged exactly when no step wrote the row since it was loaded, and then it takes effect, on a row more than two minutes old |
| RestoreMarks.MarkOfWrittenRowIff | packages/session-persistence-postgres/src/repository.ts:258-284 | if the row was written in between, the mark fails the newer one exactly when that is STARTING or RESTORING, whatever its age, and otherwise leaves it |
| RestoreMarks.StaleJudgmentFailsFreshGeneration | apps/control-plane/src/handlers.ts:309-320 | a run in which a judgment of an old generation fails the fresh one that replaced it |
| RestoreMarks.ServedRowWasStored | apps/control-plane/src/handlers.ts:309-320 | what a request serves is a row that was stored, marked or not |
| Dsn.ParseQueryPairs | packages/session-persistence-postgres/src/connection.ts:205-217 | pairs left to right, the first of a repeated key wins, a bad encoding of a key or of a winning value fails |
| Dsn.ParameterIsTheFirst | packages/session-persistence-postgres/src/connection.ts:205-217 | a parameter is given exactly when some pair names it, and has the decoded value of the first that does |
| Dsn.PairsFailIff | packages/session-persistence-postgres/src/connection.ts:205-217 | parsing fails exactly at a pair whose key does not decode or that is the first of its key and whose value does not |
| Dsn.BadEncodingsFail | packages/session-persistence-postgres/src/connection.ts:189-217 | such a pair fails the whole string |
| Dsn.ResolvedTargets | packages/session-persistence-postgres/src/connection.ts:258-264 | a string is passed through, unchanged, exactly when its host or socket parameter is no absolute path; a socket target has that very path, a username and a database |
| Dsn.SchemesAre | packages/session-persistence-postgres/src/connection.ts:223-244 | white space alone is empty, any scheme but the two is refused, in either case of letters, and what follows the scheme decides the rest |
| Dsn.FieldsAre | packages/session-persistence-postgres/src/connection.ts:344-378 | a reading's own username, password and first path segment count, and where one is empty the query's parameters, the first name of each before the second |
| Dsn.WhichIsMissing | packages/session-persistence-postgres/src/connection.ts:318-338 | if no reading is complete the first one decides: a missing username is reported before a missing database |
| Dsn.QueryAlone | packages/session-persistence-postgres/src/connection.ts:344-378 | with nothing before the query its parameters give all the fields, or say which is missing |
| Dsn.HostIsIgnored | packages/session-persistence-postgres/src/connection.ts:291-302 | a host between the `@` and the path counts for nothing |
| DsnRoundTrip.PrintedFieldsReadBack | packages/session-persistence-postgres/src/connection.ts:223-340 | the parts of a printed socket string, raw or percent-encoded, are read back decoded for any password without a raw `?` or `#` |
| DsnReadBack.PrintedFieldsReadBackIff | packages/session-persistence-postgres/src/connection.ts:246-264 | they are read back exactly when the password holds no raw `?` and no raw `#` |
| DsnReadBack.QuestionMarkMisreads | packages/session-persistence-postgres/src/connection.ts:205-217 | a raw `?` in the password starts the query too early, and no query that follows can give all the fields back |
| DsnRoundTrip.HashInPasswordPassesThrough | packages/session-persistence-postgres/src/connection.ts:246-264 | a raw `#` in the password hides the query, and the string is passed through |
| DsnRoundTrip.ByNameReadsBackIff | packages/session-persistence-postgres/src/connection.ts:266-316 | with the database in a parameter the parts, raw or percent-encoded, are read back exactly when no raw `@` of the password comes before its first `/` or right before some `/` |
| DsnRoundTrip.MisledFields | packages/session-persistence-postgres/src/connection.ts:275-281 | otherwise a socket target with a shorter password is returned |
| BunEnvironment.ProcessEnv.WithIsolatedBunSqlEnv | packages/session-persistence-postgres/src/connection.ts:494-512 | the callback sees none of the keys, each is afterwards as it was whatever the callback did, and other variables are as the callback left them |
| BunEnvironment.ProcessEnv.Hide | packages/session-persistence-postgres/src/connection.ts:495-499 | saves what each key held, set or not, and deletes it |
| BunEnvironment.ProcessEnv.Restore | packages/session-persistence-postgres/src/connection.ts:503-510 | sets or deletes each key as it was saved, and nothing else |
| OutputWindow.CollectedStream.Push | apps/agent-host/src/harness-subprocess.ts:51-63 | the window stays an exact suffix of the stream within its bounds |
| OutputWindow.CollectedStream.ShiftHeads | apps/agent-host/src/harness-subprocess.ts:55-62 | shifts first chunks off exactly while the window stays at or over the limit without them |
| OutputWindow.CollectedStream.ReadFrom | apps/agent-host/src/harness-subprocess.ts:65-79 | a read at or above the window start returns exactly the stream from that offset, one below returns the window and says so |
| OutputWindow.WindowBounds | apps/agent-host/src/harness-subprocess.ts:37-42 | after any pushes the window holds at least min(total, limit) bytes, and over a positive limit by less than its first chunk |
| OutputWindow.ChainedReadsRebuildTheStream | apps/agent-host/src/harness-subprocess.ts:65-79 | chained reads none of which was lossy rebuild the stream exactly |
| OutputWindow.KeepingUpLosesNothing | apps/agent-host/src/harness-subprocess.ts:51-79 | a reader never behind by more than the limit loses nothing and has seen the whole stream up to its last read |
| OutputWindow.TrimKeepsLast | apps/agent-host/src/harness-subprocess.ts:51-63 | the chunk pushed last is never given up, nor any while the window is within the limit |
| InstanceGc.LastUsedIsNewest | apps/control-plane/src/instance-gc.ts:57-65 | the last use is the newest of the dates that parse, and absent exactly when none does |
| InstanceGc.CandidatesAreEligible | apps/control-plane/src/instance-gc.ts:144-147 | the candidates are a permutation of the eligible rows, least recently used first |
| InstanceGc.CandidateIsEligible | apps/control-plane/src/instance-gc.ts:144-147 | a workspace is a candidate exactly when it is a row that is eligible |
| InstanceGc.CandidateIffLongIdle | apps/control-plane/src/instance-gc.ts:75-86 | a workspace is a candidate exactly when it is a STOPPED row with a non-empty instance name, has a date, and every date it has is `staleAfter` old or older |
| InstanceGc.ReapOne | apps/control-plane/src/instance-gc.ts:158-214 | one iteration: which calls it makes and how the candidate is counted, for every answer of the services |
| InstanceGc.CallsAre | apps/control-plane/src/instance-gc.ts:158-195 | which calls a candidate gets, in order, for every answer of the services |
| InstanceGc.CallsFollowTheBatch | apps/control-plane/src/instance-gc.ts:158-214 | candidates are processed in the order of the batch |
| InstanceGc.ReapBatch | apps/control-plane/src/instance-gc.ts:158-214 | the loop's counts and calls are those of its iterations in order |
| InstanceGc.Reap | apps/control-plane/src/instance-gc.ts:139-226 | deleted + failed + skipped + deferred = eligible, exactly what exceeds the cap is deferred, and every deletion is for a row that was idle that long and was just re-read as STOPPED under its name |
| InstanceGc.SweepIsGuarded | apps/control-plane/src/instance-gc.ts:122-130 | every deletion comes right after a re-read of the same candidate that found it STOPPED under the same name |
| InstanceGc.DeletionsAreAccounted | apps/control-plane/src/instance-gc.ts:165-214 | at least one deletion for each counted as deleted, none for a skipped one |
| InstanceGc.DeletionsAreCapped | apps/control-plane/src/instance-gc.ts:148-149 | a sweep issues at most as many deletions as its cap |
| InstanceGc.SparesTheMostRecent | apps/control-plane/src/instance-gc.ts:144-149 | no candidate that is processed was used later than one that is deferred |

## Left out

- `EventLog.SessionEvents.Append`: event time, citations and surface operation are one opaque payload; `LogIsAlwaysContiguous` is about one existing session, so a session deleted during an append is not modelled.
- `SseFormatting.RoundTripIffWireSafe`: data is its JSON text, taken to hold no raw newline; `JSON.parse` and `JSON.stringify` are not modelled, and `Number` is a parameter that must read exact decimals up to 2^53 - 1.
- `Delivery.PageShowsExactPrefix`: asks of the rows so far that event types hold no newline and do not end in a carriage return (what happens to others is `RoundTripIffWireSafe`), that data is JSON text, and that numbers are exact in JavaScript (up to 2^53 - 1); one session and one page with one loop; the clicks that can start a second loop are in `PageLoops`; switching sessions, deleting the workspace, and the decoding of bytes to characters are not modelled.
- `PageLoops.ConnectCanSpoilIff`: what a loop hands over is taken from `Delivery` as the rows from its cursor on, in order; an abort of a fetch or a read takes effect with the click.
- `ReplayMeaning.ReplayPreservesCitationsIff`: assumes the stored log holds every live event but the messages; an append that failed (logged and dropped by the agent host) leaves a log to which only `CitationsDenoteNearestRows` applies.  Event types with special treatment are named, any other type is opaque.
- `LeaseProtocol.OwnershipStep`: one workspace's row (rows of different workspaces do not interact) and one clock all processes read, arbitrarily late; a skew between the clocks of different hosts is not modelled.
- `LeaseTiming.LeaseHoldsIffInTime`: ticks are exactly 15 s apart, an attempt reads the clock at its tick and takes effect at its end, and attempts fail for transient reasons only (what a lost one does is in `LeaseRenewal`).
- `Approvals.PendingMapsAlwaysExact`: when two asks share a call id the earlier one is only reachable by its abort, and the invariant speaks of the later one.
- `AuthStores.StoresAreIndistinguishable`: SHA-256 is taken to be injective, rows are keyed by the raw token, and the order in which a cleanup picks expired rows is left open; reusing a token (which Postgres refuses and memory overwrites) is excluded.
- `AuthStores.AnswersAreEqualIff`: how a driver returns a column is one of two ways, as a date whose text has whole seconds or as the text that was written.
- `RestoreMarks.FailureWritersAreSafe`: other writers are arbitrary; the transition table and the checkpoint insert of a transition are not modelled.
- `DsnReadBack.PrintedFieldsReadBackIff`: usernames hold no raw `:` and databases no raw `/`, which end them; percent-decoding is a parameter, of which it is asked that text without `%` stands for itself and that no escape reaches across a delimiter.
- `DsnRoundTrip.ByNameReadsBackIff`: usernames also hold no raw `@` or `/`; of the decoder it is asked that text without `%` stands for itself and that no escape reaches across a `/` or an `@`.
- `Dsn.ResolvedTargets`: credentials given as query parameters are modelled, but the round trips are about strings that give them before the `@`; the pool options and the redacted error messages are not modelled.
- `OutputWindow.CollectedStream.ReadFrom`: bytes, not the text decoded from them.
- `InstanceGc.Reap`: the sort is an insertion sort with the stable order of the original; log lines and the text of failures are not modelled.
- HTTP routing, authentication of requests, cookies, forwarding, Cloud Run and GCS calls: transport around the modelled code.
- The workspace runtime's transition table, checkpoints and the language-model turn itself: only the event shapes they write matter here.
- Redaction of secrets in logs and error messages: the meaning of its patterns lies in a regular-expression engine.
