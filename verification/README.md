# Verified models of the WebUI client, the edge sidecars and their adapters

A Dafny model of the parts of the repository that are protocols, incremental forms of something simpler, or graph
transformations, with proofs of what they promise. `dafny verify dfyconfig.toml` checks all of it.

- **Read coherence of the WebUI client** (`DataScopes`, `DataReach`, `ReadCoherence`, `ReadSafety`, `ReadSharing`,
  `ReadTheorems`, `ReadProgress`, `ReadStaleness`, `ReadRevocation`, `ReadClient`, `ReadKeys`): the result cache, the
  registry of shared in-flight transports, the authentication epoch, session epochs and scope revisions, as a step system
  in which reads, completions, write commits and revocations interleave. A log of starts, ends, invalidations and served
  values is the clock of the theorems. `ReadClient.Client` is the same state as mutable fields, each method proved to make
  the corresponding step.
- **The replayable event log of the managed sidecar** (`EventReplay`, `EventTheorems`, `ReplayLog`): the owner task,
  acknowledgements and streams, with every lock region, notification, broadcast send and receive a step of its own.
- **Incremental source reads** (`TextOrder`, `IncrementalSource`, `SourceTheorems`, `SourceRules`, `ReadPlan`,
  `ChunkStream`): from watermark to plan, page, batch and next watermark over a table that only grows, and the cutting of a
  batch into frames.
- **Incremental and bounded forms** (`StreamingMarkdown`, `MarkdownRules`, `SortedLists`, `KeyedTables`,
  `ProjectionReducer`, `ProjectionEffects`, `Dedup`): the stable markdown prefix against a scan from scratch, the
  sorted-array projection reducer against finite maps, and the bounded store of seen message ids against the unbounded
  history of admissions.
- **Graphs, flow control and lanes** (`MissionGraph`, `MissionRules`, `ActivityForest`, `ActivityEvents`,
  `CreditBridge`, `CreditProgress`, `LaneRegistry`, `LaneProgress`): folding and reachability of the mission
  graph, the activity forest over possibly cyclic parents, the order-insensitive merge of activities, streaming under
  credit, and mutual exclusion through pruned weak maps.

Where the code falls short of a promise, the model follows the code: a statement gives the exact condition under which
the promise holds, and another a case in which it fails.

- A stream that lags may skip events: `LaggedResumptionSkipsNothingIff`, `LagSkipsAnEvent`.
- String order may disagree with database order: `ClosedWindowLeavesNothingIff`, `ExactlyOnceIff`,
  `NumericTextsAreDeliveredTwice`.
- A write does not fence reads whose scopes it matches without listing one of them, as for nested domains and nested
  session ids: `MatchedReadsAreCoherentIff`, `NestedDomainsMayServeStaleData`, `NestedSessionsMayServeStaleData`.
- Revoking an id with outer white space fences the trimmed id and not the id itself, which reads keep untrimmed when it
  comes from a path or a query: `RevokingFencesIff`, `RevokingFencesItselfIff`, `PaddedIdsAreNotFenced`.
- Key strings are ambiguous for session ids of which one continues the other with a colon: `ReadsShareTextsIffRecords`,
  `ColonsMayCollide`. The first gives a sufficient condition.
- With capacity zero the eviction loop does not end: `EvictionEndsIff`.
- Cycles with two relation-derived parents lose their activities: `EachActivityIsShownOnceIff`,
  `TwoRelationLinksLoseBoth`.
- Ties between cursors make the merge depend on the order of projections: `ProjectionOrderIsIrrelevantIff`,
  `TiesDependOnTheOrder`.
- A mission root that is not retained hides its nodes: `ChainedNodesAreShownIffRootIsRetained`,
  `UnretainedRootHidesItsNodes`.
- A deadline that passes while a sender is parked leaves it parked: `StopLeavesParkedIff`, `DeadlineDoesNotWake`.

Clock readings, responses of the network, rows of the database, chunks of a body and new identifiers are parameters of the
steps. Identifiers that are only compared are integers where nothing depends on their spelling.

## Model

| member | source | states |
|---|---|---|
| `DataScopes.GeneratedMatchIsMember` | `surfaces/webui/src/api/client.ts:599-654` | a write scope generated for a session that equals or prefixes a scope of any read of that session is itself in that read's scope list |
| `DataScopes.UnscopedMatchIsMemberIff` | `surfaces/webui/src/api/client.ts:599-654` | without a session the same holds except exactly when both are domain scopes and the read's domain continues the written one with a colon |
| `DataScopes.DomainsNest` | `surfaces/webui/src/api/client.ts:608-609` | every domain is continued that way by the domain of some other path |
| `DataScopes.DomainIsTheSecondSegment` | `surfaces/webui/src/api/client.ts:597-610` | the domain of a path is its second segment, whatever follows |
| `DataScopes.ShortPathsAreTheGateway` | `surfaces/webui/src/api/client.ts:608-609` | without a second segment it is the gateway |
| `DataReach.SessionWriteReachesIff` | `surfaces/webui/src/api/client.ts:578-654` | a write to a session matches a read of it exactly when their paths say so: a write to the session itself every read, to its messages the transcript and execution reads, to its attachments the attachment reads, and so on; attaching, detaching and leases none |
| `DataReach.SessionWriteReachesUnscopedIff` | `surfaces/webui/src/api/client.ts:599-654` | of the reads without a session it matches only the list of sessions, and that from the session itself, its messages and its branch path |
| `DataReach.UnscopedWriteReachesIff` | `surfaces/webui/src/api/client.ts:612-618` | a write without a session matches the list of sessions from that list's path, and otherwise the reads of its own domain and of those below it |
| `DataReach.UnscopedWriteReachesNoSession` | `surfaces/webui/src/api/client.ts:599-618` | and no read of a session |
| `DataReach.NeutralIff` | `surfaces/webui/src/api/client.ts:564-569` | the writes that match nothing are those to attach to or detach from a session and to acquire or release its lease |
| `ReadCoherence.BumpRaisesTheListed` | `surfaces/webui/src/api/client.ts:666-670` | exactly the listed scopes get a greater revision, and none gets a smaller one |
| `ReadSafety.RunKeeps` | `surfaces/webui/src/api/client.ts:812-1079` | every step of any interleaving, with the callers' signals fired or not, keeps the invariant that ties cache entries, registered transports and suspended readers to the start times of their transports |
| `ReadTheorems.ServedDataIsCoherent` | `surfaces/webui/src/api/client.ts:812-1079` | in every interleaving, whatever a read serves (cache hit, joined or own transport, stale fallback) comes from a transport started after the last invalidation of any of its scopes and after the last global invalidation |
| `DataReach.ReachedReadsAreFresh` | `surfaces/webui/src/api/client.ts:620-686` | in every run, a read that a session's write reaches by its path is served, after that write, from a transport started after it |
| `DataReach.ReachedCatalogIsFresh` | `surfaces/webui/src/api/client.ts:620-686` | so is the list of sessions after the writes that reach it |
| `DataReach.TranscriptAfterMessageIsFresh` | `surfaces/webui/src/api/client.ts:633-639` | in particular a transcript read after a message write |
| `DataScopes.AnyMatchIsMember` | `surfaces/webui/src/api/client.ts:599-686` | for a write and a read of any two sessions or none, a written scope that matches a scope of the read is in the read's list unless the read's domain, or its session, continues the written one with a colon |
| `DataScopes.NestingIsWithinOneKind` | `surfaces/webui/src/api/client.ts:599-663` | that exception needs a session on both sides or on neither: a session's writes reach unscoped reads, such as the catalog, without condition |
| `ReadTheorems.GeneratedScopesAreCoherent` | `surfaces/webui/src/api/client.ts:666-686` | coherence for prefix matching of the scopes the client generates, for a write and a read of any two sessions or none, unless the read's domain or session continues the written one with a colon |
| `ReadTheorems.UnscopedWritesSpareSessions` | `surfaces/webui/src/api/client.ts:666-682` | a write without a session removes no result and no in-flight read of any session, and leaves the currency of their revisions as it was |
| `ReadStaleness.UnlistedMatchMayServeStaleData` | `surfaces/webui/src/api/client.ts:666-682` | for every list of written scopes that matches a read's scopes and contains none of them there is a run that serves the read a value whose transport started before the write |
| `ReadStaleness.MatchedReadsAreCoherentIff` | `surfaces/webui/src/api/client.ts:666-686` | so the reads a write matches are coherent after it, in every run, exactly when one of the written scopes is in the read's list |
| `ReadStaleness.NestedDomainsMayServeStaleData` | `surfaces/webui/src/api/client.ts:929-987` | for every pair of nested domains the generated scopes match and yet are not coherent |
| `ReadStaleness.NestedSessionsMayServeStaleData` | `surfaces/webui/src/api/client.ts:929-987` | nor are those of a write to a session itself, for every session whose id continues its id with a colon |
| `ReadTheorems.RevocationFencesServedData` | `surfaces/webui/src/api/client.ts:521-551` | a transport in flight when a name is revoked never serves the session of that trimmed name or an unscoped read; older data reaches an unscoped read only if it was complete before and does not mention the name |
| `ReadTheorems.RevocationFencesTheCache` | `surfaces/webui/src/api/client.ts:929-982` | nor does such a transport leave a cache entry for the session of the trimmed name or for unscoped reads |
| `ReadRevocation.RevokingFencesIff` | `surfaces/webui/src/api/client.ts:521-551` | revoking an id keeps from a session everything that was in flight, served or stored, in every continuation of every run, exactly when the id is blank, the session is empty, or the session is the trimmed id |
| `ReadRevocation.RevokingFencesItselfIff` | `surfaces/webui/src/api/client.ts:467-480` | so it fences the very id it is given exactly when that id has no outer white space, or nothing else |
| `ReadRevocation.PaddedIdsAreNotFenced` | `surfaces/webui/src/api/client.ts:521-551` | with a space in front the trimmed session is fenced and the id itself is not |
| `DataScopes.TrimDropsOuterSpace` | `surfaces/webui/src/api/client.ts:525` | trimming takes off white space only, and leaves none at either end |
| `ReadRevocation.OtherSessionsPass` | `surfaces/webui/src/api/client.ts:812-930` | a run for every other session: a second read that joins a transport in flight at the revocation is served its value |
| `ReadTheorems.OldKeysNeverReturn` | `surfaces/webui/src/api/client.ts:467-510` | a stamp or key taken before a global invalidation is never current, cached, registered or taken again |
| `ReadTheorems.RevisionsAloneReturn` | `surfaces/webui/src/api/client.ts:502-510` | the revisions alone do return to recorded values, because a global invalidation clears them |
| `ReadKeys.EqualTextsEqualEpochs` | `surfaces/webui/src/api/client.ts:829-841` | key strings that are equal are of the same authentication epoch, whatever the session ids contain |
| `ReadKeys.TextsAreInjective` | `surfaces/webui/src/api/client.ts:829-841` | unless one session id continues the other with a colon, the key string determines epoch, session, session epoch, revisions, class and the joined path and headers; so it does for all keys of one session |
| `ReadKeys.RecordsAreInjective` | `surfaces/webui/src/api/client.ts:829-841` | the record the step system uses as a key determines all these parts without condition |
| `ReadKeys.ReadsShareTextsIffRecords` | `surfaces/webui/src/api/client.ts:812-841` | two reads, each at its own moment, build the same key string exactly when they take the same record, unless one session id continues the other with a colon |
| `ReadKeys.ColonsMayCollide` | `surfaces/webui/src/api/client.ts:829-841` | where one id does continue the other, keys of two different sessions can share a string |
| `ReadKeys.UnscopedScopesHaveNoSlash` | `surfaces/webui/src/api/client.ts:599-610` | the scope of a read without a session holds no slash, which is why its key string can be cut at the path |
| `ReadSharing.CancelAbortsOnlyForTheLast` | `surfaces/webui/src/api/client.ts:774-803` | in every run, a caller that gives up aborts the shared transport exactly when no other reader waits on it |
| `ReadProgress.ReadStartsIff` | `surfaces/webui/src/api/client.ts:842-930` | a read is served from the store exactly when it has a result whose lifetime is not over; otherwise it starts a transport exactly when none is under way for its key, and waits on the one there is unless its caller has given up |
| `ReadProgress.UndisturbedReadsAreServed` | `surfaces/webui/src/api/client.ts:812-1050` | from any state, a read that is neither stored nor under way is served its transport's answer, which is stored under its key, if nothing interferes |
| `ReadProgress.AnswersAreReusedIff` | `surfaces/webui/src/api/client.ts:842-856` | a later read is then served from the store exactly within the lifetime of the path's results |
| `ReadProgress.ValuesAreDeliveredIff` | `surfaces/webui/src/api/client.ts:930-987` | a settled value is handed on and stored exactly if nothing the reader depends on was invalidated since it asked |
| `ReadProgress.StaleValuesAreAskedForAgainIff` | `surfaces/webui/src/api/client.ts:930-987` | a value that came too late makes the reader ask once more exactly if it has not done so yet |
| `ReadProgress.AbortedReadsRetryIff` | `surfaces/webui/src/api/client.ts:996-1048` | an aborted transport is tried again exactly once, unless the caller has given up or the stamp is no longer current |
| `ReadProgress.FailuresFallBackIff` | `surfaces/webui/src/api/client.ts:1051-1078` | a failed transport serves the stored result exactly if the failure is offline, a timeout or the server's, the stamp is current, something is stored and the caller has not given up |
| `ReadProgress.RefusalsRevoke` | `surfaces/webui/src/api/client.ts:1051-1078` | a refused reader whose stamp is current revokes its session, or everyone on status 401; its stored result is gone in any case |
| `ReadProgress.GivenUpFailuresAreSilent` | `surfaces/webui/src/api/client.ts:992-995` | a caller that has given up gets nothing from a failure and causes nothing |
| `ReadProgress.WritesDropExactly` | `surfaces/webui/src/api/client.ts:666-682` | a write drops exactly the results and in-flight reads whose scopes it matches, and aborts exactly the transports of the latter |
| `ReadProgress.RevocationsDropExactly` | `surfaces/webui/src/api/client.ts:521-551` | a revocation drops exactly the session's results and those that mention it, its in-flight reads and the unscoped ones |
| `ReadProgress.LogoutDropsEverything` | `surfaces/webui/src/api/client.ts:502-510` | a global invalidation drops all results and aborts all in-flight reads |
| `ReadProgress.StampsOutliveWrites` | `surfaces/webui/src/api/client.ts:480-484` | a current stamp stays current through every write, whatever scopes it lists |
| `ReadProgress.StampsEndAtTheLogout` | `surfaces/webui/src/api/client.ts:502-510` | no current stamp stays current through a global invalidation |
| `ReadProgress.StampsOutliveRevocationsIff` | `surfaces/webui/src/api/client.ts:521-551` | a current stamp stays current through a revocation exactly when the trimmed id is a session's and not the stamp's own |
| `ReadProgress.StaleStampsEndTheRead` | `surfaces/webui/src/api/client.ts:930-950` | a value for a stale stamp ends the read: nothing is served, started or asked again |
| `ReadProgress.LogoutMovesTheCounters` | `surfaces/webui/src/api/client.ts:502-510` | a global invalidation moves the epoch and the read revision on and starts the revisions over |
| `ReadProgress.RevocationMovesTheCounters` | `surfaces/webui/src/api/client.ts:529-536` | a revocation moves the read revision on, and the epoch and revision of its session only |
| `ReadProgress.WritesMoveTheCounters` | `surfaces/webui/src/api/client.ts:666-670` | a write moves the revision of each scope on as often as it lists it |
| `ReadProgress.SettlingUnregisters` | `surfaces/webui/src/api/client.ts:924-927` | a transport that settles leaves the registry wherever it is still listed, and keeps its outcome |
| `ReadProgress.ExpiredTransportsAreNotJoined` | `surfaces/webui/src/api/client.ts:857-923` | the deadline aborts a transport, which no later read joins |
| `ReadClient.Client.DropReads` | `surfaces/webui/src/api/client.ts:543-551` | the loop aborts and unregisters exactly the chosen in-flight reads |
| `ReadClient.Client.InvalidateApiReadCache` | `surfaces/webui/src/api/client.ts:502-510` | the method takes the whole state to that of a global invalidation: epoch and read revision up, revisions, results and in-flight reads gone, transports aborted |
| `ReadClient.Client.InvalidateSessionAuthorization` | `surfaces/webui/src/api/client.ts:521-557` | the method takes the whole state to that of a revocation of the trimmed session, or of a global invalidation for a blank name |
| `ReadClient.Client.InvalidateDataScopes` | `surfaces/webui/src/api/client.ts:666-682` | the method takes the whole state to the one with the scopes bumped and the matching results and in-flight reads dropped |
| `ReadClient.Client.Release` | `surfaces/webui/src/api/client.ts:779-784` | the method leaves one subscriber fewer, aborts for the last one of an unsettled transport, and changes nothing else |
| `ReadClient.Client.BeginRead` | `surfaces/webui/src/api/client.ts:820-930` | the method makes the step that starts a read; a value comes back only from the positive cache, and otherwise the reader waits on a transport |
| `ReadClient.Client.FailRead` | `surfaces/webui/src/api/client.ts:1051-1078` | the error path makes the specified change of state, and a value it returns is logged as a stale fallback |
| `ReadClient.Client.ResumeRead` | `surfaces/webui/src/api/client.ts:930-1050` | the continuation after a shared read takes the state where the `Resume` step says, through all retries and error paths, its signal fired or not |
| `ReadClient.Client.SettleRead` | `surfaces/webui/src/api/client.ts:924-927` | the `finally` callback settles the transport and unregisters it if it still owns its entry |
| `EventReplay.RunKeeps` | `crates/edge-adapters/src/managed_server.rs:203-236` | every interleaving of appends, sends, acknowledgements, notifications and stream steps keeps the event log invariant |
| `EventTheorems.BufferIsTheUnacknowledgedTail` | `crates/edge-adapters/src/managed_server.rs:90-105` | the replay buffer is exactly the published events between the acknowledged and the next sequence, in order, at most 4096, and the acknowledged value stays below the next sequence |
| `EventReplay.RunNeverCountsDown` | `crates/edge-adapters/src/managed_server.rs:398-409` | in every run the acknowledged value and the next sequence never fall |
| `EventTheorems.StreamsDeliverInOrder` | `crates/edge-adapters/src/managed_server.rs:415-481` | every stream delivers genuine publications, strictly increasing and above `after`, lagging or not |
| `EventTheorems.LagFreeStreamsMissNothing` | `crates/edge-adapters/src/managed_server.rs:432-454` | without lag the output is consecutive and misses nothing retained above `after` at the snapshot or published later: neither up to the last event it holds nor up to the receiver's position |
| `EventTheorems.LaggedRecoveryDelivers` | `crates/edge-adapters/src/managed_server.rs:455-467` | the Lagged arm delivers the first retained event above the last delivered one, and nothing if there is none |
| `EventTheorems.NextLiveDelivery` | `crates/edge-adapters/src/managed_server.rs:448-454` | the next live delivery is the first broadcast event above the last delivered one, however many old ones are skipped |
| `EventTheorems.LaggedResumptionSkipsNothingIff` | `crates/edge-adapters/src/managed_server.rs:455-467` | resuming after a lag skips no event exactly when nothing undelivered was acknowledged and at most one undelivered event left the ring |
| `EventTheorems.LagSkipsAnEvent` | `crates/edge-adapters/src/managed_server.rs:455-467` | a reachable server whose stream, two events behind the ring, delivers the first event and then the third |
| `EventTheorems.NoLostWakeup` | `crates/edge-adapters/src/managed_server.rs:210-233` | an owner parked with no permit stored and no acknowledgement about to notify faces a full buffer of unacknowledged events |
| `EventTheorems.RoomIsAlwaysNoticed` | `crates/edge-adapters/src/managed_server.rs:398-411` | once there is room, turns that are already due make a waiting owner publish its frame |
| `EventTheorems.FramesArePublished` | `crates/edge-adapters/src/managed_server.rs:203-236` | in every run, a frame taken in by an idle owner with room is appended under the next sequence and broadcast |
| `EventTheorems.AcknowledgementTakesEffect` | `crates/edge-adapters/src/managed_server.rs:398-411` | an acknowledgement changes nothing exactly when it is above everything published; any other one raises the acknowledged value to it, if higher, and leaves exactly the events published above |
| `EventTheorems.NotificationIsUsedOnce` | `crates/edge-adapters/src/managed_server.rs:210-233` | a pending notification is used once: it sends a parked owner back to the lock, or is kept for its next wait |
| `EventTheorems.AcknowledgingLetsTheOwnerGoOn` | `crates/edge-adapters/src/managed_server.rs:203-236` | from a full buffer with the owner parked, acknowledging one more event and the turns that are then due publish and broadcast the waiting frame |
| `EventTheorems.PendingIsDelivered` | `crates/edge-adapters/src/managed_server.rs:443-447` | as many turns as a snapshot has events deliver all of it, in order |
| `EventTheorems.SaturatedSequencesRepeat` | `crates/edge-adapters/src/managed_server.rs:225` | with the sequence counter saturated two events share a sequence, which is why the other statements stop there |
| `ReplayLog.ReplayState.TryAppend` | `crates/edge-adapters/src/managed_server.rs:212-232` | the owner's lock region: trims, then appends and numbers the event or reports a full buffer |
| `ReplayLog.ReplayState.AckEvents` | `crates/edge-adapters/src/managed_server.rs:398-409` | the acknowledgement's lock region: refuses an out-of-range sequence, otherwise raises the value and trims |
| `ReplayLog.ReplayState.SnapshotAfter` | `crates/edge-adapters/src/managed_server.rs:433-442` | the snapshot loop returns the retained events above `after` and the last sequence |
| `ReplayLog.ReplayState.FindAfter` | `crates/edge-adapters/src/managed_server.rs:456-462` | the search returns the first retained event above the last delivered one |
| `IncrementalSource.MaxTextIsGreatest` | `crates/edge-adapters/src/source_sidecar.rs:1258-1270` | the next watermark value is a value of the page and the greatest in string order |
| `SourceTheorems.SelectsAboveTheFloor` | `crates/edge-adapters/src/source_db.rs:254-279` | a run selects exactly the rows above the watermark value, from the continuation offset on |
| `SourceTheorems.WindowOfRun` | `crates/edge-adapters/src/source_sidecar.rs:609-655` | a run whose caller expects nothing or the watermark's revision reads the next page of the open window, and either moves the offset on by it or closes the window |
| `SourceTheorems.RunIsRefusedIff` | `crates/edge-adapters/src/source_sidecar.rs:616-626` | a run is refused exactly when its caller expects a revision other than the watermark's, or other than 0 without one |
| `SourceTheorems.RunKeepsRevision` | `crates/edge-adapters/src/source_sidecar.rs:609-655` | a refused run changes neither delivery nor watermark; an accepted one does what it would do unasked, and none changes the revision |
| `SourceTheorems.ChainDeliversUpToThePosition` | `crates/edge-adapters/src/source_sidecar.rs:609-722` | after any chain of runs and growth, every row at or below the watermark and the first `offset` rows above it were delivered; exactly once and in order when string order agrees with database order, if only on the pages that may close a window, or in the offset mode |
| `SourceTheorems.ClosedWindowsAdvance` | `crates/edge-adapters/src/source_sidecar.rs:1124-1202` | every closed window that delivers a row strictly advances the watermark in database order |
| `SourceTheorems.ClosedWindowLeavesNothingIff` | `crates/edge-adapters/src/source_sidecar.rs:1167-1171` | a closed window leaves nothing to deliver again exactly when a row with its last row's value has the greatest text of the page |
| `SourceTheorems.ExactlyOnceIff` | `crates/edge-adapters/src/source_sidecar.rs:609-722` | in the value modes all chains over a table deliver exactly once and in order if and only if the orders agree on every page that may close a window |
| `SourceTheorems.DistinctKeysAgreeIff` | `crates/edge-adapters/src/source_sidecar.rs:1258-1270` | with distinct field values that is agreement of the whole table |
| `SourceTheorems.RunsCatchUp` | `crates/edge-adapters/src/source_sidecar.rs:609-722` | once the table stops growing, as many accepted runs as rows lie beyond the position, whatever their limits and whether or not they name the revision they expect, deliver every row at least once in every mode, and exactly once and in order when the orders agree |
| `SourceTheorems.StaleRunsDeliverNothing` | `crates/edge-adapters/src/source_sidecar.rs:616-626` | runs that expect another revision deliver nothing, however many there are |
| `SourceTheorems.NumericTextsAreDeliveredTwice` | `crates/edge-adapters/src/source_sidecar.rs:1258-1270` | numbers kept as texts break the agreement: the row of 10 is delivered again after the row of 9 |
| `ReadPlan.SourceReadPlan.ApplyIncrementalWatermark` | `crates/edge-adapters/src/source_sidecar.rs:637-647` | the plan, changed in place, is the one the watermark's strategy calls for |
| `SourceRules.RunSelectsByValueIff` | `crates/edge-adapters/src/source_sidecar.rs:637-647` | a run selects by value exactly when its mode has a field and the watermark stands for a value that is not blank, its cursor before its high value if it was kept by cursor and the other way round otherwise; it starts at the watermark's offset unless the strategy is unknown |
| `SourceRules.LimitIsClamped` | `crates/edge-adapters/src/source_db.rs:167` | the limit is the one asked for, or 100, forced between 1 and 1000 |
| `SourceRules.BatchIsCutIff` | `crates/edge-adapters/src/source_db.rs:640-662` | a batch is cut exactly when there are more rows than its limit, and then names the offset to go on from |
| `SourceRules.WatermarkAfterAnyBatch` | `crates/edge-adapters/src/source_sidecar.rs:1124-1202` | the new watermark for any batch and any old watermark: strategy, value, offset and revision |
| `SourceRules.LexLeIff` | `crates/edge-adapters/src/source_sidecar.rs:1258-1270` | texts compare by the first character in which they differ, and a text comes before its continuations |
| `ChunkStream.RespondsWhenRowsFit` | `crates/edge-adapters/src/source_sidecar.rs:175-184` | the response is refused exactly when a row exceeds the byte limit, with the length of the first such row |
| `ChunkStream.StreamIsALosslessPartition` | `crates/edge-adapters/src/source_sidecar.rs:196-243` | the chunks concatenate to the batch in order, are numbered from zero, obey both limits, and exactly the last is final and carries the watermark; an empty batch gives one empty final chunk |
| `ChunkStream.StreamIsOptimal` | `crates/edge-adapters/src/source_sidecar.rs:196-215` | no in-order partition within the limits has fewer chunks |
| `ChunkStream.ChunkState.FillChunk` | `crates/edge-adapters/src/source_sidecar.rs:200-213` | the loop takes the longest prefix of the queue that fits |
| `ChunkStream.ChunkState.Next` | `crates/edge-adapters/src/source_sidecar.rs:196-243` | one poll of the stream, with the whole new state |
| `MissionGraph.HostIsFirstRetained` | `surfaces/webui/src/adapters/missionControlGraph.ts:159-172` | the host found with the visited set is the first retained node up the parent chain: the set never hides one |
| `MissionGraph.HostsOnAChainAreJoined` | `surfaces/webui/src/adapters/missionControlGraph.ts:47-84` | along a chain to a retained root every node has a host, and all hosts are joined to the root by folded edges |
| `MissionGraph.ChainedNodesAreShownIffRootIsRetained` | `surfaces/webui/src/adapters/missionControlGraph.ts:26-88` | a retained node whose parent chain climbs through graph nodes to the mission root is shown exactly when the root is itself retained |
| `MissionGraph.UnretainedRootHidesItsNodes` | `surfaces/webui/src/adapters/missionControlGraph.ts:85-87` | a session right below a root of another kind is retained and yet not shown |
| `MissionGraph.MissionRootsAreRetained` | `surfaces/webui/src/adapters/missionControlGraph.ts:41-46` | a root node of kind mission is retained |
| `MissionGraph.ParentIsTheFirstOwner` | `surfaces/webui/src/adapters/missionControlGraph.ts:27-33` | a node has a parent exactly when some edge contains it or delegates to it, and the first such edge decides which |
| `MissionRules.NodeIsKeptIff` | `surfaces/webui/src/adapters/missionControlGraph.ts:34-46` | a node is kept exactly when its kind is strategic, it is not the task of a team's inner role, and it is not an execution that some edge contains or delegates to |
| `MissionRules.RoleTaskIff` | `surfaces/webui/src/adapters/missionControlGraph.ts:255-261` | the task of an inner role has the separator inside and begins with a team run's or its own team's prefix |
| `MissionRules.FoldIff` | `surfaces/webui/src/adapters/missionControlGraph.ts:67-84` | the folded edges are exactly those of the graph's edges whose ends have different retained hosts, between the hosts, with their id and kind |
| `MissionRules.EdgesAreFollowed` | `surfaces/webui/src/adapters/missionControlGraph.ts:263-283` | what such a node has an edge to is joined, and so is what contributes to it |
| `MissionRules.OtherEdgesAreNotFollowedBack` | `surfaces/webui/src/adapters/missionControlGraph.ts:263-283` | no other edge is followed backwards: a node that no edge leads to and that contributes to nothing is not joined |
| `MissionGraph.CanonicalParents` | `surfaces/webui/src/adapters/missionControlGraph.ts:27-33` | the loop keeps the first owning edge into each node |
| `MissionGraph.ResolveStrategicHost` | `surfaces/webui/src/adapters/missionControlGraph.ts:159-172` | the loop over parents terminates on any parent map and finds the host |
| `MissionGraph.ReachableStrategicNodes` | `surfaces/webui/src/adapters/missionControlGraph.ts:263-283` | the changed-flag loop terminates and computes exactly the nodes joined to the root by forward edges and reversed contributes edges |
| `MissionGraph.AdaptMissionControlGraph` | `surfaces/webui/src/adapters/missionControlGraph.ts:26-88` | the nodes shown are the retained ones joined to the root, in graph order; shown and omitted candidates add up |
| `MarkdownRules.BoundaryIsLastBlankLineOutsideFences` | `surfaces/webui/src/components/streamingMarkdown.ts:24-47` | the boundary is the end of the last blank line after which no fence is open |
| `MarkdownRules.FenceAfterIff` | `surfaces/webui/src/components/streamingMarkdown.ts:31-42` | the scan holds a fence of a mark and length exactly when some line with such a marker opens it, with no fence open before, and no later line has a marker of the same mark at least as long |
| `MarkdownRules.MarkerIff` | `surfaces/webui/src/components/streamingMarkdown.ts:32` | a line has a marker exactly when at most three white space characters are followed by three or more equal marks, counted in full |
| `MarkdownRules.LinesAreLines` | `surfaces/webui/src/components/streamingMarkdown.ts:29` | a line has its line feed at its end or not at all, and only the last may lack it |
| `MarkdownRules.FencedBlankLinesDoNotCount` | `surfaces/webui/src/components/streamingMarkdown.ts:24-47` | between an opener and the first line that closes it no blank line is a boundary |
| `MarkdownRules.BlankLineAfterTheCloserCounts` | `surfaces/webui/src/components/streamingMarkdown.ts:24-47` | a blank line after that, with no marker between, is one |
| `MarkdownRules.BlockEndsAtTheFirstBreak` | `surfaces/webui/src/components/streamingMarkdown.ts:49-51` | a block ends with the first line feed that white space and another line feed follow, taken as far as that goes, or with the text |
| `StreamingMarkdown.StableBoundaryResumes` | `surfaces/webui/src/components/streamingMarkdown.ts:87-100` | scanning only the text after the old boundary finds the boundary of the extended text |
| `StreamingMarkdown.IncrementalEqualsOneShot` | `surfaces/webui/src/components/streamingMarkdown.ts:87-100` | after any sequence of streaming renders since a reset the stable prefix is the one-shot prefix of the last text |
| `StreamingMarkdown.BlocksConcatenate` | `surfaces/webui/src/components/streamingMarkdown.ts:49-51` | the blocks concatenate to the text they were split from |
| `StreamingMarkdown.TailAddsUp` | `surfaces/webui/src/components/streamingMarkdown.ts:102-104` | stable prefix, hidden tail and visible tail make up the text |
| `StreamingMarkdown.NextFence` | `surfaces/webui/src/components/streamingMarkdown.ts:32-42` | the fence variables after one line |
| `StreamingMarkdown.FindStableBoundary` | `surfaces/webui/src/components/streamingMarkdown.ts:24-47` | the loop computes the boundary |
| `StreamingMarkdown.RenderBlocks` | `surfaces/webui/src/components/streamingMarkdown.ts:94-98` | the blocks rendered are those of the newly stable text |
| `StreamingMarkdown.StreamingMarkdownRenderer.RenderCanonical` | `surfaces/webui/src/components/streamingMarkdown.ts:72-84` | a canonical render takes the whole text as stable and empties the block list |
| `StreamingMarkdown.StreamingMarkdownRenderer.RenderStreaming` | `surfaces/webui/src/components/streamingMarkdown.ts:87-115` | one streaming render: stable prefix as one-shot, blocks concatenating to it since a reset, earlier blocks kept, and the tail split without loss |
| `KeyedTables.UpsertRefinesUpdate` | `surfaces/webui/src/adapters/executionProjection.ts:202-208` | an upsert on the sorted array is an update of the finite map it stands for, and keeps keys unique |
| `KeyedTables.WithoutRefinesRemoval` | `surfaces/webui/src/adapters/executionProjection.ts:112-126` | a removal by filtering is a removal from the map |
| `KeyedTables.OnlyRefinesRestriction` | `surfaces/webui/src/adapters/executionProjection.ts:98-104` | keeping the listed nodes is restricting the map |
| `SortedLists.SortSorts` | `surfaces/webui/src/adapters/executionProjection.ts:206` | sorting pairwise comparable elements by a strict order gives a strictly sorted list |
| `SortedLists.SortedIsUnique` | `surfaces/webui/src/adapters/executionProjection.ts:206` | strictly sorted lists with the same elements are identical, so the order of upserts leaves no trace |
| `ProjectionReducer.ReducerRefinesMaps` | `surfaces/webui/src/adapters/executionProjection.ts:79-193` | from unique keys, any accepted list of operations on arrays stands for the same operations on finite maps |
| `ProjectionReducer.OperationsKeepUniqueKeysIff` | `surfaces/webui/src/adapters/executionProjection.ts:79-193` | an applied operation leaves unique keys exactly when it brings no duplicates in itself |
| `ProjectionReducer.ReduceNeverReportsDuplicates` | `surfaces/webui/src/adapters/executionProjection.ts:210-248` | upserts, removals and the rest never trip the duplicate check |
| `ProjectionReducer.DistinctKeysCommute` | `surfaces/webui/src/adapters/executionProjection.ts:105-169` | upserts and removals on distinct keys, in either order, give the identical projection |
| `ProjectionReducer.ConsecutiveDeltasJoin` | `surfaces/webui/src/adapters/executionProjection.ts:24-77` | reducing two consecutive deltas equals reducing one with their operations concatenated, error for error once the first was accepted |
| `ProjectionReducer.AcceptedDeltasMoveForward` | `surfaces/webui/src/adapters/executionProjection.ts:24-77` | an accepted delta never takes revision or cursor back, leaves the identity alone and has unique keys |
| `ProjectionEffects.LastWriteWins` | `surfaces/webui/src/adapters/executionProjection.ts:82-186` | after an accepted list of operations every part that is replaced as a whole, the revision and the cursor are what the last operation that sets them says, and unchanged if none does |
| `ProjectionEffects.OperationsAreAcceptedIff` | `surfaces/webui/src/adapters/executionProjection.ts:82-186` | a list of operations is accepted exactly when all of them are supported and none takes the cursor back |
| `ProjectionEffects.DeltaIsAcceptedIff` | `surfaces/webui/src/adapters/executionProjection.ts:24-80` | a delta is accepted exactly when it continues the projection in the same scope, its operations are accepted and end at the revision and cursor it announces, and keys are unique then |
| `ProjectionEffects.RefusalsAreTrue` | `surfaces/webui/src/adapters/executionProjection.ts:24-80` | the error of a refused delta names something that is the matter with it |
| `ProjectionReducer.WorkingProjection.ApplyOperation` | `surfaces/webui/src/adapters/executionProjection.ts:79-193` | the operation changes the clone in place as specified, or fails with the same error |
| `ProjectionReducer.ReduceDelta` | `surfaces/webui/src/adapters/executionProjection.ts:24-43` | the loop on the clone returns what the reducer function says; the input is left alone |
| `Dedup.BoundedStoreIsUnboundedHistory` | `crates/edge-adapters/src/platform/dedup.rs:68-112` | with a capacity of at least one, every sequence of calls is answered as the unbounded history of admissions would answer it |
| `Dedup.StoreDecidesAsHistory` | `crates/edge-adapters/src/platform/dedup.rs:72-78` | an id is a duplicate exactly when fewer than `max_size` other ids were admitted since its last admission and that one is younger than the TTL |
| `Dedup.LatestAfter` | `crates/edge-adapters/src/platform/dedup.rs:80-88` | admitting an id moves it to the end of the unbounded store |
| `Dedup.AdmitKeepsNewest` | `crates/edge-adapters/src/platform/dedup.rs:83-88` | removing, evicting and pushing on the bounded store keeps the newest entries of the unbounded one |
| `Dedup.StoreIsBounded` | `crates/edge-adapters/src/platform/dedup.rs:83-88` | ids are unique and the store never exceeds its capacity |
| `Dedup.EvictionEndsIff` | `crates/edge-adapters/src/platform/dedup.rs:84-86` | the eviction loop comes to an end exactly when the capacity is at least one |
| `Dedup.DedupStore.IsDuplicate` | `crates/edge-adapters/src/platform/dedup.rs:68-91` | the method decides as the history does, records the admission otherwise, and keeps the store's invariant |
| `Dedup.DedupStore.MarkSeen` | `crates/edge-adapters/src/platform/dedup.rs:98-112` | the method records the admission unconditionally and keeps the invariant |
| `Dedup.DedupStore.EvictAndPush` | `crates/edge-adapters/src/platform/dedup.rs:84-88` | the eviction loop keeps the newest entries and pushes the new one |
| `ActivityForest.EachActivityIsShownOnceIff` | `surfaces/webui/src/adapters/executionActivity.ts:250-285` | the returned trees show every activity exactly once if and only if no cycle of effective parents has two links that are not parent pointers |
| `ActivityForest.CycleLinkKeptIff` | `surfaces/webui/src/adapters/executionActivity.ts:1002-1015` | on a cycle of effective parents a link is kept exactly when the pointer walk stops at another node of the cycle |
| `ActivityForest.PointersAloneMakeAForest` | `surfaces/webui/src/adapters/executionActivity.ts:250-285` | with parent pointers alone, dangling or cyclic, there is no such cycle |
| `ActivityForest.TwoRelationLinksLoseBoth` | `surfaces/webui/src/adapters/executionActivity.ts:260-278` | two activities contained in each other by relations are both lost: the forest is empty |
| `ActivityForest.RootsCount` | `surfaces/webui/src/adapters/executionActivity.ts:267-278` | an activity is listed among the roots once if it has no link, and otherwise not at all |
| `ActivityForest.ChildrenCount` | `surfaces/webui/src/adapters/executionActivity.ts:267-278` | an activity is listed once among the children of the node it is linked to, and in no other child list |
| `ActivityForest.SiblingsAreSorted` | `surfaces/webui/src/adapters/executionActivity.ts:279-284` | the roots and the children of every node come in the strict order of their events |
| `ActivityForest.WouldCreateCycle` | `surfaces/webui/src/adapters/executionActivity.ts:1002-1015` | the loop terminates on any pointers and answers whether the walk ends before it meets the child |
| `ActivityForest.CollectNodes` | `surfaces/webui/src/adapters/executionActivity.ts:254-259` | the map of nodes: a later activity replaces an earlier one in its place |
| `ActivityForest.CollectRelationParents` | `surfaces/webui/src/adapters/executionActivity.ts:260-266` | the first nesting relation to an activity counts |
| `ActivityForest.LinkNodes` | `surfaces/webui/src/adapters/executionActivity.ts:267-278` | the loop builds exactly the specified root and child lists |
| `ActivityForest.SortTrees` | `surfaces/webui/src/adapters/executionActivity.ts:279-284` | the recursive sort ends, because every list it meets hangs from a root, and gives the nested sorted lists |
| `ActivityForest.ActivityTree` | `surfaces/webui/src/adapters/executionActivity.ts:250-285` | the whole method returns the specified forest |
| `ActivityEvents.BeforeIsAStrictTotalOrder` | `surfaces/webui/src/adapters/executionActivity.ts:986-996` | the comparator is a strict total order on events with distinct ids |
| `ActivityEvents.ResultRunsForward` | `surfaces/webui/src/adapters/executionActivity.ts:986-999` | the result runs forward: by start, then commit cursor, then sequence, then id |
| `ActivityEvents.RowsAreWinners` | `surfaces/webui/src/adapters/executionActivity.ts:219-230` | the merge keeps one entry per id: the last one with the greatest cursor |
| `ActivityEvents.CanonicalIsSortedWinners` | `surfaces/webui/src/adapters/executionActivity.ts:215-234` | the result is the one strictly sorted list of the winning entries |
| `ActivityEvents.OrderIsIrrelevantIff` | `surfaces/webui/src/adapters/executionActivity.ts:215-234` | the result is the same for every order of the entries exactly when entries of one id that share its greatest cursor are equal |
| `ActivityEvents.ProjectionOrderIsIrrelevantIff` | `surfaces/webui/src/adapters/executionActivity.ts:215-234` | the result is the same for every order of the projections exactly when the projections that hold an id's greatest cursor have the same entry for it |
| `ActivityEvents.ProjectionOrderIsIrrelevant` | `surfaces/webui/src/adapters/executionActivity.ts:215-234` | under that condition repeating projections changes nothing either |
| `ActivityEvents.DistinctCursorsAgree` | `surfaces/webui/src/adapters/executionActivity.ts:215-234` | distinct commit cursors for equal ids meet the condition |
| `ActivityEvents.TiesDependOnTheOrder` | `surfaces/webui/src/adapters/executionActivity.ts:219-226` | with one id at one cursor in two projections, the later projection decides |
| `ActivityEvents.CanonicalActivityEvents` | `surfaces/webui/src/adapters/executionActivity.ts:215-234` | the nested loops compute the merge |
| `CreditBridge.CreditIsConserved` | `surfaces/webui/src/apps/iframeBridge.ts:280-287` | bytes posted and credit left never exceed the credit granted, and add up to it while the cap was not reached |
| `CreditBridge.PostedIsANumberedPrefix` | `surfaces/webui/src/apps/iframeBridge.ts:349-358` | the posted slices are non-empty, numbered from zero and concatenate to a prefix of the body |
| `CreditBridge.ReadingMeansAllPosted` | `surfaces/webui/src/apps/iframeBridge.ts:341-359` | a sender that is reading on and was not stopped has posted all that arrived |
| `CreditBridge.ParkedMeansNoCredit` | `surfaces/webui/src/apps/iframeBridge.ts:450-454` | a parked sender has spent all its credit, and the bridge is not disposed |
| `CreditBridge.StopLeavesParkedIff` | `surfaces/webui/src/apps/iframeBridge.ts:269-287` | a step that stops a parked sender (cancelling, disposing, reconnecting, losing authorization or the deadline) leaves it parked if and only if it is the deadline |
| `CreditBridge.OnlyTheDeadlineLeavesASenderParked` | `surfaces/webui/src/apps/iframeBridge.ts:274-279` | in every run, a sender that is stopped and parked met its deadline |
| `CreditBridge.DeadlineDoesNotWake` | `surfaces/webui/src/apps/iframeBridge.ts:318` | a deadline that passes while the sender is parked aborts it and leaves it parked until another event |
| `CreditBridge.NothingFollowsAnAbort` | `surfaces/webui/src/apps/iframeBridge.ts:350-362` | after an abort or disposal no data and no end message is posted, in any continuation |
| `CreditBridge.EndMeansWholeBody` | `surfaces/webui/src/apps/iframeBridge.ts:360-362` | an end message means the whole body was read and posted, with the number of slices as its sequence |
| `CreditBridge.EndIsPostedIff` | `surfaces/webui/src/apps/iframeBridge.ts:360-362` | the end of the body brings an end message exactly when the request was not aborted or disposed |
| `CreditBridge.RunKeeps` | `surfaces/webui/src/apps/iframeBridge.ts:337-361` | every interleaving of credits, aborts, deadline and body reads keeps the invariant |
| `CreditProgress.GrantTakesEffect` | `surfaces/webui/src/apps/iframeBridge.ts:280-287` | a grant does nothing exactly when it is zero, out of range or for a request that is gone; otherwise it adds to the credit up to the cap, and no sender stays parked |
| `CreditProgress.AbortTakesEffect` | `surfaces/webui/src/apps/iframeBridge.ts:274-279` | cancelling and losing authorization stop a request that is still there and wake its sender |
| `CreditProgress.RemovalTakesEffect` | `surfaces/webui/src/apps/iframeBridge.ts:180-262` | so do a reconnect and a disposal, which also remove it |
| `CreditProgress.DeadlineTakesEffect` | `surfaces/webui/src/apps/iframeBridge.ts:316-317` | the deadline stops any request that is not over |
| `CreditProgress.FailureCloses` | `surfaces/webui/src/apps/iframeBridge.ts:364-371` | a failed fetch or read closes the request without an end message |
| `CreditProgress.ReadsBeginOnlyUnlessStopped` | `surfaces/webui/src/apps/iframeBridge.ts:336-345` | a read begins only after a wait, on a bridge that is not disposed, and the first one only for a request that was not aborted |
| `CreditProgress.StoppedSendersGiveUp` | `surfaces/webui/src/apps/iframeBridge.ts:336-355` | where a stopped sender goes when its wait ends: out, or, inside a chunk, to the next read |
| `CreditProgress.DisposedResponsesAreNotRead` | `surfaces/webui/src/apps/iframeBridge.ts:336-340` | a response that arrives after the disposal is not read |
| `CreditProgress.GrantStartsTheFirstRead` | `surfaces/webui/src/apps/iframeBridge.ts:336-345` | a grant and the turns it makes due take a sender parked before its first read to that read |
| `CreditProgress.GrantPostsTheNextSlice` | `surfaces/webui/src/apps/iframeBridge.ts:346-355` | and one parked inside a chunk through exactly the next bytes granted, or the rest of the chunk |
| `CreditProgress.EnoughCreditPostsTheChunk` | `surfaces/webui/src/apps/iframeBridge.ts:346-355` | enough credit in any instalments posts the rest of the chunk, and the sender reads on |
| `CreditProgress.EnoughCreditSendsTheBody` | `surfaces/webui/src/apps/iframeBridge.ts:334-360` | with enough credit for each chunk, in any instalments, any body is posted whole and ends with an end message |
| `CreditBridge.ActiveRequest.CreditMessage` | `surfaces/webui/src/apps/iframeBridge.ts:280-287` | the handler caps the credit and wakes the sender |
| `CreditBridge.ActiveRequest.CancelMessage` | `surfaces/webui/src/apps/iframeBridge.ts:274-279` | the handler aborts and wakes the sender |
| `CreditBridge.ActiveRequest.DeadlinePassed` | `surfaces/webui/src/apps/iframeBridge.ts:318` | the timer aborts, wakes nobody, and does nothing once the request is closed |
| `CreditBridge.ActiveRequest.BodyEnded` | `surfaces/webui/src/apps/iframeBridge.ts:348-362` | the end of the body closes the request where the step system says |
| `CreditBridge.ActiveRequest.WaitForCredit` | `surfaces/webui/src/apps/iframeBridge.ts:450-454` | the sender parks exactly without credit while not stopped |
| `CreditBridge.ActiveRequest.PostData` | `surfaces/webui/src/apps/iframeBridge.ts:353-357` | posts the slice the credit allows and takes its length off |
| `CreditBridge.ActiveRequest.Resume` | `surfaces/webui/src/apps/iframeBridge.ts:343-361` | the code after a wait takes the request where the step system says |
| `CreditBridge.ActiveRequest.ChunkRead` | `surfaces/webui/src/apps/iframeBridge.ts:347-352` | the code after a body read takes the request where the step system says |
| `LaneRegistry.OneLiveLanePerKey` | `crates/edge-adapters/src/message_sidecar.rs:48-60` | in every run, with drops interleaving with a lookup, a key has at most one live lane and the registry maps the key to it |
| `LaneRegistry.SameKeyNeverOverlaps` | `crates/edge-adapters/src/message_sidecar.rs:580-582` | two sends with the same session key are never inside the lane together |
| `LaneRegistry.SameKeySameLane` | `crates/edge-adapters/src/source_sidecar.rs:628-635` | tasks on the same resource key hold the same lane |
| `LaneRegistry.RunKeeps` | `crates/edge-adapters/src/source_sidecar.rs:61-72` | every step of lookups, pruning, creation, locking and drops keeps the invariant |
| `LaneProgress.PruningKeepsTheLive` | `crates/edge-adapters/src/message_sidecar.rs:52` | looking at the entries in any order removes exactly those whose lane is dead and changes nothing else |
| `LaneProgress.LookupHandsOutTheLane` | `crates/edge-adapters/src/message_sidecar.rs:49-60` | a task that finds the registry's mutex free leaves it with the key's live lane, or with a new one if there is none, and the registry pruned |
| `LaneProgress.LockSucceedsIff` | `crates/edge-adapters/src/message_sidecar.rs:580-582` | in every run a task that has its lane gets the lock exactly when nobody holds it |
| `LaneProgress.UnlockLetsTheNextIn` | `crates/edge-adapters/src/message_sidecar.rs:580-582` | a waiting task gets the lock after the unlock and not before |
| `LaneProgress.LeavingGivesTheReferenceBack` | `crates/edge-adapters/src/message_sidecar.rs:580-582` | leaving gives back one reference and nothing else, and the lane is dead exactly if it was the last |
| `LaneProgress.VisitGetsIn` | `crates/edge-adapters/src/message_sidecar.rs:49-60` | a visit to a lane that nobody holds ends inside it |
| `LaneRegistry.SessionLaneRegistry.Retain` | `crates/edge-adapters/src/message_sidecar.rs:52` | pruning keeps exactly the lanes that are still referenced |
| `LaneRegistry.SessionLaneRegistry.Lane` | `crates/edge-adapters/src/message_sidecar.rs:49-59` | the live lane of the key comes back with one more reference, or a new one; other live lanes stay, dead ones go |

## Left out

Read coherence
- The step system's cache key is a record, and the source's a joined string; ReadsShareTextsIffRecords says when the two agree, and ColonsMayCollide that for some pairs of session ids the string says less.
- TextsAreInjective: asks that neither session id continues the other with a colon, for a class without separators and a path that starts with a slash, and leaves path and headers joined, as the source does.
- Transport outcomes arrive classified (value, failure with status, abort): HTTP status mapping, parsing and the abort-message test are not modelled.
- The sessions a response mentions are a field of the data; the bounded search that extracts them is not modelled.
- Shared reads are entries of a sequence named by index, so object identity is modelled and aliasing of their fields is not.
- Paths are path names without query, and the part after the session's head is a parameter; URL parsing and encoding are not modelled.
- The order of promise callbacks is free wherever the event loop would fix it, so every actual order is covered.

Event log
- BufferIsTheUnacknowledgedTail: holds while the sequence counter is below its 64-bit maximum, as do the other statements about the log; SaturatedSequencesRepeat shows why.
- LagFreeStreamsMissNothing: says nothing about streams that lagged; LaggedResumptionSkipsNothingIff says exactly what those skip.
- The owner's incoming channel, HTTP handling and the closing of the broadcast channel.

Incremental sources
- SQL text, casts, JSON decoding and field selection: a page is the rows above a value, in order, from an offset, at most limit and one.
- ChainDeliversUpToThePosition: assumes a non-blank field value in every row, rows that arrive above all existing values, and at most 2^63 - 1 rows.
- The Bitable path, fixtures and event sources, which page by token or count.
- Checksums, schemas and timestamps of batches and watermarks.

Chunk stream
- The length of a row's encoding is a number attached to the row; the fallback length for a row that fails to encode is not modelled.

Streaming markdown
- Text is a sequence of characters without carriage returns and the separators U+2028 and U+2029, not of UTF-16 units.
- Rendered HTML is identified by the text it was rendered from; what markdown means is not modelled.
- StreamingMarkdownRenderer.RenderCanonical: an empty block list stays empty across later streaming renders, so block conservation starts at a reset.

Mission graph
- Labels, objectives, metrics, execution relations and the map of edges by relation id.
- Compaction of conversation graphs.

Projection reducer
- The twenty operation names are grouped by what they do: upserts and removals by table, and parts replaced as a whole.
- Numeric coercion of revisions and cursors, and locale comparison, which is taken as a strict total order on keys.

Dedup
- DedupStore.constructor: asks for a capacity of at least one, because with zero the source's loop does not end (EvictionEndsIff).
- The asynchronous lock: each call is one turn.

Activities
- Node objects are identified by id, and children lists are kept in a map until the trees are built; of a view only its canonical event is modelled.
- Timestamps, cursors and sequences are integers; locale comparison of ids is taken as their order.

Iframe bridge
- One request at a time: request ids, replay protection, limits on active requests, window messages and error messages.
- A response without a body, whose end message does not wait for credit.
- A request whose id is used again after a reconnect, whose predecessor's cleanup may remove it from the map.

Lanes
- Each task holds one reference to one lane at a time; poisoning of the registry mutex is ignored as in the source.
- Receive loops, generations and connection state of the message sidecar.

Elsewhere
- The WeCom message encryption, which pads twice and strips once, has no inverse to prove.
- Manifest and catalog checks, driver profiles, translations, components and the list of endpoints: tables and single branches.
