# Verification model of the hub front door and the run tooling

This project models the parts of the repository whose correctness spans several functions or whole runs, and
proves what they promise, or exactly when they keep the promise. Every `.dfy` file is one module;
`dafny verify dfyconfig.toml` checks all of them.

## What is modelled

**The front door's event fan-out and resume protocol** (`ops/hub/hub-frontdoor.py`).
- `ChunkedBody`, `ChunkedTail`, `OneShotBody`, `FrameSplitter`, `CursorText`, `ResumeWire`: the byte algorithms that
  turn socket reads into frames. The chunked decoders follow section 7.1 of RFC 9112; the splitter accepts LF LF and
  CRLF CRLF only.
- `MemberQueues`: the per-member queue that merges adjacent deltas of one part.
- `Fanout`, `Sections`, `GroupObject`: a `Group` under its lock. `GroupObject.Group` updates the fields in place, one
  method per critical section, each proved against a step function of `Fanout` and against what the section does to
  queues, members and positions as `Sections` spells it out.
- `EngineFeed`, `ResumeProtocol`, `ResumeAccounts`, `ResumeInvariant`, `ResumeExactlyOnce`, `ResumeQueues`,
  `ResumeLosses`, `Connections`, `Migration`, `TwoSourceMigration`: runs of the group. Every interleaving of upstream connects,
  batches and losses, joins, resume dials and re-dials, heartbeats, stall drops, migrations, leaves and writer steps
  is a run. For each member and source the run keeps an account: where the source's replay starts for the member,
  how far the connection that serves it has come, and every put on its queue, with where it came from.
- `FreshJoins`, `FreshGaps`, `LateGreeting`: members that join without a cursor. They enter first and are greeted
  with the provider's preamble later, whose frames on an instance route may be ordinary events.
- `Placement`: the pin table, least-loaded placement, and stickiness of routing.

**The engine's side of that feed** (`bus/global.ts`, `bus/global-replay.ts`, `handlers/event.ts`):
`ReplayBuffers` (the buffer as an object that pushes, evicts, subscribes and resumes), `EventBuses` (the numbering
of emitted events), `EngineStreams` (one connection of the event route, and when it is what `EngineFeed` assumes).

**The calibration graph** (`device_graph.ts`): `CalibrationGraph`, `TopoSort`, `DeviceVerdicts`.

**The base-tier publisher** (`fleet_projection_verb.ts`): `BaseTierPublisher`, any number of processes over an
epoch file, a counter file, a lock file and a cache, with crashes between any two file operations.

**The run tooling**: `JsonScanner` (`agent_spawn.ts`), `CanonicalJson` (`gate.ts`), `LeaseService`
(`coordination_ledger.ts`), `AdoptionStamps`, `AdoptionSweep`, `IncrementalSweep`, `SweepPlanner` (`claims.ts`,
`claims_verb.ts`), `PromotionPool` (`curation.ts`), `IndexView` (`claims.ts`), `EventQueues` (`event_queue.ts`),
`CloudMirroring`, `CloudPump` (`cloud_client.ts`).

`Prelude`, `ByteText`, `NameOrder` and `Sorting` hold shared vocabulary.

## What the code does not promise after all

Where a comment or an obvious expectation is stronger than the code, the code is kept and the exact condition is
proved.

- A chunk-size line may carry a negative number (Python's `int` accepts it). What is then emitted depends on how
  the reads are cut; a size line is cut-safe exactly when its number is not negative (`CutSafeIffUnsigned`).
- After the last chunk, the tail the decoder keeps depends on the cut, unless nothing follows the last-chunk line
  (`TailCutFreeIff`). The one-shot decoder need not end at all; it ends exactly when it does so within as many
  turns as the body has bytes, and one (`EndsIffWithinLength`, `NegativeSizeCircles`).
- Resume is exactly once unless a step takes one of three branches: a dial's preamble meets a full queue, a
  member migrates onto an upstream that already stands past the recorded position, or a reconnecting shared
  upstream passes events in its preamble window (`ExactlyOnceIffNoLoss`). The second branch is reachable although
  the migration compares positions: an upstream counts as live before it has shown a position
  (`StaleMigrationLosesAnEvent`).
- A member that joins without a cursor is greeted after it has entered: what is fanned in between reaches it ahead
  of the preamble (`LateGreetingReorders`). Its queue is in order exactly when no such step happens
  (`InOrderIffGreetedInTime`), complete exactly when nothing passes it by (`AllThereIff`), and never repeats an
  event (`NeverTwice`).
- The engine's event route merges heartbeats past the queue. Its wire is what the hub assumes exactly when no
  heartbeat overtakes a queued event (`WireFollowsIff`); a connection that breaks off there resumes past the event
  (`OvertakenIsNotReplayed`).
- The replay buffer promises that nothing is missed or delivered twice. For `<epoch>:<seq>` cursors of ordinary
  subscribers that holds (`DeliversExactly`, `ResumeIsExact`). A payload-id cursor may resolve to a late sync copy
  below the floor and then misses events silently (`RetainedSufficesIff`, `PayloadCursorMissesAnEvent`); a
  subscriber of sync copies that leaves between an event and its copy never gets the copy (`ResumeIsExactIff`,
  `SyncCopyIsLost`).
- Route stickiness holds for requests handled one at a time. Interleaved requests keep every session on one shard
  exactly when no answer, the default shard's included, is followed by a pin elsewhere (`SteadyIffNoPinMoves`,
  `RacingRequestsSplitASession`, `DefaultAnswerIsNotSticky`).
- Publication can go on exactly while the lock has a living owner or none, the epoch file is not left empty by a
  dead process, and the counter file is usable (`PublishableIffNotStuck`). A crash ends it at two points: holding
  the lock, or between creating the epoch file and writing it (`CrashSticksIff`, `StuckForever`).
- A verified result is replaced by an unverified one of higher fidelity, and the work can be claimed again
  (`VerifiedStaysIff`, `VerifiedWorkCanBeRegranted`).
- `canonicalize` drops properties called `__proto__`, because assigning that key sets the prototype
  (`CanonKeepsContentIff`, `ProtoIsNotHashed`).
- A citation whose reference goes on with a dash marks the shorter reference as recorded
  (`DashedReferenceSwallowsShorter`), and the sweep's `file|ref` key can merge two adoptions when file names hold
  a bar (`CompleteIffKeysApart`, `BarHidesAnAdoption`). Then, and only then, does the history of sweeps matter
  (`IncrementalEqualsBatchIff`).
- A promotion cap of zero or below never drains the pool (`DrainsIffCapPositive`).
- An iteration served after a later one is never mirrored (`LateIterationIsLost`).

## Model

| member | source | states |
|---|---|---|
| ChunkedBody.Dechunk | ops/hub/hub-frontdoor.py:1580-1621 | the in-place loop consumes a read exactly as the decoder specification does: emitted bytes, kept tail and state |
| ChunkedBody.AfterLastChunkIff | ops/hub/hub-frontdoor.py:1596-1600 | after the last chunk the tail kept is what follows the first CR LF, and nothing if there is none |
| ChunkedBody.CutInvariance | ops/hub/hub-frontdoor.py:1580-1621 | cutting a read anywhere and carrying the tail emits the same bytes and ends in the same state, and keeps the same tail if the cut comes before the last chunk was seen, for every buffer without negative sizes |
| ChunkedBody.DecodeWellFormed | ops/hub/hub-frontdoor.py:1580-1621 | on every well-formed chunked body (extensions, blanks and trailers included) the decoder emits exactly the joined payloads and finishes |
| ChunkedBody.CutSafeIffUnsigned | ops/hub/hub-frontdoor.py:1592-1612 | a size line gives cut-independent output if and only if its number is not negative |
| ChunkedTail.TailCutFreeIff | ops/hub/hub-frontdoor.py:1596-1600 | for unsigned bodies the kept tail is the same for every cut if and only if nothing follows the last-chunk line |
| OneShotBody.DechunkOnce | ops/hub/hub-frontdoor.py:589-599 | wherever the one-shot loop ends it answers as specified: Python slices and indexes, negative sizes and the fallbacks to the raw body included |
| OneShotBody.EndsIffWithinLength | ops/hub/hub-frontdoor.py:589-599 | the one-shot loop ends at all if and only if it ends within one turn more than the body has bytes |
| OneShotBody.NegativeSizeCircles | ops/hub/hub-frontdoor.py:589-599 | a body on which the one-shot loop goes on for ever |
| OneShotBody.OnceWellFormed | ops/hub/hub-frontdoor.py:589-599 | the one-shot decoder recovers the joined payloads of every well-formed body |
| OneShotBody.DecodersAgree | ops/hub/hub-frontdoor.py:589-599 | the incremental and the one-shot decoder agree with each other and with the payloads |
| FrameSplitter.ParseFrames | ops/hub/hub-frontdoor.py:1103-1120 | the peeling loop loses no byte, every frame is text that ends with its first LF LF or CR LF CR LF, and the remainder holds neither |
| FrameSplitter.FrameEndIff | ops/hub/hub-frontdoor.py:1110-1119 | no frame is complete if and only if neither LF LF nor CR LF CR LF occurs; else it ends with the one that begins first |
| FrameSplitter.FramesComeBack | ops/hub/hub-frontdoor.py:1103-1120 | complete frames followed by text without a separator are split into exactly those frames |
| FrameSplitter.EngineFraming | ops/hub/hub-frontdoor.py:1103-1120 | texts without an empty line, each ended by LF LF, come back one by one |
| FrameSplitter.SplitInvariance | ops/hub/hub-frontdoor.py:1103-1120 | splitting a stream as it arrives, carrying the remainder, equals splitting it at once |
| FrameSplitter.FramesAreComplete | ops/hub/hub-frontdoor.py:1103-1120 | frames and remainder together are the stream, each frame ends with its first separator, the remainder holds none |
| ResumeWire.ResumeReader.OnRead | ops/hub/hub-frontdoor.py:1740-1750 | one read of a resume dial: dechunk with the carried tail if the body is chunked, then split with the carried partial frame |
| ResumeWire.ReadsDoNotMatter | ops/hub/hub-frontdoor.py:1666-1672 | for every split into reads, a dial yields the frames and remainder of one pass over the decoded body |
| ResumeWire.WellFormedReads | ops/hub/hub-frontdoor.py:1740-1750 | any reads that make up a well-formed body yield exactly the frames of the joined payloads |
| CursorText.FrameSsePos | ops/hub/hub-frontdoor.py:1122-1133 | the line loop finds the position that the frame's first usable id line shows |
| CursorText.SsePosIff | ops/hub/hub-frontdoor.py:1122-1133 | a frame shows a position if and only if it stands on an id line that no other id line precedes |
| CursorText.LinePositionIff | ops/hub/hub-frontdoor.py:1122-1133 | a line shows a position if and only if it is `id:`, blanks, a non-empty epoch, its last colon, digits and blanks |
| CursorText.CursorParsesBack | ops/hub/hub-frontdoor.py:1807-1808 | the cursor of a re-dial reads back as the recorded position by the front door's own reader |
| CursorText.EngineReadsBackIff | packages/app-bundle/overlay/packages/opencode/src/bus/global-replay.ts:80-84 | the engine reads a re-dial's cursor back as the recorded position if and only if the epoch is in the engine's alphabet |
| CursorText.EnginesReadAlike | packages/app-bundle/overlay/packages/opencode/src/bus/global-replay.ts:80-84 | on any text the engine reads a position exactly when the front door reads it from the trimmed text and its epoch is in the alphabet |
| CursorText.EpochAlphabet | packages/app-bundle/overlay/packages/opencode/src/bus/global-replay.ts:80-84 | an epoch is made of letters, digits, underscore and hyphen |
| CursorText.IdLineRoundTrip | ops/hub/hub-frontdoor.py:1122-1133 | a frame that starts with the engine's id line shows exactly that position |
| MemberQueues.MemberQueue.PutItem | ops/hub/hub-frontdoor.py:1054-1060 | a plain put appends and closes the mergeable tail |
| MemberQueues.MemberQueue.PutFrameCoalescing | ops/hub/hub-frontdoor.py:1062-1072 | if the tail is the remembered text delta of the same part and the joined payload is within 262144, only the tail's text changes, to old + new under the old ids; in every other case one item is added |
| MemberQueues.BurstTakesOnePlace | ops/hub/hub-frontdoor.py:1062-1072 | however many text deltas of one part come one after the other within the limit, they occupy one place |
| MemberQueues.EveryPartReadsTheSame | ops/hub/hub-frontdoor.py:1010-1042 | over every interleaving the text of each part, taken or queued, is the text that was put, in order |
| MemberQueues.MemberQueue.Get | ops/hub/hub-frontdoor.py:1074-1079 | takes the oldest item; an emptied queue has no mergeable tail |
| MemberQueues.PutKeepsMeaning | ops/hub/hub-frontdoor.py:1062-1072 | a put, merged or not, adds exactly the meaning of the frame put |
| MemberQueues.MeaningIsNormal | ops/hub/hub-frontdoor.py:1010-1042 | the meaning of a queue has no two adjacent deltas of one part |
| MemberQueues.NormalMeansItself | ops/hub/hub-frontdoor.py:1010-1042 | a sequence with nothing to merge means itself, so the normal form is unique |
| MemberQueues.CoalescingPreservesMeaning | ops/hub/hub-frontdoor.py:1044-1082 | over every interleaving of puts, coalescing puts and gets: taken plus queued means exactly what was put, and the visible ids are a subsequence of the ids put |
| GroupObject.Group.constructor | ops/hub/hub-frontdoor.py:1244-1289 | a new group is idle and consistent |
| GroupObject.Group.UpstreamUp | ops/hub/hub-frontdoor.py:1377-1395 | a connect marks the shard live, records the preamble's positions without fanning them, and provides the join preamble if none is provided |
| GroupObject.Group.SharedBatch | ops/hub/hub-frontdoor.py:1467-1503 | one section: positions observed, every member with room gets the whole batch, full members leave with a sentinel |
| GroupObject.Group.UpstreamDown | ops/hub/hub-frontdoor.py:1512-1519 | a lost upstream stops being live, is counted off, and gives up the join preamble if it provided it; the leaves and drops that follow when none is left are steps of their own |
| GroupObject.Group.QueuePreamble | ops/hub/hub-frontdoor.py:1554-1576 | a joined member gets the preamble's complete frames as far as its queue has room |
| GroupObject.Group.GiveHead | ops/hub/hub-frontdoor.py:1673-1676 | the front door's own head is put once per resuming member |
| GroupObject.Group.ResumePreamble | ops/hub/hub-frontdoor.py:1690-1706 | a dial's first batch: positions recorded, frames put only while there is room |
| GroupObject.Group.TryMigrate | ops/hub/hub-frontdoor.py:1777-1790 | migrates exactly when every source is live and recorded at the shared position |
| GroupObject.Group.ResumeBatch | ops/hub/hub-frontdoor.py:1756-1792 | a later batch and the migration check in one section; a stalled member gets nothing |
| GroupObject.Group.Leave | ops/hub/hub-frontdoor.py:1810-1818 | leaving removes the member everywhere and puts the sentinel |
| GroupObject.Group.Drop | ops/hub/hub-frontdoor.py:1330-1335 | dropping removes the member everywhere |
| GroupObject.FanoutIsPointwise | ops/hub/hub-frontdoor.py:1467-1503 | what a batch does to one member does not depend on any other member's queue |
| Sections.LastPosIs | ops/hub/hub-frontdoor.py:1467-1474 | the position taken from a batch is the one on its last numbered frame, and none if no frame has one |
| Sections.LastEidIs | ops/hub/hub-frontdoor.py:1467-1474 | the payload id kept after a batch is the last one a frame carries, else the earlier one |
| Sections.FannedIsFed | ops/hub/hub-frontdoor.py:1490-1503 | a member with room is fed every frame of the batch in order, deltas joined to the tail where they may be, everything else as an item of its own |
| Sections.PlainIsAppended | ops/hub/hub-frontdoor.py:1490-1503 | a batch without deltas is appended to the queue frame by frame |
| Sections.RelayedIs | ops/hub/hub-frontdoor.py:1756-1771 | what a dial relays is its batch without the engine's HTTP heads, in order |
| Sections.PreambleIsFilled | ops/hub/hub-frontdoor.py:1690-1706 | once the head is given, a dial's preamble fills the queue up to 64 places and records its last position, dropped frames included |
| Fanout.ResumeBatchServes | ops/hub/hub-frontdoor.py:1756-1792 | who is served how after a resume batch: migration, positions recorded, or nothing |
| Migration.LastShownIff | ops/hub/hub-frontdoor.py:1761-1766 | the position recorded from a batch is the one on its last numbered frame that is no HTTP head |
| Migration.MigratesIff | ops/hub/hub-frontdoor.py:1756-1792 | after a resume batch a member rides the shared fan-out if and only if the batch was not empty, its queue had room, its head was given, and every source of the group is live at exactly the position the member has recorded |
| Migration.MigratesInRunIff | ops/hub/hub-frontdoor.py:1777-1790 | in every reachable state and for any number of sources, the same |
| TwoSourceMigration.MovesWhenBothAgree | ops/hub/hub-frontdoor.py:1777-1790 | a concrete run over two sources: a member stays on its dials while one source is behind and moves when both agree |
| EngineFeed.DeliveredExactly | packages/app-bundle/overlay/packages/opencode/src/bus/global-replay.ts:167-173 | a batch that follows a connection's position holds exactly the events between its two positions, in order |
| EngineFeed.LastPosIsEnd | ops/hub/hub-frontdoor.py:1383-1386 | the last position observed in a batch that follows its connection is where the connection stands |
| ReplayBuffers.ReplayBuffer.Push | packages/app-bundle/overlay/packages/opencode/src/bus/global-replay.ts:143-160 | a frame is logged, reaches every subscription, held back or delivered, and only then the fewest oldest frames that bring the bounds back are dropped |
| ReplayBuffers.ReplayBuffer.Evict | packages/app-bundle/overlay/packages/opencode/src/bus/global-replay.ts:240-253 | exactly the excess oldest frames go; slots, head, bytes and floor keep describing the log without them, compaction included |
| ReplayBuffers.ExcessIsLeast | packages/app-bundle/overlay/packages/opencode/src/bus/global-replay.ts:239-248 | what remains is within the byte and age bounds, and dropping fewer would not do |
| ReplayBuffers.ReplayBuffer.Subscribe | packages/app-bundle/overlay/packages/opencode/src/bus/global-replay.ts:174-206 | the position, reset and replay a cursor gets; at or above the floor the replay is everything ever pushed after the position |
| ReplayBuffers.Resolve | packages/app-bundle/overlay/packages/opencode/src/bus/global-replay.ts:208-233 | a position is served if and only if it is of this epoch and between the floor and the current number; a payload id resolves to the newest retained frame not after it |
| ReplayBuffers.BelowFloorIff | packages/app-bundle/overlay/packages/opencode/src/bus/global-replay.ts:240-248 | a position lies below the floor if and only if it precedes the buffer or something after it was dropped |
| ReplayBuffers.ReplayBuffer.Start | packages/app-bundle/overlay/packages/opencode/src/bus/global-replay.ts:195-200 | what was held back is delivered, all of it, before live frames |
| ReplayBuffers.ReplayBuffer.DeliversExactly | packages/app-bundle/overlay/packages/opencode/src/bus/global-replay.ts:167-173 | in every reachable state, replay and live frames together are exactly the frames pushed after the position, in order |
| ReplayBuffers.NumbersIncrease | packages/app-bundle/overlay/packages/opencode/src/bus/global.ts:58-73 | without sync copies the numbers delivered strictly increase |
| ReplayBuffers.ResumeIsExactIff | packages/app-bundle/overlay/packages/opencode/src/bus/global-replay.ts:167-173 | a returning client gets exactly what it lacks if and only if its position separates what it has from what it lacks, sync copies included |
| ReplayBuffers.ResumeIsExact | packages/app-bundle/overlay/packages/opencode/src/bus/global-replay.ts:167-173 | without sync copies the last position a client was given always does |
| ReplayBuffers.SyncCopyIsLost | packages/app-bundle/overlay/packages/opencode/src/bus/global-replay.ts:89-100 | a case where a sync copy is never delivered |
| ReplayBuffers.RetainedSufficesIff | packages/app-bundle/overlay/packages/opencode/src/bus/global-replay.ts:188-190 | reading only what is retained misses nothing if and only if nothing wanted that was dropped lay after the position |
| ReplayBuffers.PayloadCursorMissesAnEvent | packages/app-bundle/overlay/packages/opencode/src/bus/global-replay.ts:222-232 | a run in which a payload-id cursor is served without an event it lacks and without a reset |
| EventBuses.GlobalBus.Emit | packages/app-bundle/overlay/packages/opencode/src/bus/global.ts:49-73 | every event gets the next number, a sync copy its source's while that is remembered; it is framed for every subscription unless it cannot be serialized |
| EventBuses.EmitWithCopy | packages/app-bundle/overlay/packages/opencode/src/bus/global.ts:53-73 | a sync copy that follows its source at once is framed as a copy under the source's number |
| EngineStreams.Open | packages/app-bundle/overlay/packages/opencode/src/server/routes/instance/httpapi/handlers/event.ts:101-133 | a request starts a connection at its resolved position, with the greeting and everything pushed after it as preamble |
| EngineStreams.PreambleAndQueue | packages/app-bundle/overlay/packages/opencode/src/server/routes/instance/httpapi/handlers/event.ts:101-133 | preamble and queue together are the instance's view of all frames after the position |
| EngineStreams.WireFollowsIff | packages/app-bundle/overlay/packages/opencode/src/server/routes/instance/httpapi/handlers/event.ts:144-187 | over every run of a connection, the wire is a feed as the hub assumes if and only if no heartbeat was written while an event waited in the queue |
| EngineStreams.OvertakenIsNotReplayed | packages/app-bundle/overlay/packages/opencode/src/server/routes/instance/httpapi/handlers/event.ts:147-150 | an event overtaken by a heartbeat is not replayed after the position the heartbeat showed |
| ResumeProtocol.QueueFollowsPuts | ops/hub/hub-frontdoor.py:1761-1771 | every step changes a member's queue by exactly the puts the account records |
| ResumeAccounts.EveryAccountStep | ops/hub/hub-frontdoor.py:1623-1808 | what any step puts for a source is a subsequence of the events it passes, and all of them if and only if the step takes no losing branch |
| ResumeAccounts.MigrationPosition | ops/hub/hub-frontdoor.py:1777-1785 | at a migration the member's position is the recorded shared position on every source |
| ResumeInvariant.InvStep | ops/hub/hub-frontdoor.py:1364-1808 | every step keeps: members stand where the shared upstream stands, resuming members where their dial continues, recorded positions are never ahead |
| ResumeExactlyOnce.FeedExactIffNoLoss | ops/hub/hub-frontdoor.py:1623-1808 | over every run the feeds bring any member an in-order, duplicate-free part of its account, and exactly its account if and only if no step took a losing branch |
| ResumeExactlyOnce.ExactlyOnceIffNoLoss | ops/hub/hub-frontdoor.py:1623-1808 | over every run a resumed member's queue holds, from each source, exactly the events after its cursor, in order, if and only if no step took a losing branch |
| ResumeExactlyOnce.NeverTwiceNeverReordered | ops/hub/hub-frontdoor.py:1623-1808 | in any run at all, no event of a source reaches a resumed member twice, out of order or from outside its account |
| ResumeExactlyOnce.ResumedStartsAtCursor | ops/hub/hub-frontdoor.py:1642 | a resumed member's account with every source starts at the cursor it brought |
| Connections.DialIsUpIff | ops/hub/hub-frontdoor.py:1642-1808 | over every run a dial is up if and only if it was made and since then neither lost nor hung up on for a stalled or departed member |
| Connections.WaitsIff | ops/hub/hub-frontdoor.py:1554-1576 | over every run a join waits for its greeting if and only if it has not yet come round to a preamble |
| ResumeExactlyOnce.FreshPosRun | ops/hub/hub-frontdoor.py:1383-1386 | when shared preambles are numbered, a live upstream's recorded position is where it stands |
| ResumeExactlyOnce.ResumeExactlyOnceTheorem | ops/hub/hub-frontdoor.py:1623-1808 | with roomy dial preambles, numbered shared preambles and no shared reconnect after migration, a resumed member gets every event after its cursor once and in order, across dials, re-dials and migration |
| ResumeQueues.DeliveredMeansPut | ops/hub/hub-frontdoor.py:1353-1363 | over every run, what the writer sent plus what is queued means exactly what was put |
| ResumeQueues.QueuesWellKept | ops/hub/hub-frontdoor.py:1467-1503 | over every run: queue length below the stall limit plus one batch (plus the sentinel once inactive), head first for resumed members, nothing after the sentinel |
| ResumeLosses.StaleMigrationLosesAnEvent | ops/hub/hub-frontdoor.py:1378-1386 | a concrete run in which a member migrates onto a reconnected upstream before it has shown a position, and misses an event |
| FreshJoins.NeverTwice | ops/hub/hub-frontdoor.py:1301-1316 | in any run at all, no event reaches any member twice, the greeting included |
| FreshJoins.InOrderIffGreetedInTime | ops/hub/hub-frontdoor.py:1554-1576 | a fresh member's events are in order if and only if it is not greeted from behind what was already fanned to it |
| FreshJoins.GreetingInWindow | ops/hub/hub-frontdoor.py:1301-1316 | a greeting brings only events of its provider's preamble window |
| FreshGaps.AllThereIff | ops/hub/hub-frontdoor.py:1554-1576 | a fresh member has every event of a source up to where it stands if and only if nothing passed it by and no greeting is still owed |
| LateGreeting.LateGreetingReorders | ops/hub/hub-frontdoor.py:1554-1576 | a concrete run in which a fresh member gets the second event before the first |
| Placement.Tally | ops/hub/hub-frontdoor.py:180-184 | counts tallied from any saved map agree with it on every shard |
| Placement.PinTable.PinSession | ops/hub/hub-frontdoor.py:186-197 | a pin moves the session and both counts; agreement of counts and map is kept |
| Placement.PinTable.RouteSession | ops/hub/hub-frontdoor.py:283-290 | a session request is answered from the map, else with the only member of its pool or its placement, which is pinned, else with the default shard and nothing is pinned |
| Placement.PinKeepsAgreement | ops/hub/hub-frontdoor.py:186-197 | whatever is pinned or re-pinned, every count is the number of sessions mapped to its shard |
| Placement.PlaceSession | ops/hub/hub-frontdoor.py:249-258 | the floor is the pool member of least load, lowest shard id on ties |
| Placement.LoadIsCounted | ops/hub/hub-frontdoor.py:244-257 | the load compared is the dials and groups a shard shows plus the sessions pinned to it |
| Placement.GapStaysBounded | ops/hub/hub-frontdoor.py:244-258 | raising a least-loaded shard by one keeps the gap within the larger of the previous gap and one |
| Placement.AdmissionsLevelThePool | ops/hub/hub-frontdoor.py:244-258 | under fixed dials and groups no admission widens the gap past one, and once the first shortfall has been admitted the pool is level to within one |
| Placement.HandledOneAtATimeIsSticky | ops/hub/hub-frontdoor.py:273-290 | with requests handled one after the other, a session that was found or placed keeps its shard for ever |
| Placement.UninterruptedIsRouted | ops/hub/hub-frontdoor.py:283-290 | a lookup and its commit with nothing in between are the routing of one request |
| Placement.SteadyIffNoPinMoves | ops/hub/hub-frontdoor.py:284-290 | with lookups, commits and sniffed pins interleaved, every session is answered with one shard if and only if no pin differs from an answer already given, default answers included |
| Placement.DefaultAnswerIsNotSticky | ops/hub/hub-frontdoor.py:290 | a session answered by the default shard can be answered otherwise once it has a pool |
| Placement.RacingRequestsSplitASession | ops/hub/hub-frontdoor.py:284-290 | lookup, lookup, commit, commit: two first requests of one session answered with two shards |
| TopoSort.BuildEdges | packages/amico-run/src/device_graph.ts:128-140 | the indegree and dependents tables count every listed known dependency, repeats included, and nothing else |
| TopoSort.TopoSort | packages/amico-run/src/device_graph.ts:127-157 | an order is returned if and only if the known-dependency graph has no cycle; at the first difference with any other topological order it has the name with the smaller code unit, or a beginning of the other name |
| CalibrationGraph.GreedyIsLexLeast | packages/amico-run/src/device_graph.ts:141-156 | always taking the smallest ready node gives the lexicographically first of all topological orders |
| NameOrder.LessIff | packages/amico-run/src/device_graph.ts:141-152 | one name comes before another if and only if it is a proper beginning of it or has the smaller code unit at the first difference |
| CalibrationGraph.StuckMeansCycle | packages/amico-run/src/device_graph.ts:156 | if nodes remain and none is ready, they contain a cycle |
| CalibrationGraph.CycleBlocks | packages/amico-run/src/device_graph.ts:156 | a graph with a topological order has no cycle |
| DeviceVerdicts.OwnStatus | packages/amico-run/src/device_graph.ts:226-247 | when a node is uncharacterized, failed, stale or calibrated, a failure outranking age; its own state never makes it suspect |
| DeviceVerdicts.ComputeDepths | packages/amico-run/src/device_graph.ts:192-198 | the depth of each node is exactly the length of the longest dependency chain ending there |
| DeviceVerdicts.DependencyIsShallower | packages/amico-run/src/device_graph.ts:192-198 | a dependency is strictly shallower than its dependents |
| DeviceVerdicts.UnderminedByDirect | packages/amico-run/src/device_graph.ts:254-270 | a transitive dependency with its own problem exists exactly when some direct dependency does not end calibrated |
| DeviceVerdicts.Propagate | packages/amico-run/src/device_graph.ts:258-270 | one pass marks a node suspect exactly when it is calibrated itself and some transitive dependency is not; others keep their own status |
| DeviceVerdicts.Evaluate | packages/amico-run/src/device_graph.ts:249-297 | one verdict per node with its final status, the age and problem of its own record, its true depth and its action; shallower first, older first, then by name; every known dependency before its dependents |
| BaseTierPublisher.NextCounter | packages/amico-run/src/fleet_projection_verb.ts:238-253 | exactly the least counter not behind the wall second and past the one recorded for the same epoch; it throws exactly on an unusable file or when that is no safe integer |
| BaseTierPublisher.PublishedCountersIncrease | packages/amico-run/src/fleet_projection_verb.ts:212-327 | for any number of racing and crashing processes, any clock and any files left behind, published counters strictly increase in publication order and carry one epoch |
| BaseTierPublisher.EveryStampIsComputed | packages/amico-run/src/fleet_projection_verb.ts:238-327 | every published stamp was computed earlier in the run by its publisher: the clock's second as read then, or one past what the counter file then recorded for the epoch if that is larger, and it was in the file before it was published |
| BaseTierPublisher.FailureReleases | packages/amico-run/src/fleet_projection_verb.ts:254-260 | a publication that fails gives the lock back and has published nothing |
| BaseTierPublisher.FirstPublishersAgree | packages/amico-run/src/fleet_projection_verb.ts:186-199 | all processes past the epoch file agree on the epoch it holds, and at most one holds the lock |
| BaseTierPublisher.PublishableIffNotStuck | packages/amico-run/src/fleet_projection_verb.ts:186-327 | from any reachable world another publication is reachable if and only if the lock is not orphaned, the epoch file is not empty with a dead creator, and the counter file is usable |
| BaseTierPublisher.CrashSticksIff | packages/amico-run/src/fleet_projection_verb.ts:186-229 | a crash makes publication impossible exactly when the process held the lock or had created the epoch file without writing it |
| BaseTierPublisher.StuckForever | packages/amico-run/src/fleet_projection_verb.ts:186-229 | once stuck nothing is ever published again, whatever is scheduled |
| JsonScanner.FirstJsonObject | packages/amico-run/src/agent_spawn.ts:169-198 | the character loop selects the first balanced object, outside strings and escapes, and parses it |
| JsonScanner.SelectsPrintedObject | packages/amico-run/src/agent_spawn.ts:169-198 | inside any text, exactly the characters of a printed object are selected if and only if no opening brace comes before it |
| JsonScanner.ParseAgentOutput | packages/amico-run/src/agent_spawn.ts:137-165 | the newest text part that holds an object answers; raw output is searched only when there is no text part |
| JsonScanner.AnswerSurvivesProse | packages/amico-run/src/agent_spawn.ts:169-198 | an object printed inside brace-free prose comes back as that object |
| CanonicalJson.Canonicalize | packages/amico-run/src/gate.ts:39-48 | the loop over sorted keys builds the canonical form, with JavaScript's own key enumeration order |
| CanonicalJson.CanonicalFormsEqual | packages/amico-run/src/gate.ts:39-48 | two specs have one canonical form exactly when they agree up to key order on every property not called `__proto__` |
| CanonicalJson.CanonicalFormsEqualIffSame | packages/amico-run/src/gate.ts:39-48 | without such properties: exactly when they differ only by key order, array order counting |
| CanonicalJson.CanonicalKeysInOrder | packages/amico-run/src/gate.ts:39-48 | a canonical object lists array indices by number and then the other keys by code units |
| CanonicalJson.CanonIdempotent | packages/amico-run/src/gate.ts:39-48 | canonicalizing twice changes nothing |
| CanonicalJson.CanonKeepsContentIff | packages/amico-run/src/gate.ts:39-48 | the canonical form keeps a spec's whole content if and only if the key `__proto__` is never used |
| CanonicalJson.ProtoIsNotHashed | packages/amico-run/src/gate.ts:187 | two different specs with one canonical form |
| LeaseService.CoordinationService.PreflightCall | packages/amico-run/src/coordination_ledger.ts:74-103 | dedup, conflict or a fresh lease, as decided on the stored result and the lapse of the present lease |
| LeaseService.CoordinationService.HeartbeatCall | packages/amico-run/src/coordination_ledger.ts:105-110 | rewrites the expiry of an unlapsed claim of the same agent, and nothing else |
| LeaseService.CoordinationService.ReleaseCall | packages/amico-run/src/coordination_ledger.ts:112-121 | records the outcome of the agent's own claim; the lease keeps running |
| LeaseService.CoordinationService.PublishCall | packages/amico-run/src/coordination_ledger.ts:123-129 | replaces a stored result only by one of higher fidelity |
| LeaseService.LeasesFollowEachOther | packages/amico-run/src/coordination_ledger.ts:74-121 | over every run: only the holder extends, only before its lease ends, and the next grant comes at or after that end |
| LeaseService.AtMostOneHolder | packages/amico-run/src/coordination_ledger.ts:74-121 | under a monotone clock, at no time do two agents both hold a lease on one work by the last answer each got |
| LeaseService.AskIsAnswered | packages/amico-run/src/coordination_ledger.ts:74-103 | from the history of posts and replies alone: settled work is named, running work belongs to the last agent told so, and else the asker gets a lease that ends its time after now |
| LeaseService.BeatIsAnswered | packages/amico-run/src/coordination_ledger.ts:105-110 | a heartbeat moves the end of the agent's own running lease to its time after now, and changes nothing else |
| LeaseService.ReleaseIsRecorded | packages/amico-run/src/coordination_ledger.ts:112-121 | a release records the outcome on the claim if it is the agent's own, and moves no lease, no other claim and no result |
| LeaseService.StoredIsFirstBest | packages/amico-run/src/coordination_ledger.ts:123-129 | the stored result is the earliest of the highest-fidelity results ever posted |
| LeaseService.VerifiedStaysIff | packages/amico-run/src/coordination_ledger.ts:123-129 | verified work stays verified if and only if no unverified result of higher fidelity is posted |
| LeaseService.GrantAfterVerified | packages/amico-run/src/coordination_ledger.ts:74-129 | a grant on once-verified work implies such a post in between |
| LeaseService.VerifiedWorkCanBeRegranted | packages/amico-run/src/coordination_ledger.ts:123-129 | a concrete run that grants verified work again |
| AdoptionStamps.StampRecognisesIff | packages/amico-run/src/claims.ts:586-616 | after a stamp, a citation counts as recorded exactly when it did before or its reference is the stamped text up to a dash |
| AdoptionStamps.StampsOnce | packages/amico-run/src/claims.ts:594-616 | a new citation counts one more application, dates it and adds one note that names it; stamping it again changes nothing |
| AdoptionStamps.SweepStampIsExact | packages/amico-run/src/claims.ts:586-593 | for the sweep's own citations the recorded mark is exact |
| AdoptionStamps.DashedReferenceSwallowsShorter | packages/amico-run/src/claims.ts:586-593 | a reference continued by a dash marks the shorter one as recorded |
| AdoptionSweep.TargetIff | packages/amico-run/src/claims.ts:644-647 | a reference names a note if and only if its last segment is the note's file name or its stem |
| AdoptionSweep.ProblemFindingsIff | packages/amico-run/src/claims.ts:681-726 | a stream is read as exactly what its events record: an accepted recommendation adopts what its own references, or those of its key's latest proposal, name |
| AdoptionSweep.OneAdoptionPerClaim | packages/amico-run/src/claims.ts:706-721 | one event adopts a claim once, however often it is referred to |
| AdoptionSweep.PlanKeepsOrder | packages/amico-run/src/claims.ts:716-721 | stamps are planned in the order of the streams |
| AdoptionSweep.CompleteIffKeysApart | packages/amico-run/src/claims.ts:716-721 | every unstamped adoption is planned if and only if no two of them share the plan's key |
| AdoptionSweep.BarHidesAnAdoption | packages/amico-run/src/claims.ts:716-721 | with a bar in a file name one sweep misses an adoption that the next finds |
| SweepPlanner.PlanAdoptionSweep | packages/amico-run/src/claims.ts:681-726 | the loops plan exactly the specified stamps, count every other adoption as already stamped, and name every skipped reference and override |
| SweepPlanner.RegistryNotes.SweepAndApply | packages/amico-run/src/claims_verb.ts:480-510 | planning and stamping in place leaves the registry of one specified sweep, and every planned stamp changes its note |
| IncrementalSweep.SweepStampsCitations | packages/amico-run/src/claims.ts:681-726 | a sweep stamps exactly the adoptions its streams cite and the registry lacks, each once, if and only if those have plan keys of their own |
| IncrementalSweep.CitationsGrow | packages/amico-run/src/claims.ts:685-709 | what a beginning of the streams cites, the longer streams cite too |
| IncrementalSweep.CitedIff | packages/amico-run/src/claims.ts:685-709 | what a sweep reads as cited is exactly what some accepted event records |
| IncrementalSweep.IncrementalEqualsBatch | packages/amico-run/src/claims.ts:586-616 | any sweeps of earlier streams followed by a full sweep give every claim the applied count and citations of one full sweep, when the cited adoptions have keys of their own |
| IncrementalSweep.IncrementalEqualsBatchIff | packages/amico-run/src/claims.ts:716-721 | the history of sweeps never matters if and only if they do |
| IncrementalSweep.ResweepPlansNothing | packages/amico-run/src/claims.ts:716-718 | then sweeping again, the same streams or earlier ones, plans nothing |
| IncrementalSweep.ResweepPlansNothingIff | packages/amico-run/src/claims.ts:716-721 | sweeping the same streams again plans nothing if and only if they do |
| PromotionPool.PlanPromotion | packages/amico-run/src/curation.ts:117-138 | with one claim per file the pool is exactly the tier's live unproposed files by code units, cut at the cap as slice cuts; claims of the other shared tier and claims that are not live are named with their reason, and no others |
| PromotionPool.PoolIsEligibleInOrder | packages/amico-run/src/curation.ts:117-138 | the pool is in strict file order and holds exactly the eligible files |
| PromotionPool.StampingRemovesBundle | packages/amico-run/src/curation.ts:89-93 | stamping a bundle leaves exactly the rest of the pool, in order |
| PromotionPool.BundlesAndPoolAreThePool | packages/amico-run/src/curation.ts:89-138 | the bundles of any number of runs followed by the remaining pool are the first pool: nothing lost, repeated or reordered |
| PromotionPool.RunsTakeTurns | packages/amico-run/src/curation.ts:89-138 | with a cap of at least one, run r proposes the claims from r times the cap on and leaves the rest |
| PromotionPool.EachClaimInOneBundle | packages/amico-run/src/curation.ts:89-138 | over the runs claim k of the pool is in exactly one bundle, that of run k divided by the cap; bundles stay within the cap and in order, and nothing else is proposed |
| PromotionPool.DrainsIffCapPositive | packages/amico-run/src/curation.ts:118-137 | the pool drains if and only if the cap is at least one or there was nothing in it, and is empty exactly from the quotient rounded up |
| IndexView.ChooseIndex | packages/amico-run/src/claims.ts:496-528 | hot claims are emitted or capped and the others excluded in order; both lists go by score and then file name, and a claim is capped exactly when the emitted claims before it fill the index or its kind's share |
| IndexView.ChoiceIsDetermined | packages/amico-run/src/claims.ts:496-528 | those properties admit one choice only |
| EventQueues.EventQueue.Push | packages/amico-run/src/event_queue.ts:7-12 | before the close a value is accepted and answers the longest waiting request; afterwards it is dropped |
| EventQueues.EventQueue.Close | packages/amico-run/src/event_queue.ts:13-16 | every waiting request is told there is nothing more |
| EventQueues.EventQueue.Next | packages/amico-run/src/event_queue.ts:17-25 | request k is answered with accepted value k, with done once closed and exhausted, else waits |
| EventQueues.EventQueue.AnswersInOrder | packages/amico-run/src/event_queue.ts:7-25 | request k has value k once accepted, is told done once closed without one, and else still waits |
| CloudPump.CloudMirror.PollCloud | packages/amico-run/src/cloud_client.ts:393-476 | one poll relays new iteration and pulse lines, then settles on a lost instance or a reported terminal |
| CloudPump.CloudMirror.Settle | packages/amico-run/src/cloud_client.ts:480-491 | the first verdict stands: one finished event, then the close |
| CloudPump.CloudMirror.Pump | packages/amico-run/src/cloud_client.ts:564-592 | the pump follows the specified run, and the consumer's queue holds exactly the log lines and, once settled, one finished event |
| CloudPump.CloudMirror.ConsumerReads | packages/amico-run/src/event_queue.ts:17-25 | in every state of the mirror, request k has been answered with log line k, then the verdict once, then done; until there is a verdict the requests past the log wait |
| CloudMirroring.LogIsRecordsOfServed | packages/amico-run/src/cloud_client.ts:393-435 | whatever polls serve, the logged iterations and pulses are the records of everything served, and the first meta row is logged once |
| CloudMirroring.LogIsLongestPrefix | packages/amico-run/src/cloud_client.ts:400-406 | when polls serve prefixes of one increasing history, the logged iterations are the longest prefix served, once and in order |
| CloudMirroring.LateIterationIsLost | packages/amico-run/src/cloud_client.ts:402 | an iteration served after a later one is never logged |
| CloudMirroring.InferredIffLost | packages/amico-run/src/cloud_client.ts:463-474 | the verdict is an inferred one exactly when the log says the run was lost |
| CloudMirroring.VerdictIsReported | packages/amico-run/src/cloud_client.ts:469-474 | any other verdict is the status reported by the last poll taken |
| CloudMirroring.VerdictIff | packages/amico-run/src/cloud_client.ts:463-592 | a turn decides a run exactly by what the polls so far showed: a reported end with its exit code, or a failure by inference when the instance is gone unreported, no sign of life came in the warming time, or no poll got through for too long |

## Left out

Assumptions of the resume model:
- Cursors are servable: the unservable-cursor filter, which drops a frame and a partial tail (lines 1688 and 1751-1753), is not modelled.
- An engine keeps one epoch per source during a run, and a dial delivers its frames contiguously after its cursor; a cursor-less connect never goes back behind what an earlier one delivered.
- Control frames never show a position ahead of events still to be delivered. The engine's event route can break this with a heartbeat (`WireFollowsIff`); what the hub then does is not modelled.
- Each member socket joins once; its identity is not reused.
- Frames carry a position, a payload id and a body; the bytes of a merged frame are not rendered, only their length enters (as a parameter), and a synthetic heartbeat is any frame without a position.
- Queues are values in a map of the group, so that a queue object shared by two dictionaries is one entry; dial threads' cancel flags are folded into membership of `resumes`.
- When all upstreams are lost or a member stalls, closing sockets, threads, timeouts, back-off, the dead-man timer and the 401 handling are left out; only their effect on the group is a step.

Assumptions elsewhere:
- OneShotBody.DechunkOnce: says nothing of bodies on which the source's loop runs for ever (`EndsIffWithinLength`).
- CursorText.EngineReadsBackIff: numbers are unbounded, while JavaScript rounds above 2^53; trimming is of ASCII blanks.
- ReplayBuffers.ReplayBuffer.Subscribe: a cursor is given as its parser classifies it, and the delivery function is the list of what it was called with; serialization is a size.
- EngineStreams.WireFollowsIff: the bounded writer, the end of the body at the instance's disposal and the global route are left out.
- Placement.PlaceSession: the advisory plugin is a parameter that may return any shard.
- Placement.AdmissionsLevelThePool: supposes a pool that names each shard once; `MeasureLoads` counts a repeated shard as the source does.
- Saving the pin map to disk and the unsharded mode, where pinning and routing do nothing.
- Times, loads, fidelity, ages and thresholds are integers or reals; NaN and infinities are not values, except for the age of a node never recorded.
- Dafny strings stand for UTF-16 strings; comparison is by unit, as in JavaScript.
- JSON.parse, the event-line reader and the TOML reader are parameters or out of scope.
- LeaseService.CoordinationService.PreflightCall: returns the claim's value; that the answer aliases the live record is not captured. Appending the claim to the ledger file is left out, as are user-defined variant axes.
- SweepPlanner.RegistryNotes.SweepAndApply: supposes that a stamped note parses and validates again; rendering of notes is left out. The list of changed files is exact for directory names and number texts without slashes, which is what the verb reads.
- IncrementalSweep.IncrementalEqualsBatch: dates of the stamps are not compared.
- CloudPump.CloudMirror.PollCloud: frames, the GPU receipt, the mtime heartbeat and failing file writes are left out; it is called by the pump, so only before the verdict.
- Submitting and aborting a cloud run.
- IndexView.ChooseIndex: scores are parameters (the formula uses an exponential), and the rendered text is left out.

Not modelled because it would add easier members only:
- Snapshot and message-page caches, question routing, UI floor, passthrough, warrants, federation, Linear mapping, size estimates, census, doctor.
