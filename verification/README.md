# Perseval, modelled and proved

A Dafny model of the parts of Perseval whose correctness rests on more than one function, with proofs of
what they keep over whole runs, for all inputs.

- **Live updates.** `LiveUpdates` has the hub, the bounded channels, the batched receive and the sequence
  tracker as the classes they are; `LiveProtocol` interleaves them with the writer as atomic steps.
  `Admission` is the byte admission of the ingest handle, one atomic operation at a time, with counters
  that wrap around.
- **Feature cohorts.** `CohortScheduler` is the bounded queue with its overflow flag and the worker loop,
  again one atomic operation at a time. `FeatureCache` is the first-in-first-out cache and the batch that
  reads and fills it. `PageCache` is the least-recently-used cache of the application.
- **OTLP and the label-leak audit.** `Json` and `Otlp` have the values and the normaliser, `Guard` the key
  rule, `Isolation` the two audits and the audit's own converter, `Replay` the way back from JSON.
- **Workbench.** `WorkbenchState` has the entities, `Workbench` the transitions and what runs of them keep,
  `WorkbenchActions` what a user sees of each, `WorkbenchModel` the model that changes its state in place.
- **Text field.** `TextOffsets` relates bytes, characters and UTF-16 units, `TextEditing` has the edits and
  their invariants, `TextKeys` what a user sees of each key, `TextInput` the field itself.
- **Scoring.** `AveragePrecision` and `Wilson`, over the reals.
- **Protocol surface.** `SchemaInlining`, `ToolCall` with `TextSearch`, `Cursor` and `Paging`.

`Runs`, `SeqSums`, `RealSums`, `Lists`, `Sorting`, `Strings`, `Numerals`, `Options` and `MachineWords` hold
what several of these share.

A method or class is proved against a function of its inputs or its old state; what Perseval promises is
then proved about that function. A state machine is a total function `Next` (or `Step`, `Apply`) of a state
and an action, where an action that is not enabled changes nothing, and a run is any sequence of actions.

## What is taken as given

- Commits are numbered consecutively and published once each, in that order; the writer releases each
  `Ingest` command once, with the bytes it was admitted with. `live/writer.rs` is not part of this model.
- The feature-cache key tells apart findings whose features differ (`FeatureCache.Faithful`); projector and
  embedder are functions.
- The digest of a trace's logical identity tells texts apart (`Otlp.LogicalTracesAreDistinct`).
- The wire formats of cursors read back what they write; the signature is any function of the payload.
- Graphemes break at character boundaries. A square root is a non-negative number with the right square.

## Where the code falls short of the obvious promise

Each has a lemma with an input, and the condition under which the promise holds.

- `UnpinEditor` with the identifier of a tab that is not open drops the active preview
  (`Workbench.UnpinningAClosedTabDangles`, `Workbench.StepKeepsTabs`).
- Closing the active editor leaves the previous activity selected
  (`Workbench.ClosingLeavesTheActivityBehind`, `Workbench.StepKeepsActivity`).
- Resources of two projects can share a tab when one project's identifier and a colon begin the other's
  (`WorkbenchState.PrefixedProjectsCollide`, `WorkbenchState.KeysIdentifyResourcesIff`).
- An input method may name a selection that runs backwards, and it is kept so until the next move, unless no
  character ends between its ends (`TextEditing.BackwardSelectionIsKeptBackward`, `TextEditing.OrderedIff`).
- A failed store read forgets an accepted request to rebuild everything
  (`CohortScheduler.AFailedReadLosesARequest`, `CohortScheduler.StepLosesOnlyWhatAReadForgets`).
- A feature cache of capacity 0 would hold one entry
  (`FeatureCache.InsertStaysWithinCapacityUnlessZero`); the configuration excludes it.
- Nulls and integers above the signed range do not survive replay (`Replay.SurvivesIffLossless`).
- The normalised audit cannot see labels on what normalisation dropped
  (`Isolation.LabelOnEmptyResourceIsSeenOnlyRaw`, `Isolation.AuditsAgreeIff`).
- A reference beside a reference, or a definition that is a string, can leave a reference behind
  (`SchemaInlining.ReferenceBesideAReferenceSurvives`, `SchemaInlining.StringDefinitionMakesAReference`,
  `SchemaInlining.DocumentInlinesFullyIff`).

## Model

| member | source | states |
|---|---|---|
| LiveUpdates.DeltaHub.Subscribe | crates/perseval-service/src/live.rs:150-157 | a new open channel of the given capacity is appended to the subscribers, which stay distinct |
| LiveUpdates.DeltaHub.Offer | crates/perseval-service/src/live.rs:161-168 | one subscriber gets the delta if there is room; a full channel is closed; the answer says whether it stays listed |
| LiveUpdates.DeltaHub.Publish | crates/perseval-service/src/live.rs:159-169 | every listed channel gets the delta or, when full, is closed; exactly those that got it stay listed, in order |
| LiveUpdates.KeptIsSublist | crates/perseval-service/src/live.rs:161-168 | dropping senders keeps exactly those that took the delta and neither duplicates nor adds any |
| LiveUpdates.TraceSubscription.RecvBatch | crates/perseval-service/src/live.rs:96-108 | a batch is the oldest deltas up to the maximum (at least one); meeting the end of a closed channel before the batch is full discards it and asks for a resync; on an empty open channel it waits and changes nothing |
| LiveUpdates.SequenceTracker.FromSnapshot | apps/perseval-app/src/controllers/subscription.rs:14-18 | tracking starts at the snapshot's sequence |
| LiveUpdates.SequenceTracker.Observe | apps/perseval-app/src/controllers/subscription.rs:24-38 | the tracker moves to the largest number seen; a number is a duplicate, the next one, or a gap naming the number expected, also at the end of the 64-bit range |
| LiveUpdates.SequenceTracker.Resync | apps/perseval-app/src/controllers/subscription.rs:40-42 | tracking restarts at the given sequence |
| LiveUpdates.NoGapInConsecutiveBatch | apps/perseval-app/src/controllers/subscription.rs:24-38 | a hole-free batch that starts no later than the next expected number is absorbed without a gap and leaves the tracker at its end |
| LiveUpdates.GapFreeMeansNothingSkipped | apps/perseval-app/src/controllers/subscription.rs:24-38 | conversely, an increasing batch absorbed without a gap holds every number from the old position to the new one |
| LiveProtocol.StepKeepsInvariant | crates/perseval-service/src/live.rs:144-170 | each atomic step of commit, publication, subscription, sequence read, receive and close keeps the protocol invariant |
| LiveProtocol.EveryRunKeepsInvariant | crates/perseval-service/src/live.rs:144-170 | the invariant holds in every interleaving of any number of subscribers with the writer |
| LiveProtocol.StepsOfOnePublicationMatchTheHub | crates/perseval-service/src/live.rs:159-169 | the send and close steps for one subscriber do to its channel and its listing what `DeltaHub.Publish` does, and touch nobody else |
| LiveProtocol.StepsOfOneBatchMatchTheReceiver | crates/perseval-service/src/live.rs:96-108 | a run of receive steps and the delivery of the batch does to a subscriber what `TraceSubscription.RecvBatch` and the tracker do, in all cases, and touches nobody else |
| LiveProtocol.NoGapIsEverReported | apps/perseval-app/src/controllers/subscription.rs:24-38 | no tracker seeded by `snapshot_and_subscribe` ever reports a gap, in any interleaving |
| LiveProtocol.NothingIsSkipped | crates/perseval-service/src/live.rs:718-732 | a tracking subscriber has observed every commit between its snapshot and its tracker's number, in a hole-free run that starts no later than snapshot + 1 |
| LiveProtocol.OpenSubscribersMissNothing | crates/perseval-service/src/live.rs:150-169 | between publications a subscriber still listed has taken or has waiting every commit published since it joined |
| LiveProtocol.EverythingCanBePublished | crates/perseval-service/src/live.rs:159-169 | the writer never gets stuck: from every state of a run its own steps publish everything committed, whatever the channels hold |
| LiveProtocol.SubscribersCanCatchUp | crates/perseval-service/src/live.rs:718-732 | once everything is published a listed subscriber catches up by its own steps: its channel is empty and its tracker holds the last commit |
| LiveProtocol.OnlyFullChannelsDrop | crates/perseval-service/src/live.rs:161-168 | in every run no channel holds more than its capacity, and a delta is dropped only by a send that finds it full |
| LiveProtocol.ResyncOnlyAfterADrop | crates/perseval-service/src/live.rs:96-108 | a resync is asked for only by a subscriber that had a delta dropped |
| LiveProtocol.EveryDropIsReported | crates/perseval-service/src/live.rs:96-108 | however the steps interleave, a tracking subscriber that had a delta dropped and stays must resync at the latest at the receive after its last waiting delta |
| LiveProtocol.NothingIsDeliveredAfterADrop | crates/perseval-service/src/live.rs:161-168 | once a delta was dropped, neither it nor any later one ever reaches that subscriber, whatever happens afterwards |
| Admission.StepKeepsAccounts | crates/perseval-service/src/live.rs:448-472 | every atomic step of reserving, counting, sending, rolling back and writing keeps both counters equal to what is outstanding |
| Admission.EveryRunIsAccounted | crates/perseval-service/src/live.rs:448-528 | for any number of submitters, spurious swap failures and full queues included, `queued_bytes` is exactly the bytes reserved and not released and never exceeds the capacity; `queued_batches` likewise counts batches |
| Admission.ReservationEnds | crates/perseval-service/src/live.rs:448-467 | a reservation is given up only when the value last seen leaves no room, succeeds only by adding to the value it saw, and tries again with the value it finds when its swap fails |
| Admission.EverythingQueuedCanBeWritten | crates/perseval-service/src/live.rs:469-472 | from every accounted state the writer's own steps empty the queue and give back everything but what submitters hold |
| Admission.NoCounterUnderflows | crates/perseval-service/src/live.rs:469-472 | whenever bytes or a batch are about to be given back, the counter holds at least as much |
| Admission.QuietMeansZero | crates/perseval-service/src/live.rs:448-528 | once nothing is in hand or queued, both counters are zero: nothing leaks |
| Admission.FittingSubmissionIsAdmitted | crates/perseval-service/src/live.rs:489-528 | an uninterrupted submission that fits both capacities is enqueued and accounted, however often its swap fails spuriously |
| Admission.OversizedSubmissionLeavesNoTrace | crates/perseval-service/src/live.rs:448-467 | a submission over the byte capacity is turned away and the state is as before |
| Admission.RefusedSubmissionLeavesNoTrace | crates/perseval-service/src/live.rs:510-523 | a submission that fits but that the queue refuses is rolled back completely |
| CohortScheduler.EveryRunCountsExactly | crates/perseval-service/src/analysis.rs:176-197 | in every interleaving each counter equals the jobs of its kind in the queue plus those in a submitter's or the worker's hands |
| CohortScheduler.NoCounterUnderflows | crates/perseval-service/src/analysis.rs:187-196 | a counter is positive whenever it is about to be lowered |
| CohortScheduler.UninterruptedSubmission | crates/perseval-service/src/analysis.rs:177-197 | with room a submitted job is queued and counted, a full queue raises the flag instead, and a call after the worker is gone leaves no trace |
| CohortScheduler.StepKeepsOwedCovered | crates/perseval-service/src/analysis.rs:585-705 | each step leaves every accepted, unanswered request, and everything once an assignment failed, queued, flagged, dirty or in the worker's hands, if the step's store read succeeds |
| CohortScheduler.StepLosesOnlyWhatAReadForgets | crates/perseval-service/src/analysis.rs:586-613 | without that provision a step loses a request exactly when its store read misses an owed project that is neither dirty, flagged nor asked for in the queue |
| CohortScheduler.NoRequestIsLost | crates/perseval-service/src/analysis.rs:566-706 | over every run with succeeding store reads no accepted rebuild request for a project with active findings is lost; a failed assignment, and one that finds the queue full, counts as a request for all of them |
| CohortScheduler.NoNamedProjectIsLost | crates/perseval-service/src/analysis.rs:623-690 | over every run, failed reads included, a project that the store named for an assigned trace stays dirty, pending or being refreshed until a refresh of it succeeds |
| CohortScheduler.NoTraceIsLost | crates/perseval-service/src/analysis.rs:619-637 | over every run the queued traces that no assignment was tried for are in hand and in the queue, in the order of their submission |
| CohortScheduler.EverythingOwedCanBeSettled | crates/perseval-service/src/analysis.rs:566-706 | from every such state, while the worker runs, its own steps settle every request and every named project and try every queued trace |
| CohortScheduler.OnlyASuccessfulRefreshSettles | crates/perseval-service/src/analysis.rs:661-688 | a request is settled only by a successful refresh of that project which began after it |
| CohortScheduler.AFailedReadLosesARequest | crates/perseval-service/src/analysis.rs:607-613 | the provision is needed: one failed store read forgets an accepted request to rebuild everything |
| FeatureCache.CohortFeatureCache.Insert | crates/perseval-service/src/analysis.rs:249-262 | replaces the entry of a known key; otherwise drops the oldest entries until there is room and appends |
| FeatureCache.EvictedKeepsValid | crates/perseval-service/src/analysis.rs:254-259 | evicting keeps the queue a duplicate-free listing of the keys, drops the oldest and only as many as it must, and changes no remaining entry |
| FeatureCache.InsertKeepsValid | crates/perseval-service/src/analysis.rs:249-262 | an insert keeps that bookkeeping and the bound, stores its entry and otherwise only forgets |
| FeatureCache.InsertForgetsTheOldest | crates/perseval-service/src/analysis.rs:249-262 | a known key costs nothing; a new key comes last and costs the oldest keys only, as many as there is no room for |
| FeatureCache.InsertStaysWithinCapacityUnlessZero | crates/perseval-service/src/analysis.rs:254-261 | the size stays within the capacity exactly when the capacity is not zero |
| FeatureCache.InsertKeepsCoherent | crates/perseval-service/src/analysis.rs:1236-1240 | caching a freshly computed entry keeps every cached entry equal to recomputation |
| FeatureCache.LookUp | crates/perseval-service/src/analysis.rs:1156-1178 | hits are filled in; the pending findings are exactly those the cache does not know, in input order and projected; or the batch is cancelled at the finding before which the flag was set |
| FeatureCache.EmbedPending | crates/perseval-service/src/analysis.rs:1228-1242 | every pending finding is embedded, cached and filled in, whatever its insertion evicts |
| FeatureCache.ProjectAndEmbed | crates/perseval-service/src/analysis.rs:1133-1260 | with local embeddings the batch is, in input order, what computing every finding afresh gives, for any coherent cache; the cache stays coherent and bounded; a cancelled batch leaves it alone |
| PageCache.BoundedPageCache.constructor | apps/perseval-app/src/controllers/bounded_cache.rs:15-21 | an empty cache whose capacity is at least one |
| PageCache.BoundedPageCache.Insert | apps/perseval-app/src/controllers/bounded_cache.rs:23-33 | the key becomes the most recent with its new value, and at most the oldest entry leaves and is returned |
| PageCache.BoundedPageCache.Get | apps/perseval-app/src/controllers/bounded_cache.rs:35-41 | after any operations it returns the value last stored under the key exactly if fewer than `capacity` other keys were used since the key was, and nothing otherwise; a hit becomes the most recent |
| PageCache.BoundedPageCache.Clear | apps/perseval-app/src/controllers/bounded_cache.rs:67-70 | nothing is left |
| PageCache.BoundedPageCache.Touch | apps/perseval-app/src/controllers/bounded_cache.rs:72-75 | all occurrences of the key go and it is appended |
| PageCache.EvictionIsReported | apps/perseval-app/src/controllers/bounded_cache.rs:23-33 | an insert returns exactly the entry that left, which is the least recently used and never the one stored |
| PageCache.RunIsValid | apps/perseval-app/src/controllers/bounded_cache.rs:11-75 | map and recency queue describe the same keys, each once, within the capacity, after any operations |
| PageCache.CacheAgreesWithHistory | apps/perseval-app/src/controllers/bounded_cache.rs:11-75 | after any operations the cache holds exactly the last `capacity` distinct keys used since the last clear, in order of last use, with their latest values |
| PageCache.AnswersAgreeWithHistory | apps/perseval-app/src/controllers/bounded_cache.rs:35-41 | the keys the cache holds are exactly those since whose last use fewer than `capacity` others were used, each with the value last stored |
| PageCache.RememberedIffListed | apps/perseval-app/src/controllers/bounded_cache.rs:11-75 | which are the last `capacity` distinct keys used |
| PageCache.LastDistinctIsUnique | apps/perseval-app/src/controllers/bounded_cache.rs:11-75 | the specification of that list has one solution, so it is a definition |
| PageCache.LargerCacheHoldsMore | apps/perseval-app/src/controllers/bounded_cache.rs:11-75 | on the same operations a larger cache always holds a superset with the same values |
| Guard.SplitThenJoin | tools/perseval-bench/src/guard.rs:136-139 | a key is the dotted join of the dot-free segments it splits into |
| Guard.JoinThenSplit | tools/perseval-bench/src/guard.rs:136-139 | dot-free segments are recovered exactly |
| Guard.ForbiddenMeansASegment | tools/perseval-bench/src/guard.rs:136-145 | a key is forbidden exactly when one of its dotted segments spells a held-out word: the same letters in either case, with any of dash, blank and underscore between them |
| Guard.UndottedKey | tools/perseval-bench/src/guard.rs:136-145 | a key without a dot is forbidden exactly when it spells a held-out word |
| Guard.SameKeysAreForbiddenAlike | tools/perseval-bench/src/guard.rs:136-145 | keys that differ only in the case of letters or in dash, blank and underscore are forbidden alike |
| Guard.AllowedIff | tools/perseval-bench/src/guard.rs:126-145 | a fact is allowed exactly if it is the disclosure key withheld, or a key none of whose segments spells a held-out word |
| Guard.CleanIffEveryReachableFactAllowed | tools/perseval-bench/src/guard.rs:120-168 | the recursive check holds exactly of documents whose every reachable fact, along any path, is allowed |
| Guard.FactsInAnyOrder | tools/perseval-bench/src/guard.rs:101-110 | the number of facts counted does not depend on the order in which fields are visited |
| Guard.InspectFact | tools/perseval-bench/src/guard.rs:120-147 | accepts exactly a clean fact and counts it and everything below it |
| Guard.InspectNestedValue | tools/perseval-bench/src/guard.rs:149-168 | accepts exactly a clean value, stopping at the first leak, and counts the facts seen |
| Guard.InspectFactMap | tools/perseval-bench/src/guard.rs:101-110 | accepts exactly a map of clean facts, and counts them all |
| Guard.InspectJsonDocument | tools/perseval-bench/src/guard.rs:112-118 | accepts exactly the documents whose every reachable fact is allowed |
| Otlp.HexEncodeInjective | crates/perseval-ingest/src/otlp.rs:438-440 | identities stay distinct: equal hexadecimal forms come from equal bytes |
| Otlp.HexReadsBack | crates/perseval-ingest/src/otlp.rs:438-440 | two lower-case digits stand for each byte, the higher first |
| Otlp.NormalizeSpan | crates/perseval-ingest/src/otlp.rs:426-498 | a span is kept exactly when its identities have 16 and 8 bytes and its attributes are within the limit; the stored span then says, field by field, what the received one said |
| Otlp.LogicalTracesAreDistinct | crates/perseval-ingest/src/otlp.rs:444-444 | with a digest that tells texts apart, two traces have the same logical identity exactly when they are the same trace of the same source |
| Otlp.NamedKindDecides | crates/perseval-ingest/src/otlp.rs:529-544 | a kind named by the instrumentation decides the category, whatever the case of its letters |
| Otlp.OperationDecides | crates/perseval-ingest/src/otlp.rs:545-580 | otherwise a known operation decides, and failing that the labels, tools before agents |
| Otlp.ScopeFactsTell | crates/perseval-ingest/src/otlp.rs:402-416 | the scope facts are the schema and, for a named scope, its name, version, attributes and dropped count, and nothing else |
| Otlp.NormalizeResourceSpans | crates/perseval-ingest/src/otlp.rs:392-424 | a resource group's acceptable spans are appended in order, each with its own resource and scope facts; the others are counted |
| Otlp.NormalizeRequest | crates/perseval-ingest/src/otlp.rs:367-390 | the batch holds the first acceptable spans in request order up to the limit; batch plus rejected equals the spans of the request; nothing is rejected exactly when all are acceptable and within the limit |
| Isolation.ConvertersAgree | tools/perseval-bench/src/isolation.rs:225-256 | the audit's converter and the receiver's give the same JSON for every attribute value |
| Isolation.FactsAgree | tools/perseval-bench/src/isolation.rs:204-223 | the audit inspects exactly the attribute map the receiver stores, duplicate keys included |
| Isolation.InspectOtlpAttributes | tools/perseval-bench/src/isolation.rs:204-223 | accepts exactly clean attribute lists |
| Isolation.InspectOtlpRequest | tools/perseval-bench/src/isolation.rs:177-202 | accepts exactly requests whose resource, scope, span, event and link attributes are all clean |
| Isolation.InspectNormalizedBatch | tools/perseval-bench/src/isolation.rs:258-280 | accepts exactly batches whose every span is clean in all its maps, and only then counts the spans |
| Isolation.NormalizedAtClean | crates/perseval-ingest/src/otlp.rs:392-498 | a normalised span is clean exactly when its resource, its scope and the span itself were |
| Isolation.AcceptedRequestsNormalizeClean | tools/perseval-bench/src/isolation.rs:177-280 | whatever the raw audit accepts normalises to a batch that the normalised audit accepts |
| Isolation.RequestCleanIff | tools/perseval-bench/src/isolation.rs:177-280 | a request is clean exactly when its batch is and everything the batch does not show is: spans not kept, and the attributes of resources and scopes without a kept span |
| Isolation.AuditsAgreeIff | tools/perseval-bench/src/isolation.rs:177-280 | so the two audits give the same verdict exactly when the batch shows a leak or what it does not show is clean |
| Isolation.AuditsAgreeOnCompleteBatches | tools/perseval-bench/src/isolation.rs:177-280 | in particular when nothing was rejected and no group is empty |
| Isolation.LabelOnEmptyResourceIsSeenOnlyRaw | tools/perseval-bench/src/isolation.rs:183-185 | otherwise they may differ: a label on a resource without spans is seen by the raw audit alone |
| Replay.RoundTrip | tools/perseval-bench/src/replay.rs:259-289 | every JSON value comes back from replay and receipt with nulls as the text "null" and integers above the signed range as floats, and otherwise unchanged |
| Replay.UnchangedIffLossless | tools/perseval-bench/src/replay.rs:259-289 | that form equals the value exactly when it holds no null and no such integer, at any depth |
| Replay.SurvivesIffLossless | crates/perseval-ingest/src/otlp.rs:507-527 | so a value survives unchanged exactly when it holds neither |
| SchemaInlining.PushShrinks | crates/perseval-mcp/src/descriptors.rs:124-131 | following a reference leaves one definition fewer to resolve: inlining ends on every schema |
| SchemaInlining.InlineSchemaNode | crates/perseval-mcp/src/descriptors.rs:113-158 | inlines in place of each reference while the shared stack of names is pushed and popped, and leaves the stack as it found it |
| SchemaInlining.InlineLocalSchemaRefs | crates/perseval-mcp/src/descriptors.rs:101-111 | inlines with the document's own definitions and then removes them |
| SchemaInlining.SafeInlinesFully | crates/perseval-mcp/src/descriptors.rs:113-158 | where no chain of references repeats a name and siblings hold no references, no reference to a definition is left |
| SchemaInlining.SafeIffAcyclic | crates/perseval-mcp/src/descriptors.rs:124-127 | the walk meets no name twice exactly when no chain of definitions repeats one |
| SchemaInlining.StackIsIrrelevant | crates/perseval-mcp/src/descriptors.rs:124-131 | for such schemas the stack has no influence on the result |
| SchemaInlining.FullSubstitution | crates/perseval-mcp/src/descriptors.rs:113-158 | for acyclic definitions the result obeys the stack-free substitution equations, siblings laid over |
| SchemaInlining.DocumentIsInlinedWithoutItsDefinitions | crates/perseval-mcp/src/descriptors.rs:101-111 | a document that carries definitions is inlined with them as if they were not part of it |
| SchemaInlining.RefNameIff | crates/perseval-mcp/src/descriptors.rs:118-123 | a node refers to a name exactly when its `$ref` is the text `#/$defs/` and that name |
| SchemaInlining.ReferencesComeOutInlined | crates/perseval-mcp/src/descriptors.rs:101-141 | wherever the body of a document refers to a definition it carries, that definition comes out inlined in the same place, overlaid with the reference's other keys |
| SchemaInlining.RootReferenceComesOutInlined | crates/perseval-mcp/src/descriptors.rs:101-141 | a document that is nothing but a reference comes out as that definition |
| SchemaInlining.PartsStayInPlace | crates/perseval-mcp/src/descriptors.rs:142-157 | whatever no reference stands above stays in its place and comes out inlined there |
| SchemaInlining.DocumentWithoutDefinitionsStays | crates/perseval-mcp/src/descriptors.rs:101-111 | a document without definitions comes out unchanged |
| SchemaInlining.AcyclicDocumentsInlineFully | crates/perseval-mcp/src/descriptors.rs:101-158 | an acyclic document with reference-free siblings ends up without any reference to a definition |
| SchemaInlining.BareDocumentsInlineFullyIffAcyclic | crates/perseval-mcp/src/descriptors.rs:113-158 | where references stand alone, nothing is left exactly when the definitions are acyclic |
| SchemaInlining.FreeIffNothingSurvives | crates/perseval-mcp/src/descriptors.rs:113-158 | for all schemas, recursive ones included: a reference is left exactly when one is met again, stands beside a reference that ends in an object and is not overlaid further out, is left of a definition behind what overlays it, or comes about where a `$ref` ends in the text of one |
| SchemaInlining.DocumentInlinesFullyIff | crates/perseval-mcp/src/descriptors.rs:101-158 | a document ends up without references exactly when none of these is met in the document without its definitions |
| SchemaInlining.ReferenceBesideAReferenceSurvives | crates/perseval-mcp/src/descriptors.rs:132-141 | a reference beside a reference to an object is kept |
| SchemaInlining.StringDefinitionMakesAReference | crates/perseval-mcp/src/descriptors.rs:118-123 | a definition that is a string can become a reference that was not there |
| TextSearch.JoinThenSplit | tools/perseval-bench/src/fixture.rs:461-471 | splitting at the first delimiter undoes joining with it |
| TextSearch.TrimUndoesPadding | tools/perseval-bench/src/fixture.rs:463-463 | trimming takes off exactly the white space around a text |
| TextSearch.TrimOnlyTakesPadding | tools/perseval-bench/src/fixture.rs:463-463 | every text is its trimmed form between two runs of white space |
| ToolCall.ReadParameterAt | tools/perseval-bench/src/fixture.rs:475-481 | reads one parameter and the place after it, with every slice in range |
| ToolCall.ParseParametersAt | tools/perseval-bench/src/fixture.rs:472-484 | the cursor loop ends on every text and reads the parameters in order, or none if one is incomplete |
| ToolCall.ParseToolCall | tools/perseval-bench/src/fixture.rs:460-486 | for every text, the searches by offset give the parse that splitting at delimiters gives, with every slice in range |
| ToolCall.WellFormedMessagesAreRead | tools/perseval-bench/src/fixture.rs:460-486 | every well-formed message is read as its call: trimmed name and trimmed parameters, in order |
| ToolCall.ReadMessagesAreWellFormed | tools/perseval-bench/src/fixture.rs:460-486 | every text that is read as a call is such a message |
| ToolCall.ReadIffWritten | tools/perseval-bench/src/fixture.rs:460-486 | a text is read as a call exactly when it is a well-formed message of that call |
| ToolCall.ClosingTagStandsInAPart | tools/perseval-bench/src/fixture.rs:467-471 | the block is free of the closing tag exactly when its gaps, names with their values, and tail are |
| ToolCall.RenderedCallsAreRead | tools/perseval-bench/src/fixture.rs:460-486 | a rendered call with trimmed texts free of the delimiters that would end them is read back exactly, after any prefix without an opening tag |
| ToolCall.RenderedCallsAreReadIff | tools/perseval-bench/src/fixture.rs:460-486 | and only such calls are: a rendered call is read back exactly when its texts are trimmed, its name is not empty and no text holds or completes a delimiter |
| ToolCall.PlannerOutputIsThePrefix | tools/perseval-bench/src/fixture.rs:488-498 | the planner output is the trimmed text before the call, or the whole message when that is empty |
| TextOffsets.ConvertCompose | apps/perseval-app/src/components/text_input.rs:283-286 | converting an offset in two steps is converting it in one |
| TextOffsets.ConvertMonotone | apps/perseval-app/src/components/text_input.rs:701-717 | conversions are monotone |
| TextOffsets.ConvertKeepsOrderIff | apps/perseval-app/src/components/text_input.rs:701-717 | two converted offsets are in order exactly when the offsets are, or no character of the text ends between them |
| TextOffsets.ConvertIsBoundary | apps/perseval-app/src/components/text_input.rs:701-717 | every converted offset is a character boundary inside the text |
| TextOffsets.Galois | apps/perseval-app/src/components/text_input.rs:279-286 | UTF-16 and byte offsets form a Galois pair for every text |
| TextOffsets.ThereAndBack | apps/perseval-app/src/components/text_input.rs:279-286 | to UTF-16 and back is the floor character boundary; from UTF-16 and back never exceeds the input and is exact exactly at unit boundaries |
| TextOffsets.CharBoundaryIsFloor | apps/perseval-app/src/components/text_input.rs:687-693 | testing one byte for a continuation byte finds exactly the offsets between characters |
| TextOffsets.DecodeUndoesEncode | apps/perseval-app/src/components/text_input.rs:687-693 | the bytes counted are those of UTF-8: reading them back gives the text |
| TextOffsets.DecodeUndoesEncode16 | apps/perseval-app/src/components/text_input.rs:283-286 | the code units counted are those of UTF-16, surrogate pairs included: reading them back gives the text |
| TextOffsets.EncodeUndoesDecode16 | apps/perseval-app/src/components/text_input.rs:283-286 | and whatever reads as a text is the encoding of that text |
| TextOffsets.FloorCharBoundary | apps/perseval-app/src/components/text_input.rs:687-693 | the walk back ends at the greatest character boundary not above the offset |
| TextOffsets.TruncateIsLongest | apps/perseval-app/src/components/text_input.rs:676-685 | the truncated text is the longest prefix within the bytes, and the whole text exactly when that fits |
| TextOffsets.TruncateBoundary | apps/perseval-app/src/components/text_input.rs:676-685 | the walk back from the limit cuts exactly that prefix |
| TextOffsets.OffsetFromUtf16 | apps/perseval-app/src/components/text_input.rs:701-717 | the walk over characters gives the bytes of the longest prefix whose UTF-16 encoding is within the offset |
| TextOffsets.OffsetToUtf16 | apps/perseval-app/src/components/text_input.rs:283-286 | gives the length of the UTF-16 encoding of the text before the floor boundary |
| TextEditing.SelectToMovesTheCursor | apps/perseval-app/src/components/text_input.rs:229-240 | extending the selection puts the cursor on the target and leaves the anchor, in any state |
| TextEditing.SelectingKeepsTheAnchor | apps/perseval-app/src/components/text_input.rs:229-240 | through any number of reversals the anchor stays and the cursor is the last target |
| TextEditing.NormalizedIsSliceable | apps/perseval-app/src/components/text_input.rs:695-699 | a normalised range is ordered, inside the content and on character boundaries |
| TextEditing.SingleLine | apps/perseval-app/src/components/text_input.rs:728-730 | line breaks become blanks and nothing else changes |
| TextEditing.ReplaceIsInPlace | apps/perseval-app/src/components/text_input.rs:296-316 | a replacement leaves everything before and after its range, puts in what fits and stays within the byte limit |
| TextEditing.StepKeepsInvariant | apps/perseval-app/src/components/text_input.rs:96-389 | every edit keeps the content within its bytes and all ranges on character boundaries inside it |
| TextEditing.EveryRunKeepsInvariant | apps/perseval-app/src/components/text_input.rs:96-389 | so does every run of keyboard and input-method edits |
| TextEditing.OrderedIff | apps/perseval-app/src/components/text_input.rs:368-389 | the selection's ends are in order after a marking exactly when the selection the platform names runs forwards or no character of the inserted text ends between its ends; after any other step always, unless the step leaves an unordered selection alone |
| TextEditing.BackwardSelectionIsKeptBackward | apps/perseval-app/src/components/text_input.rs:719-726 | marking "ab" with the selection 2..1 selects 2..1 |
| TextEditing.ForwardRunsStayOrdered | apps/perseval-app/src/components/text_input.rs:353-389 | if every selection the platform names runs forwards, selections stay in order over any run |
| TextEditing.ReportedRangesReadBack | apps/perseval-app/src/components/text_input.rs:331-347 | the selection or marked range the platform is told, in UTF-16 units, reads back as the same range |
| TextEditing.InsertedTextIsFitting | apps/perseval-app/src/components/text_input.rs:296-316 | the range a replacement reports holds exactly the text that was put in |
| TextEditing.ReplaceIsUndoneByReplace | apps/perseval-app/src/components/text_input.rs:296-316 | putting the replaced text back over its replacement restores the content |
| TextEditing.ComposingAgainReplacesTheComposition | apps/perseval-app/src/components/text_input.rs:368-389 | marking a second text over a marked first one leaves exactly what marking the second alone would have left |
| TextEditing.BackspaceAndDeleteTakeOneGrapheme | apps/perseval-app/src/components/text_input.rs:143-155 | without a selection, backspace takes out the grapheme before the cursor and delete the one after it |
| TextInput.TextInput.SetText | apps/perseval-app/src/components/text_input.rs:96-104 | sets the content cut to its limit and puts the cursor at its end |
| TextInput.TextInput.MoveTo | apps/perseval-app/src/components/text_input.rs:223-227 | an empty selection at the offset |
| TextInput.TextInput.SelectTo | apps/perseval-app/src/components/text_input.rs:229-240 | moves the end of the selection that is the cursor, turning the selection round when the ends cross |
| TextInput.TextInput.PreviousBoundary | apps/perseval-app/src/components/text_input.rs:264-270 | the last grapheme break before the offset, or the start |
| TextInput.TextInput.NextBoundary | apps/perseval-app/src/components/text_input.rs:272-277 | the first grapheme break after the offset, or the end |
| TextInput.TextInput.Left | apps/perseval-app/src/components/text_input.rs:106-112 | collapses a selection to its start, and otherwise moves the cursor one grapheme back |
| TextInput.TextInput.Right | apps/perseval-app/src/components/text_input.rs:114-120 | collapses a selection to its end, and otherwise moves the cursor one grapheme on |
| TextInput.TextInput.SelectLeft | apps/perseval-app/src/components/text_input.rs:122-124 | takes the cursor one grapheme back and leaves the anchor |
| TextInput.TextInput.SelectRight | apps/perseval-app/src/components/text_input.rs:126-128 | takes the cursor one grapheme on and leaves the anchor |
| TextInput.TextInput.SelectAll | apps/perseval-app/src/components/text_input.rs:130-133 | selects from the start to the end |
| TextInput.TextInput.Replace | apps/perseval-app/src/components/text_input.rs:296-316 | puts what fits in place of the normalised range, collapses the selection behind it, unmarks, and reports where it is |
| TextInput.TextInput.ReplaceTextInRange | apps/perseval-app/src/components/text_input.rs:353-366 | replaces the platform's range, else the marked range, else the selection |
| TextInput.TextInput.ReplaceAndMarkTextInRange | apps/perseval-app/src/components/text_input.rs:368-389 | the same, marks what was put in and selects within it |
| TextInput.TextInput.Backspace | apps/perseval-app/src/components/text_input.rs:143-148 | removes the marked range or the selection, or else the grapheme before the cursor |
| TextInput.TextInput.Delete | apps/perseval-app/src/components/text_input.rs:150-155 | removes the marked range or the selection, or else the grapheme after the cursor |
| TextInput.TextInput.Copy | apps/perseval-app/src/components/text_input.rs:196-202 | returns the selected text, whose neighbours make up the rest of the content |
| TextInput.TextInput.Cut | apps/perseval-app/src/components/text_input.rs:204-209 | the clipboard gets the text selected before, which is then replaced by nothing, when something is selected |
| TextInput.TextInput.ClearOrDismiss | apps/perseval-app/src/components/text_input.rs:211-221 | empties a field that is not empty |
| TextEditing.ArrowKeysUndoEachOther | apps/perseval-app/src/components/text_input.rs:106-120 | at a cursor where a grapheme starts, right and then left comes back; so does left and then right, also from the end |
| TextKeys.ArrowsMoveTheCursor | apps/perseval-app/src/components/text_input.rs:106-120 | left and right collapse a selection to its end on that side, and otherwise go to the nearest grapheme break on that side |
| TextKeys.ShiftedArrowsMoveOneEnd | apps/perseval-app/src/components/text_input.rs:122-128 | with shift they move the cursor alone and the other end of the selection stays |
| TextKeys.HomeEndAndSelectAll | apps/perseval-app/src/components/text_input.rs:130-141 | home and end go to the ends of the text, and select-all selects between them |
| TextKeys.TypingReplacesTheSelection | apps/perseval-app/src/components/text_input.rs:353-366 | typing puts as much as fits in place of the marked text or the selection, and the cursor behind it |
| TextKeys.PlatformRangesAreReplaced | apps/perseval-app/src/components/text_input.rs:353-366 | a range the platform names in UTF-16 units is the one replaced |
| TextKeys.PastingTypesOneLine | apps/perseval-app/src/components/text_input.rs:190-194 | pasting types the clipboard with blanks for line breaks |
| TextKeys.CuttingTakesTheSelection | apps/perseval-app/src/components/text_input.rs:204-209 | cutting takes out the selection, and does nothing without one |
| TextKeys.SettingAndClearing | apps/perseval-app/src/components/text_input.rs:96-104 | setting keeps the longest part of the text that fits; clearing empties the field |
| TextKeys.ComposingMarksWhatItPuts | apps/perseval-app/src/components/text_input.rs:368-389 | composing marks exactly what it puts in, and selects what the platform names within it |
| TextInput.NormalizeRange | apps/perseval-app/src/components/text_input.rs:695-699 | rounds both ends down to character boundaries and lifts the end to the start if they cross |
| TextInput.MarkedSelection | apps/perseval-app/src/components/text_input.rs:719-726 | turns a selection in UTF-16 units of the inserted text into bytes of the content |
| WorkbenchState.ProjectOf | apps/perseval-app/src/workbench/model.rs:347-355 | a resource belongs to no project exactly when it is an activity destination |
| WorkbenchState.KeyTellsActivity | apps/perseval-app/src/workbench/state.rs:132-163 | resources with the same key belong to the same activity |
| WorkbenchState.InboxKeyIsUnique | apps/perseval-app/src/workbench/state.rs:132-163 | only the failure inbox has its key |
| WorkbenchState.KeysIdentifyResourcesIff | apps/perseval-app/src/workbench/state.rs:132-163 | the keys of two projects identify their resources, up to how a trace was reached and what it shows, exactly when neither project identifier followed by a colon begins the other |
| WorkbenchState.KeysIdentifyResources | apps/perseval-app/src/workbench/state.rs:132-163 | in particular where project identifiers hold no colon |
| WorkbenchState.PrefixedProjectsCollide | apps/perseval-app/src/workbench/state.rs:136-139 | where one project identifier and a colon begin another, two investigations share one key |
| Workbench.WellTabbedHasFewPreviews | apps/perseval-app/src/workbench/model.rs:98-149 | the previews are none, one, or one followed by the failure inbox |
| Workbench.StepKeepsTabs | apps/perseval-app/src/workbench/model.rs:98-220 | each action keeps identifiers distinct and equal to their keys and previews few; the active editor stays open exactly unless `UnpinEditor` names a closed tab while a preview is active |
| Workbench.EveryRunKeepsTabs | apps/perseval-app/src/workbench/model.rs:98-220 | in every run from the initial states identifiers are distinct and equal to their keys, and previews never pile up |
| Workbench.EveryRunKeepsActiveOpen | apps/perseval-app/src/workbench/model.rs:98-220 | if every `UnpinEditor` names an open tab, the active editor always is an open tab |
| Workbench.UnpinningAClosedTabDangles | apps/perseval-app/src/workbench/model.rs:134-141 | the provision is needed: it drops the default state's only tab |
| Workbench.OpenShowsTheResource | apps/perseval-app/src/workbench/model.rs:100-121 | the opened resource is in the active tab, pinned if it was or is to be, with its activity and the focus |
| Workbench.OpenKeepsOtherTabs | apps/perseval-app/src/workbench/model.rs:100-117 | opening touches one place: tabs elsewhere stay, and no pinned tab is lost |
| Workbench.OpenIsIdempotent | apps/perseval-app/src/workbench/model.rs:100-121 | opening the same resource again changes nothing |
| WorkbenchActions.ActivatingShowsTheTab | apps/perseval-app/src/workbench/model.rs:122-128 | activating an open tab shows it with its activity and touches nothing else; a closed one changes nothing |
| WorkbenchActions.PinningKeepsTheTab | apps/perseval-app/src/workbench/model.rs:129-133 | pinning pins the tab where it stands and touches nothing else |
| WorkbenchActions.UnpinningMakesThePreview | apps/perseval-app/src/workbench/model.rs:134-141 | unpinning an open tab makes it the one preview and the active one, and all pinned tabs stay |
| WorkbenchActions.ClosingRemovesTheTab | apps/perseval-app/src/workbench/model.rs:142-149 | closing takes out that tab alone; if it was active, the last one left is next |
| WorkbenchActions.PinnedTabsStay | apps/perseval-app/src/workbench/model.rs:98-220 | over every run a pinned tab stays pinned and open until it is closed or unpinned itself |
| WorkbenchActions.SwitchingKeepsOpenTabs | apps/perseval-app/src/workbench/model.rs:173-176 | a change of scope takes away none of the open tabs and clears the bulk selection |
| WorkbenchActions.SelectionIsShown | apps/perseval-app/src/workbench/model.rs:202-214 | selecting a span changes what the active trace shows, under the same identifier, and nothing else |
| Workbench.ChangingProjectLands | apps/perseval-app/src/workbench/model.rs:230-325 | after a scope change to another project the active tab is open and global or owned by that project |
| Workbench.ContextChangesOnlyOnLeaving | apps/perseval-app/src/workbench/model.rs:236-249 | a project's saved context changes only when that project is left, and then is what was left |
| Workbench.ContextSurvivesAbsence | apps/perseval-app/src/workbench/model.rs:236-249 | through any run in which the project is not entered, its saved context stays |
| Workbench.ReturningRestoresTheProject | apps/perseval-app/src/workbench/model.rs:251-262 | coming back restores environment, build, session, time range and panes as left, whatever happened meanwhile and whatever else the request names |
| WorkbenchActions.ReturningShowsTheTabAsLeft | apps/perseval-app/src/workbench/model.rs:263-290 | coming back shows the tab the project was left with, if that is still open and the project's to show |
| WorkbenchActions.ReturningFallsBack | apps/perseval-app/src/workbench/model.rs:263-290 | and otherwise the first tab of the same activity that is, and the failure inbox when there is none |
| Workbench.FirstVisitInARun | apps/perseval-app/src/workbench/model.rs:291-323 | in every run, entering a project never entered before starts from an empty scope, keeps the panes and lands on a visible tab, whatever was visited before |
| WorkbenchActions.NewScopesKeepGlobalTabs | apps/perseval-app/src/workbench/model.rs:291-323 | going to a scope without a saved context keeps a tab that belongs to no project, and else shows the failure inbox |
| Workbench.EveryRunKeepsPanesInBounds | apps/perseval-app/src/workbench/model.rs:162-172 | pane sizes stay within bounds through resizing, resetting and restoring |
| WorkbenchActions.ResizingTakesTheNearestSize | apps/perseval-app/src/workbench/model.rs:162-172 | a pane takes the allowed size nearest to the one asked for, and the other panes keep theirs |
| WorkbenchActions.HiddenPanesLoseTheFocus | apps/perseval-app/src/workbench/model.rs:150-161 | showing and hiding changes one pane; a hidden one loses the focus to the editor, and nothing else moves it |
| WorkbenchActions.TogglingTwiceChangesNothing | apps/perseval-app/src/workbench/model.rs:178-187 | marking a group changes it alone, and marking it again undoes that |
| Workbench.StepKeepsActivity | apps/perseval-app/src/workbench/model.rs:142-149 | the activity stays that of the active tab's resource through every step, except exactly when closing it activates a tab of another activity |
| Workbench.EveryRunKeepsActivity | apps/perseval-app/src/workbench/model.rs:98-325 | over runs without such a step the activity is always that of the active tab's resource |
| Workbench.ClosingLeavesTheActivityBehind | apps/perseval-app/src/workbench/model.rs:142-149 | closing the settings opened over the inbox leaves the settings activity |
| WorkbenchModel.WorkbenchModel.constructor | apps/perseval-app/src/workbench/state.rs:404-424 | the default state: the failure inbox as an active preview, and nothing else |
| WorkbenchModel.WorkbenchModel.WithInitialEditor | apps/perseval-app/src/workbench/model.rs:18-28 | one tab, a preview exactly when it is an activity destination, made active |
| WorkbenchModel.WorkbenchModel.Apply | apps/perseval-app/src/workbench/model.rs:98-220 | every action, with its searches and filters, takes the state where the transition function the runs are made of says |
| WorkbenchModel.WorkbenchModel.OpenTab | apps/perseval-app/src/workbench/model.rs:102-117 | refreshes the tab, or replaces the first preview, or appends |
| WorkbenchModel.WorkbenchModel.UnpinEditor | apps/perseval-app/src/workbench/model.rs:134-141 | keeps pinned tabs and the named one, which becomes the active preview |
| WorkbenchModel.WorkbenchModel.CloseEditor | apps/perseval-app/src/workbench/model.rs:142-149 | removes the tab, activates the last one if it was active, and focuses the tabs |
| WorkbenchModel.WorkbenchModel.EnsureFailureInboxEditor | apps/perseval-app/src/workbench/model.rs:327-340 | finds the inbox or appends it as a preview |
| WorkbenchModel.WorkbenchModel.SwitchScope | apps/perseval-app/src/workbench/model.rs:230-325 | saves the context of the project it leaves, restores that of the one it enters, and finds a tab to show |
| AveragePrecision.ComputeAveragePrecision | tools/perseval-bench/src/assessment_score.rs:253-280 | none exactly without positives; otherwise the sum over the distinct scores of recall gain times precision |
| AveragePrecision.CountGroup | tools/perseval-bench/src/assessment_score.rs:265-271 | counts through one group of equal scores and finds its end |
| AveragePrecision.DescendingIsUnique | tools/perseval-bench/src/assessment_score.rs:264-278 | the distinct scores have one listing from high to low, so the definition has one value |
| AveragePrecision.AveragePrecisionIgnoresOrder | tools/perseval-bench/src/assessment_score.rs:253-280 | the value is the same for every permutation of the cases |
| AveragePrecision.AveragePrecisionIsMean | tools/perseval-bench/src/assessment_score.rs:253-280 | the value is the mean, over the positives, of the precision at their scores |
| AveragePrecision.AveragePrecisionBounds | tools/perseval-bench/src/assessment_score.rs:253-280 | it lies above 0 and at most at 1, and is 1 exactly when every positive scores above every negative |
| Sorting.SortSorts | tools/perseval-bench/src/assessment_score.rs:259-259 | sorting keeps the members, puts them in order and leaves members that tie in the order they had |
| Wilson.IntervalIsPlausible | tools/perseval-bench/src/detector_score.rs:309-314 | the unclamped bounds hold q exactly when (p - q)^2 <= z^2 q (1 - q) / n |
| Wilson.BoundsAreOrdered | tools/perseval-bench/src/detector_score.rs:309-314 | 0 <= low <= p <= high <= 1 before clamping |
| Wilson.BoundsAreMonotone | tools/perseval-bench/src/detector_score.rs:309-314 | with more successes neither bound falls |
| Wilson.EstimateIsWilson | tools/perseval-bench/src/detector_score.rs:300-321 | the reported interval: nothing without a sample; otherwise clamping changes nothing and the interval holds the rate and exactly the plausible rates |
| Wilson.EstimatesAreMonotone | tools/perseval-bench/src/detector_score.rs:300-321 | reported bounds are monotone in the successes |
| Numerals.ParseUndoesToDecimal | crates/perseval-mcp/src/cursor.rs:83-85 | reading back a written 64-bit number gives the number |
| Numerals.ParseIff | crates/perseval-mcp/src/cursor.rs:127-142 | a text reads as a 64-bit number exactly if it is that number written, after zeros and at most one plus sign |
| Cursor.ConstantTimeEqIsEquality | crates/perseval-mcp/src/cursor.rs:164-174 | no difference is collected exactly when the two byte strings are equal |
| Cursor.DecodeOfEncode | crates/perseval-mcp/src/cursor.rs:69-145 | for all inputs: another tool, scope or filter makes an encoded cursor invalid; a passed time to live or another commit expires it; otherwise offset and commit come back |
| Cursor.AcceptedCursorsWereIssued | crates/perseval-mcp/src/cursor.rs:95-145 | unless a signature is forged, every accepted cursor was issued for the same tool, scope and filter at the current commit, gives back the offset it was issued for and is in time |
| Cursor.ForeignCursorsAreInvalid | crates/perseval-mcp/src/cursor.rs:108-126 | cursors of another workspace or another key are invalid |
| Paging.ListingIsSorted | crates/perseval-mcp/src/server.rs:160-168 | the listing has every project as often as the workspace, by display name and then identifier |
| Paging.PagesAreBounded | crates/perseval-mcp/src/server.rs:144-193 | whatever limit and cursor a request has, a page holds at most 200 and at most the policy's maximum of projects, none more often than the workspace, in order |
| Paging.PageAt | crates/perseval-mcp/src/server.rs:144-193 | one page: its rows, and a cursor to the next offset exactly when rows remain |
| Paging.PagesAreCeiling | crates/perseval-mcp/src/server.rs:638-656 | the number of pages is the total over the limit, rounded up, or one |
| Paging.WalkListsEverythingOnce | crates/perseval-mcp/src/server.rs:144-193 | following `next_cursor` from page one lists every project exactly once, in order, in that many pages, and stops |
| Paging.ChangedCommitStopsTheWalk | crates/perseval-mcp/src/server.rs:600-618 | a cursor used in time is refused exactly when a commit came between |

## Left out

- LiveUpdates.TraceSubscription.RecvBatch: a call that waits is a call that returns `Waiting` and is made again; waking up is a scheduling matter, and `LiveProtocol` lets any step come in between.
- Admission.EveryRunIsAccounted: the compare-and-swap loop is modelled as its atomic steps and not as a loop in a method, because other threads act between them; the health record and the response channel are not modelled.
- CohortScheduler.NoRequestIsLost: debounce and retry times are left to the choice of the next action, the set of projects with active findings is fixed during a run, and the health record is not modelled.
- FeatureCache.ProjectAndEmbed: the OpenAI path, timings and the check of the number of returned vectors are not modelled.
- Otlp.NormalizeSpan: the time of receipt and the fields with constant texts are not modelled; the digest of the logical identity is a parameter.
- Guard.InspectNestedValue: JSON objects are maps, and the order in which their fields are visited is left open; error texts are not modelled.
- SchemaInlining.InlineSchemaNode: JSON is a value here, so rewriting a node in place is returning its replacement; the stack of names is shared and changed in place.
- ToolCall.ParseToolCall: offsets count characters and not bytes; every delimiter is ASCII, so the cuts are the same.
- TextInput.TextInput.Replace: the content is a sequence of characters cut at byte offsets that are character boundaries; that the bytes of such a cut are valid UTF-8 is `TextOffsets.CharBoundaryIsFloor`.
- AveragePrecision.ComputeAveragePrecision: over the reals, so rounding is not modelled, nor are scores that are not numbers (with which the original loop does not end); the sort is a specified function.
- Wilson.EstimateIsWilson: over the reals and a given square root; rounding is not modelled.
- Paging.WalkListsEverythingOnce: the response envelope and its size limit are not modelled.
- Rendering, layout, mouse positions, key bindings, clipboard access and accessibility.
- SQL, files, sockets, HTTP, compression and protobuf decoding, model download and inference.
- `WorkbenchModel::restore`, which rewrites pinning from a saved state, and the onboarding state, which no action changes.
- `list_sessions`, `list_runs` and `list_failure_groups`: they page over other orders and fetch ahead, so the walk's contract is not theirs.
- Confusion counts, F1, MCC, Brier score, calibration error, detector counts and record selection: sums and ratios whose members would be easy.
- Detectors, clustering, the topology and workspace stores, the embedding hash and configuration checks.
