# A verified model of the evidence recorder

The recorder keeps append-only evidence in SQLite (raw events, heartbeats, media segments, retention rows) and derives
everything else from it: coverage intervals, a timeline, media status tables. This project models the parts whose
behaviour is decided in code and proves what they are for. Times are integers (nanoseconds), a SHA-256 digest is named by
the contents it is the digest of, a table is a sequence or a map, and a transaction is one atomic step. Every step that
can fail in the original (a write, a rename, a commit) asks a `Faults.Script` and may be denied, fail, or be the last one
before a crash; a theorem about a method therefore holds for every way of cutting it short.

| files | what they hold |
|---|---|
| `CoverageRule`, `CoverageBuild`, `CoverageLaws` | the per-instant rule, the in-place sweep that refines it, laws over several runs |
| `JsonTokens`, `StrictJson`, `PayloadJson` | values and their tokens, the stack recogniser, the recursive payload parser |
| `RawEvents` | idempotent batches |
| `ActivityWatchFetch`, `ActivityWatchServer`, `ActivityWatchProgress` | backwards pagination, what a fetch means for the bucket behind the server, and when it succeeds |
| `ActivityWatchRevisions`, `ActivityWatchImport` | duration revisions, polls with a checkpoint |
| `MediaTypes`, `MediaStore`, `Projections` | claims, the acceptance transaction, the chained log, incremental and rebuilt projections |
| `MediaScan`, `MediaIngest` | the bounded round robin, the stage / verify / rename / commit / confirm protocol |
| `Retention` | plan, remove, commit |
| `Paging`, `EventPages`, `TimelinePages`, `TimelineSync` | keyset pages, and collecting facts through an inexact SQL clock |
| `Options`, `Ordering`, `Faults` | shared vocabulary |

## What is true only under a condition

Each of these has an input that shows the failure and a theorem that says exactly when the code does what one would
expect.

- **A late fact can make a window look worse.** A fact that ends before the schedule start becomes the reference instead
  of it. `LateFactNeverWorsensForIff`: for one collector, it never worsens a later uncovered instant, at any clock, if and
  only if the reference stays (it ends at or after the schedule start, or at or before the zero time, or some earlier
  evidence is in force) or its move makes no difference there (`ClockAgrees`: the wait for the first heartbeat is over,
  and the instant is on the same side of both deadlines from either reference). `AcceptedNeverWorsenIff`: over all
  collectors that the configuration accepts the second condition is that a day has passed since the schedule start, and
  otherwise one of them is worsened. `LateFactNeverWorsensIff` is the case without bounds on the durations.
- **Coverage depends on the queried range where windows touch.** A window that ends at the start of the range is dropped
  before the merge, and its schedule start with it. `NarrowerRangeKeepsLabelsForIff`: for one collector a narrower query
  gives an instant the same label at every clock if and only if the instant is covered, or has evidence, or the earliest
  window joined to it has not ended when the narrower range starts, or the move of the start makes no difference there;
  `AcceptedSameLabelsIff` is the case of all accepted collectors. In `TouchingWindowsExample` one instant is offline in
  the whole range and unknown in its second half.
- **A server that cuts durations at the requested end can make an event look shorter, or an open one look closed.** The
  later requests of a walk end earlier, so an event may first be shown shorter than it is. `TrimmingServerIsExactIff`:
  the fetch returns exactly the closed prefix, durations included, if and only if the first open event was on the first
  page and every event of the prefix had ended by the end of the request that showed it first. `ExampleFetch` is a bucket
  of three events and such a server: the walk succeeds and reports one event with duration 40, whether it lasts 40 (which
  is right), 45 (closed, but longer) or 90 (still open). For a server that shows events whole, `WholeServerIsExact` is
  unconditional.
- **An instant with a page full of events stops the walk.** The next request ends at the oldest instant of the page before,
  inclusive. `WalkFinishesIff`: against a server that answers with clean pages, and with more pages than events, the walk
  finishes if and only if the range fits the budgets and no instant of it has as many events as a page;
  `TiesNeverFinish` is the failing half, `WalkFinishes` counts the pages for fewer ties.
- **A revision family stops growing at the limit of the family query.** `AbsorbedIff` names the limit;
  `FullFamilyRefuses` is an event reported once more often than that, well formed and yet refused for good.
- **A family stays well formed only while nobody else writes its keys.** The events API takes any collector id and key
  (internal/httpapi/handler.go:400-424). `AddedRowFitsIff`: whoever writes it, a row keeps all families well formed if and
  only if its key is in no family, or it starts one, or it extends one as the importer would. `OtherWriterBreaksFamily`
  is a row that does not, after which the importer refuses every later duration of that event.
- **A second retention deletion is lost.** Neither the deletion row's key nor the state row's key holds a time, so a
  segment that was deleted, restored and planned again loses its file but is still shown as restored. `ShownDeletedIff`,
  `SecondDeletionIsLost`. Nothing in the repository writes a `restored` row yet: `AppendMediaState`
  (internal/eventstore/operations.go:265) has no caller. What can be reached is a cousin: a source delivered again after
  retention deleted its segment gets its file back (internal/mediaingest/manager.go:557-572), but no state row is added
  (internal/eventstore/media.go:254-258), so the segment is still shown as deleted (`MediaIngest.Manager.Redeliver`),
  and retention, which selects present segments only, leaves that file alone from then on (`RetentionOnce`).
- **A heartbeat whose received time ends in a zero digit can stop a timeline walk.** RFC 3339 text drops trailing zeros
  of the fraction, and the cursor decoder demands all nine digits. `TimelinePages.Walk` completes if and only if the last
  row of every page but the final one has a received time in the fixed layout. `ShortFractionStopsWalk` builds a table of
  two such heartbeats and a walk that stops.

## Model

| member | source | states |
|---|---|---|
| CoverageBuild.Build | internal/coverage/coverage.go:40-106 | a positive range with valid facts gives exactly the coarsest partition whose label at every instant is the rule's; the facts array ends normalised and sorted; the two errors, and the order in which they are found |
| CoverageBuild.PlannedIntervals | internal/coverage/coverage.go:179-201 | ordered, separated plans that contain exactly the planned instants of the range, each with the schedule start that the declarative rule gives to all its instants |
| CoverageBuild.MergeSorted | internal/coverage/coverage.go:186-200 | the merge loop: pieces are absorbed, nothing is invented, touching pieces become one with the earliest schedule start |
| CoverageBuild.CutPoints | internal/coverage/coverage.go:68-95 | points from plan start to plan end, both included, that miss no instant inside the plan where the label could change |
| CoverageBuild.OneLabelPerPiece | internal/coverage/coverage.go:108-152 | the finite cuts suffice: where no cut falls inside a piece, every instant of it has the label of its first instant |
| CoverageBuild.ClassifySegment | internal/coverage/coverage.go:108-152 | the segment's label is the per-instant rule at its start |
| CoverageBuild.ClassifyCovered | internal/coverage/coverage.go:119-131 | availability and reason of a highest-ranked covering fact, and every flag of any covering fact once, in order |
| CoverageBuild.AppendMerged | internal/coverage/coverage.go:203-212 | keeps a canonical list canonical and gives every instant the label it had before or the new one |
| CoverageBuild.SweepPlan | internal/coverage/coverage.go:67-103 | one plan adds the rule's label for every one of its instants and disturbs no earlier one |
| CoverageBuild.UniqueTimes | internal/coverage/coverage.go:214-223 | strictly ascending, same members |
| CoverageBuild.NormalizeFlags | internal/coverage/coverage.go:225-236 | the sorted list without repeats of the same flags, whatever order the map was walked in |
| CoverageBuild.NormalizeFacts | internal/coverage/coverage.go:48-55 | in place; succeeds if and only if every fact is valid, and each fact touched keeps all but its flags |
| CoverageBuild.SortFacts | internal/coverage/coverage.go:56-64 | in place; a sorted rearrangement |
| CoverageBuild.NormalizingKeepsRule | internal/coverage/coverage.go:54-64 | rewriting the flags does not change what the rule says about the facts as given |
| CoverageLaws.CoverageUnique | internal/coverage/coverage.go:40-106 | with distinct stable ids, any two correct results over any reordering of the facts are the same list |
| CoverageLaws.CanonicalUnique | internal/coverage/coverage.go:203-212 | a labelling has at most one canonical interval list |
| CoverageLaws.CanonicalIsCoarsest | internal/coverage/coverage.go:203-212 | no partition with the same labels has fewer intervals |
| CoverageLaws.LateFactOnResults | internal/coverage/coverage.go:108-152 | read off two results of the sweep: a late fact leaves earlier instants, covers its own span, and does not worsen a later uncovered one where the reference stays or its move makes no difference |
| CoverageLaws.LateFactNeverWorsensIff | internal/coverage/coverage.go:135-151 | the exact condition under which a late fact never worsens a later uncovered instant, over every collector, of whatever durations, and clock |
| CoverageLaws.ClockAgreesIff | internal/coverage/coverage.go:135-151 | an earlier reference never makes an instant look worse exactly where it never changes its label, and when that is |
| CoverageLaws.LateFactNeverWorsensForIff | internal/coverage/coverage.go:135-151 | the same for any one collector: the reference stays, or `ClockAgrees` from the late fact's end and from the schedule start |
| CoverageLaws.AcceptedNeverWorsenIff | internal/coverage/coverage.go:135-151 | the same over the collectors that the configuration accepts (internal/config/config.go:836-849): the reference stays, or a day has passed since the schedule start |
| CoverageLaws.SettledStays | internal/coverage/coverage.go:132-151 | the rule gives an instant that is not Pending the same label at every later clock |
| CoverageLaws.SettledOnResults | internal/coverage/coverage.go:132-151 | read off two results of the sweep: what is not Pending reads the same at every later clock |
| CoverageLaws.NarrowerRangeKeepsScheduleIff | internal/coverage/coverage.go:179-200 | exactly when a narrower query gives an instant the same schedule start |
| CoverageLaws.SameLabelsIff | internal/coverage/coverage.go:108-151 | two schedule starts give an instant the same label for every collector and clock if and only if they are equal, or it is covered, or it has evidence |
| CoverageLaws.SameLabelsForIff | internal/coverage/coverage.go:108-151 | for any one collector: two schedule starts give an instant the same label at every clock if and only if it is covered, or has evidence, or `ClockAgrees` |
| CoverageLaws.AcceptedSameLabelsIff | internal/coverage/coverage.go:108-151 | over the collectors that the configuration accepts: covered, or evidence, or a day after the later start |
| CoverageLaws.NarrowerRangeKeepsLabelsIff | internal/coverage/coverage.go:108-200 | exactly when a narrower query gives an instant the same label for every collector and clock |
| CoverageLaws.NarrowerRangeKeepsLabelsForIff | internal/coverage/coverage.go:108-200 | exactly when a narrower query gives an instant the same label for one collector at every clock |
| CoverageLaws.NarrowerRangeOnResults | internal/coverage/coverage.go:40-106 | read off two results of the sweep over different ranges: under that condition they agree at the instant |
| CoverageLaws.TouchingWindowsExample | internal/coverage/coverage.go:132-200 | two touching windows, a collector that the configuration accepts, one instant: offline when all is asked for, unknown when only the second half is |
| JsonTokens.ParseFlatten | internal/strictjson/keys.go:58-166 | the reference grammar reads back every flattened value, whatever follows |
| JsonTokens.ParseSound | internal/strictjson/keys.go:58-166 | whatever the reference grammar reads is the flattening of the value it returns |
| JsonTokens.FlattenInjective | internal/strictjson/keys.go:58-166 | a token sequence spells at most one value |
| StrictJson.AcceptedIff | internal/strictjson/keys.go:58-166 | the recogniser accepts if and only if the tokens are exactly one value, with no repeated key down to the checked depth and, in exact mode, an object root with allowed keys only |
| StrictJson.ValidateObjectKeys | internal/strictjson/keys.go:58-166 | the token loop over its stack computes the recogniser, hence the same if-and-only-if |
| StrictJson.RunValue | internal/strictjson/keys.go:58-166 | from any ready state the recogniser consumes one value as a whole, or stops with the value's own first fault |
| StrictJson.NoValueRejected | internal/strictjson/keys.go:58-166 | tokens that begin no value are rejected from every ready state |
| StrictJson.CompleteOne | internal/strictjson/keys.go:64-80 | `completeValue`: what finishing a value does to the stack and the root count |
| StrictJson.ValidateExactRootObjectRequired | internal/strictjson/keys.go:42-56 | accepts one object whose root keys are exactly the required ones, and nothing else |
| PayloadJson.ReadInvertsFlattenIff | internal/eventstore/event.go:329-384 | the recursive parser inverts flattening if and only if no object repeats a key and nesting is within the limit; otherwise it stops with an error |
| PayloadJson.ReadFlatten | internal/eventstore/event.go:329-384 | on any flattened value, at any depth and whatever follows, it returns the value's meaning or its first fault |
| PayloadJson.TooDeepIff | internal/eventstore/event.go:338-340 | without repeated keys the parser stops exactly when nesting exceeds the limit, and then with that error |
| PayloadJson.Decoder.ParseValue | internal/eventstore/event.go:329-384 | the parser over its cursor computes that reading and leaves the cursor behind it |
| PayloadJson.Decoder.ParseObject | internal/eventstore/event.go:342-366 | the object loop: fields read so far, duplicate keys, the closing token |
| PayloadJson.Decoder.ParseArray | internal/eventstore/event.go:367-380 | the array loop |
| PayloadJson.ParsePayload | internal/eventstore/event.go:310-327 | succeeds exactly on one object without repeated keys within the nesting limit and nothing after it, with that object's meaning; the too-deep code is reported exactly for nesting when no key repeats |
| PayloadJson.ValidatedPayloadHasNoDuplicate | internal/eventstore/event.go:213-213 | inside an envelope that strict validation accepted at every depth, the parser's duplicate-key branch is unreachable |
| RawEvents.Store.AppendBatch | internal/eventstore/event.go:102-155 | size errors; the new table and every result are those of appending item by item; any failure leaves the table as it was |
| RawEvents.OutcomesDescribe | internal/eventstore/event.go:157-207 | accepted and duplicate point at a row with that key and content, conflict at a row with that key and other content, rejected writes nothing |
| RawEvents.OutcomeOfNewKey | internal/eventstore/event.go:157-207 | an item whose key no earlier item of the batch has is answered by the table as it was before the batch |
| RawEvents.AppendAddsItems | internal/eventstore/event.go:157-207 | every row a batch adds says what a valid item of the batch says |
| RawEvents.ReplayAddsNothing | internal/eventstore/event.go:157-207 | replaying a batch on its own result or any later table adds no row and repeats every id: accepted becomes duplicate, the others repeat |
| RawEvents.SplitBatch | internal/eventstore/event.go:102-155 | one batch of `xs ++ ys` and two batches leave the same rows with the same ids, up to received time |
| RawEvents.AppendKeepsUnique | internal/eventstore/event.go:157-207 | no two rows ever share a key |
| RawEvents.ReceivedTimeIrrelevant | internal/eventstore/event.go:203-205 | the received time decides neither rows nor outcomes |
| ActivityWatchFetch.FetchEvents | internal/collectors/activitywatch.go:456-570 | fails with exactly the code with which the walk over the pages stops, and otherwise returns the stable prefix of what the walk saw, in order: every event up to the first that looks open, and no other |
| ActivityWatchFetch.FetchIsWithinBudgets | internal/collectors/activitywatch.go:456-570 | any success keeps to the event and byte budgets and holds sane, closed events only |
| ActivityWatchFetch.ShortFirstPageSucceeds | internal/collectors/activitywatch.go:464-547 | an acceptable first page that is not full makes the fetch succeed |
| ActivityWatchFetch.CollectPages | internal/collectors/activitywatch.go:464-547 | the page loop with its stalls, page budget and two ways to stop computes the recursive walk: the same seen events, or the same error |
| ActivityWatchFetch.ReadPage | internal/collectors/activitywatch.go:481-531 | one page: refused with exactly the code of its first bad entry, or else the seen map with each entry in range once at its longest duration, the bytes used, the oldest time, whether anything was new and whether the start was reached |
| ActivityWatchServer.PageCompletes | internal/collectors/activitywatch.go:532-543 | no tie is lost: once a faithful page is taken in, everything newer than its oldest entry has been seen, and everything in range if the page was short or reached the start |
| ActivityWatchServer.WalkTeaches | internal/collectors/activitywatch.go:464-547 | a finished walk against a faithful server has seen every event in range, each once, with the duration it had at the end of the request that showed it first |
| ActivityWatchServer.FetchReports | internal/collectors/activitywatch.go:456-570 | hence what a successful fetch returns: in order, just the events before the first that looked open in that way, each as first shown |
| ActivityWatchServer.WholeServerIsExact | internal/collectors/activitywatch.go:548-570 | when events are shown whole, what is reported is exactly the longest prefix that closed before the end |
| ActivityWatchServer.TrimmingServerIsExactIff | internal/collectors/activitywatch.go:548-570 | for a server that cuts durations, it is exactly that, durations included, if and only if the first open event was on the first page and every event of the prefix had ended by the end of the request that showed it first |
| ActivityWatchServer.RightEventsIff | internal/collectors/activitywatch.go:548-570 | the right events are reported, whatever their durations, if and only if the first open event was on the first page |
| ActivityWatchServer.EndIsFirstPage | internal/collectors/activitywatch.go:464-547 | an event counts as first shown at the end of the range exactly when the first page holds it |
| ActivityWatchServer.ExampleFetch | internal/collectors/activitywatch.go:456-570 | a faithful cutting server whose walk succeeds and reports an event with duration 40, which is right exactly when the event lasts 40 |
| ActivityWatchProgress.TiesNeverFinish | internal/collectors/activitywatch.go:532-543 | an instant with at least a page of events is never passed, whatever the budgets |
| ActivityWatchProgress.WalkFinishes | internal/collectors/activitywatch.go:464-547 | with at most `ties` events at each instant every full page brings `pageSize - ties` new ones: the walk finishes within `maxPages` when that many per page cover the range and the range fits the budgets |
| ActivityWatchProgress.WalkFinishesIff | internal/collectors/activitywatch.go:464-547 | with more pages than events in the range, the walk finishes if and only if the range fits the event and byte budgets and every instant of it has fewer events than a page |
| ActivityWatchRevisions.DecideRevision | internal/collectors/activitywatch.go:617-665 | appends the revision if and only if the family is the named base and growing revisions of the same content and the duration exceeds the base and is no less than the longest; on a well-formed family the only refusal is a content conflict |
| ActivityWatchRevisions.NewRevisionKeepsWellFormed | internal/collectors/activitywatch.go:617-665 | appending the decided revision keeps every family a base followed by strictly growing durations |
| ActivityWatchRevisions.BaseBatchKeepsWellFormed | internal/collectors/activitywatch.go:297-388 | so does any batch of base events |
| ActivityWatchRevisions.AddedRowFitsIff | internal/eventstore/event.go:157-207 | whoever writes it, an added row keeps every family well formed if and only if its key is in no family, or it starts one, or it extends one by a longer duration of the same content |
| ActivityWatchRevisions.OtherWriterBreaksFamily | internal/eventstore/event.go:209-253 | a row under a revision key whose content does not say that duration: the family is broken and no later duration is taken |
| ActivityWatchRevisions.AbsorbedIff | internal/collectors/activitywatch.go:390-411 | with the other content equal, a duration is taken in if and only if it equals the base, or is at least the longest stored one of a family within the query's limit |
| ActivityWatchRevisions.FullFamilyRefuses | internal/collectors/activitywatch.go:390-411 | a well-formed family one larger than the family query returns, whose next longer duration is refused |
| ActivityWatchRevisions.RevisionTakenIn | internal/collectors/activitywatch.go:390-411 | a longest duration is accepted, or is the last revision and a duplicate: never a conflict; a row says it, and no other family changes |
| ActivityWatchRevisions.FamilyIsExact | internal/eventstore/query.go:44-88 | the family query without its limit: exactly the rows with the base key or a key under its revision prefix, by ascending row id |
| ActivityWatchImport.Importer.SaveCheckpoint | internal/eventstore/activitywatch.go:40-82 | moves only forward in (time, id) and only in its bucket; exactly which inputs get which error, and then nothing changes |
| ActivityWatchImport.Importer.AppendDurationRevision | internal/collectors/activitywatch.go:390-411 | without faults takes the report in if and only if it is valid and `Absorbed`; then the base says the same but for the duration, a row of the family says exactly the report, and no other family changes; otherwise the table is as before |
| ActivityWatchImport.Importer.ImportBatch | internal/collectors/activitywatch.go:334-371 | when it completes every event of the batch is stored, its base row with its timestamp and data and some row of its family with its duration; without faults it completes if and only if every event is valid and its family, as it was before the batch, can take it; nothing stored is lost however it is cut, and every family stays well formed |
| ActivityWatchImport.Importer.AppendEvents | internal/collectors/activitywatch.go:334-348 | the first reports of a batch as base rows: each result describes the table as it is afterwards, and all but a conflict mean that the event could be taken in |
| ActivityWatchImport.Importer.ResolveOutcome | internal/collectors/activitywatch.go:349-371 | one result: done only with the event stored in that sense; without faults exactly when it is valid and, after a conflict, its family can take it |
| ActivityWatchImport.Importer.FetchRange | internal/collectors/activitywatch.go:318-327 | against a faithful server: succeeds exactly when the walk finishes, and then the events to import are those reported for the range, sane and closed, with distinct ids, within the event budget |
| ActivityWatchImport.Importer.ImportNext | internal/collectors/activitywatch.go:329-383 | a batch and then its checkpoint: cut between them, the checkpoint only covers events that are stored with their timestamp and data, from the start of the poll that first saved one; only reports of this batch's events are added; without faults it completes exactly when its events can be taken in |
| ActivityWatchImport.Importer.Advance | internal/collectors/activitywatch.go:372-382 | the checkpoint reaches the last event of a stored batch only, and what it covers is stored with its timestamp and data |
| ActivityWatchImport.Importer.Poll | internal/collectors/activitywatch.go:297-388 | cut anywhere, also between append and checkpoint: every source event from the start of the poll that first saved a checkpoint (the lookback before its clock) to the checkpoint is stored with its timestamp and data, the checkpoint has not moved back, and each added row is a report of an event this poll was to report. A poll that completes stored everything reported with the duration it was reported with and moved its checkpoint to or past it. Without faults an uncut poll completes if and only if the checkpoint is of this bucket and there is nothing to fetch, or the walk finishes and every event it will report is valid and can be taken in by its family as stored before; writes in proportion to the event budget do not cut it |
| ActivityWatchImport.Importer.RunPolls | internal/collectors/activitywatch.go:297-388 | over every run of cut polls against a bucket that only gains events later than past cutoffs, or longer durations: the same invariant at every point, from the start of whichever poll first saved a checkpoint; what any completed poll reported is in the final table with that duration, and every added row is what one of the polls was to report |
| ActivityWatchImport.Importer.InvSurvivesGrowth | internal/collectors/activitywatch.go:297-388 | events later than every past cutoff, and other durations of the same events, do not break the invariant |
| Projections.AnyOrderIsRebuild | internal/eventstore/media.go:364-432 | applying events in any order with repeats gives the rebuilt table once each key's latest event was applied |
| Projections.ApplyKeepsRebuilt | internal/eventstore/media.go:364-401 | a current table stays equal to a rebuild after each committed event is applied |
| MediaStore.InsertKeepsChain | internal/eventstore/media.go:287-362 | each key's log stays a chain: every row names its predecessor, discovered comes first only, no two consecutive rows are equal |
| MediaStore.ConflictIff | internal/eventstore/media.go:83-134 | when a claim is refused: the source is bound to other content or metadata, or the content to other metadata |
| MediaStore.AcceptKeepsConsistent | internal/eventstore/media.go:195-285 | one segment per digest, one segment per source identity and only resolved segment ids survive an acceptance; an accepted source is bound to the returned segment |
| MediaStore.RepeatedAcceptSameSegment | internal/eventstore/media.go:195-285 | after any later growth of the tables, accepting the same source again gives the same segment id and adds none |
| MediaStore.EventKeepsConsistent | internal/eventstore/media.go:287-362 | an event whose segment id came from a resolved claim keeps the claims consistent |
| MediaStore.ResolvedMayCarry | internal/mediaingest/manager.go:563-594 | the segment id of a resolved claim may be carried by an event |
| MediaStore.Store.AppendMediaIngestEvent | internal/eventstore/media.go:179-193 | the row is committed before its projection; a cut between them leaves a table that a rebuild repairs |
| MediaStore.Store.AcceptMedia | internal/eventstore/media.go:195-285 | one transaction; a conflict changes no table and no projection; current projections stay current |
| MediaStore.Store.ResolveMediaClaim | internal/eventstore/media.go:79-134 | the claim of a source and content on the tables as they are |
| MediaStore.Store.RebuildMediaProjections | internal/eventstore/media.go:403-432 | afterwards both projections show each key's latest event; a failure leaves them |
| MediaScan.RetainSmallest | internal/mediaingest/manager.go:86-95 | offered any stream one by one, the heap holds exactly the `limit` smallest entries seen |
| MediaScan.CandidateHeap.Push | internal/mediaingest/manager.go:67-78 | the heap property and the contents, with the new entry |
| MediaScan.CandidateHeap.Pop | internal/mediaingest/manager.go:79-84 | a largest entry leaves, the rest stay a heap |
| MediaScan.KeysDiffer | internal/mediaingest/manager.go:321-328 | different file names have different scan keys, also when they fold to the same text |
| MediaScan.Scanner.Select | internal/mediaingest/manager.go:298-354 | from two bounded heaps, exactly the next entries in cyclic key order after the cursor |
| MediaScan.Scanner.ScanOnce | internal/mediaingest/manager.go:277-392 | one scan handles the next min(limit, n) entries in cyclic order, each once, fewer only when the storage gate closes, and the cursor is the last one handled |
| MediaScan.FairScan | internal/mediaingest/manager.go:277-392 | with n entries and no arrivals, ceil(n / limit) uninterrupted scans handle every entry that remains |
| MediaScan.EveryEntryIsReached | internal/mediaingest/manager.go:355-385 | however short the scans were cut, once n entries were handled none is left out |
| MediaScan.RunScans | internal/mediaingest/manager.go:277-392 | real scans, from any cursor, are such a run |
| MediaIngest.Manager.CopySource | internal/mediaingest/files.go:22-97 | a finished copy equals the source in content, size and digest and is within the limit; a cut one touched only its target |
| MediaIngest.Manager.InstallAccepted | internal/mediaingest/files.go:99-135 | the accepted path holds the content it is named by; no accepted or quarantined file changes or disappears |
| MediaIngest.Manager.Record | internal/mediaingest/manager.go:668-696 | afterwards the latest row of the marker says the report; every log begins with discovered |
| MediaIngest.AcceptanceAnnounced | internal/mediaingest/manager.go:586-618 | a committed acceptance is logged with the path and id of the segment it answers with, right after the validated row |
| MediaIngest.Manager.FillQuarantine | internal/mediaingest/files.go:213-305 | the quarantine file equals the rejected bytes, an earlier quarantine file is compared and never replaced, and without faults exactly when it is refused and with which code |
| MediaIngest.Manager.Quarantine | internal/mediaingest/files.go:213-333 | rejected bytes end in quarantine and the log says so; without faults the last row says just how it ended; claims and committed files are as before |
| MediaIngest.Manager.Prepare | internal/mediaingest/manager.go:416-502 | the marker is logged as discovered; committed state is kept; without faults it goes on exactly for a usable sidecar with a complete, still source, and otherwise the log says why |
| MediaIngest.Manager.Stage | internal/mediaingest/manager.go:504-543 | goes on only with a verified copy of exactly the declared source and a passing probe, logged as validated; without faults exactly then, and otherwise the log says why |
| MediaIngest.Manager.PlaceDuplicate | internal/mediaingest/manager.go:557-572 | a duplicate is used only with its own file verified or put back where it belongs; without faults exactly when that file can be placed |
| MediaIngest.UncontestedIsPlaceable | internal/mediaingest/manager.go:545-584 | in every valid state a claim that is not a conflict can be placed: the accepted path is free or holds the right bytes, and a duplicate's path is the one its digest names |
| MediaIngest.PresentFileFits | internal/mediaingest/manager.go:557-567 | in every valid state a duplicate's file that is there verifies and lies where expected, so the branches for a differing file and for another path are dead but for a failing read |
| MediaIngest.PathsAreDistinct | internal/eventstore/media.go:83-134 | no two segments share a file: one segment per digest, and paths named by digest |
| MediaIngest.Manager.Place | internal/mediaingest/manager.go:545-584 | goes on only with an uncontested claim whose accepted file is in place with the declared content; without faults exactly then, and otherwise the log says why |
| MediaIngest.Manager.CommitSegment | internal/mediaingest/manager.go:586-618 | adds a segment only for a free claim, its file is there, and the accepting row follows the row that validated the copy |
| MediaIngest.Manager.PlaceAndCommit | internal/mediaingest/manager.go:545-618 | file, then acceptance, then confirmation: the claim becomes a duplicate of its own segment only if one was added, and without faults it all happens exactly when the claim's verdict passes |
| MediaIngest.Manager.Confirm | internal/mediaingest/files.go:398-442 | the new confirmation names a committed row; a cut leaves the old one, none, or the new one, and no other confirmation changes |
| MediaIngest.Manager.ProcessReady | internal/mediaingest/manager.go:416-636 | cut after any chunk, rename, transaction or confirmation: every segment has its file, every confirmation names a committed row, nothing committed is lost, at most one segment is added, and an uncontested source stays uncontested. Without faults a marker is accepted if and only if nothing observed stands in the way, its source is sound and its claim is not contested, and otherwise its verdict (status, code, path, segment) is the last row of its log |
| MediaIngest.Manager.VerdictPassesIff | internal/mediaingest/manager.go:416-636 | the verdict, which follows the code branch by branch, passes in a valid state exactly under that condition |
| MediaIngest.Manager.CutThenRerun | internal/mediaingest/manager.go:416-636 | from any valid state, for any sound source with an uncontested claim: after any cut a fault-free second attempt accepts it if and only if the source has stopped growing and no quarantine of it is remembered; both together add at most one segment, and none if it was a duplicate |
| MediaIngest.Manager.Redeliver | internal/mediaingest/manager.go:557-572 | a source delivered again after its file was removed is accepted under the same condition, and then the file is back; no segment and no state row is added |
| MediaIngest.AcceptanceKeepsClaim | internal/eventstore/media.go:195-285 | a committed acceptance leaves its source a duplicate of its own segment |
| MediaIngest.Run | internal/mediaingest/manager.go:416-636 | every reachable state is valid (every accepted file holds the content it is named by, every segment's path is the one its digest names), with deliveries, retention removals and restarts in between; every segment has its file unless a removal step took just that one, and there are at most as many new segments as markers processed |
| Retention.Manager.RetentionOnce | internal/operations/manager.go:283-347 | at most `limit` candidates are treated, the oldest in order, and an omitted one is later than all of them; wherever a run is cut: a file disappears only after a new plan for it and, where required, a same-hash backup check; a state row appears only after its file is gone; every segment that could be removed before is gone or can still be removed; segments that were not selected are as before. Without faults every eligible candidate loses its file and is shown as deleted if and only if retention had not deleted it before |
| Retention.Manager.ProcessCandidate | internal/operations/manager.go:303-346 | the same for one candidate: its file goes only under a plan that is kept until the deletion is committed, and nothing about any other segment changes |
| Retention.Manager.RemoveAndConfirm | internal/operations/manager.go:321-346 | plan, removal and commit of one file: cut between them, the candidate is still planned and eligible |
| Retention.Manager.CutThenRerun | internal/operations/manager.go:283-347 | a run cut anywhere and then a fault-free one with the same backup: every candidate that could be removed before the first is gone, unless the second run was full without it |
| Retention.CommitSettles | internal/eventstore/operations.go:283-323 | the commit for a planned segment whose file is gone finishes it, also when the plan and the removal are those of an earlier, cut run |
| Retention.Manager.ConfirmRetentionDeletion | internal/eventstore/operations.go:283-323 | one transaction; only after a plan; deletions keep following plans |
| Retention.Manager.AppendRetentionEvent | internal/eventstore/operations.go:240-250 | with an advancing clock a row is always new, and a plan becomes the latest row of its segment |
| Retention.PlanIsLatest | internal/eventstore/operations.go:240-263 | a plan written by an advancing clock is what `RetentionDeletionPlanned` then finds |
| Retention.Manager.RetentionCandidates | internal/eventstore/operations.go:204-226 | the `limit` oldest segments shown as present, in order; an omitted one is later than all of them |
| Retention.Manager.AppendMediaState | internal/eventstore/operations.go:265-278 | another state row, then its projection; a cut between them keeps all invariants |
| Retention.ShownDeletedIff | internal/eventstore/operations.go:283-323 | a present segment becomes shown as deleted if and only if retention never deleted it before |
| Retention.SecondDeletionIsLost | internal/eventstore/operations.go:283-323 | deleted, shown as restored by another writer and planned again: the second deletion changes no log and no projection |
| Retention.CommitStateKeeps | internal/eventstore/operations.go:283-323 | once a deletion is logged the projection shows it or something later, and only this segment's entry changes |
| Retention.Run | internal/operations/manager.go:283-352 | over every run with any faults, acceptances under new paths, re-deliveries, restorations and losses: each deletion row directly follows a plan, the deletion logs agree, and no two segments share a path |
| Paging.OrderedPage | internal/eventstore/timeline.go:89-178 | ORDER BY with LIMIT n + 1: the first `limit` of the selected rows, and whether more remain |
| Paging.PageAdvances | internal/eventstore/timeline.go:89-178 | appending a page keeps the collected rows an ascending initial part of the snapshot, with the rest after the cursor |
| EventPages.Store.QueryPage | internal/eventstore/query.go:90-168 | which limits and cursors are refused; otherwise the next rows of the snapshot, and a cursor if and only if more remain |
| EventPages.NewerRowsStayOut | internal/eventstore/query.go:90-168 | rows appended after the snapshot never change a page |
| EventPages.Walk | internal/eventstore/query.go:90-168 | following cursors, with appends between pages, returns exactly the rows of the snapshot in id order, and ends |
| TimelinePages.AfterIsKeyOrder | internal/eventstore/timeline.go:115-135 | the nested OR of the WHERE clause is the lexicographic order of the five-part key |
| TimelinePages.SnapshotIsStable | internal/eventstore/timeline.go:339-399 | later syncs, which update rows in place or append them, do not change the keys of a snapshot |
| TimelinePages.Timeline.Upsert | internal/eventstore/timeline.go:339-399 | one projection is stored under its source, keeping row ids and keys |
| TimelinePages.Timeline.UpsertAll | internal/eventstore/timeline.go:202-214 | the chunks of a sync together store every item, and every other row is as before |
| TimelinePages.Timeline.QueryTimeline | internal/eventstore/timeline.go:89-178 | which ranges and cursors are refused; a first page stores all that its sync collected, and nothing else, and takes the snapshot; otherwise the next snapshot rows of the range in key order, and a cursor if and only if more remain |
| TimelinePages.WalkVerdict | internal/eventstore/timeline.go:697-731 | a walk completes if and only if the page ends of the snapshot are in the fixed layout |
| TimelinePages.Walk | internal/eventstore/timeline.go:89-178 | with any syncs between pages: in key order, nothing newer than the snapshot, which holds all that the first page's sync collected and else only rows from before, nothing twice; every snapshot row if and only if it completes; it completes exactly under that condition |
| TimelinePages.SyncedIsCollected | internal/eventstore/timeline.go:89-178 | a completed walk has a row, with the same source and times, for every synced item of the range |
| TimelinePages.ShortFractionStopsWalk | internal/eventstore/timeline.go:726-726 | a table of two heartbeats whose received times lack trailing digits, and a walk in pages of one that stops |
| TimelineSync.QueriesAreExact | internal/eventstore/timeline.go:302-337 | with a clock error below half a second the two widened queries never return the same fact, and with the exact check find just the wanted ones |
| TimelineSync.CollectsEachOnce | internal/eventstore/timeline.go:241-291 | over all rows of a source the two queries find every wanted fact exactly once and nothing else |
| TimelineSync.Collector.CollectSource | internal/eventstore/timeline.go:557-616 | one source with the shared budgets: all its wanted facts, or an error exactly when a budget is exceeded |
| TimelineSync.Collector.Append | internal/eventstore/timeline.go:401-412 | a fact is kept whole or refused by the count or the byte budget, which stay exact |
| TimelineSync.Collector.Sync | internal/eventstore/timeline.go:180-215 | success if and only if all wanted facts of all sources fit the budgets, and then exactly those |
| TimelineSync.CoarserClockLosesFact | internal/eventstore/timeline.go:302-337 | with errors of six tenths of a second a fact at the start of the range is never seen |

## Left out

What the model takes as given:

- Windows already expanded to instants: time zones, daylight saving and RFC 3339 parsing (internal/coverage/coverage.go:154-178) are not modelled; a stored timestamp is a text with its instant.
- Digests are injective: a digest stands for its contents. Metadata hashes and event keys are compared by the fields they hash.
- Probe results, path and reparse-point checks and file stamps are inputs of a call (`MediaIngest.Observed`); the path checks of accepted files and of retention candidates are left out.
- A commit that returns an error has not committed; the case where SQLite committed and still reported an error is not distinguished.
- The SQL interval filter on raw events holds for every event whose exact interval is positive, and the SQL clock is within half a second: both are the stated assumption `TimelineSync.GoodRow`.
- A JSON source is its token sequence and whether the decoder broke off; the nesting limit inside Go's own decoder is not modelled.
- Nobody else writes under the importer's keys during its polls: `ActivityWatchImport.Importer.Inv` holds well-formed families, which a row of another writer keeps exactly under `AddedRowFitsIff`.
- The retention clock advances strictly between rows, and the full-backup manifest is read beforehand (internal/operations/manager.go:392-441).

Contracts that say less than the code does:

- ActivityWatchImport.Importer.Poll: the heartbeat that a successful poll appends, and the counters it returns, are not modelled; candidate validation is one predicate of the event; a checkpoint that cannot be saved is a poll that stops before it.
- ActivityWatchFetch.FetchEvents: success is exactly that of the walk over the pages; the condition on the bucket (`WalkFinishesIff`) is for a server whose every page is acceptable, and is exact when there are more pages than events. A duration is an integer, so negative zero does not occur.
- ActivityWatchRevisions.DecideRevision: durations are integers, where the code compares floating-point seconds.
- MediaIngest.Manager.ProcessReady: which report a fault leaves behind is not stated beyond what every run keeps; the second conflict check after the acceptance transaction is not modelled, since one process holds the claim from resolution to commit; remembered quarantine signatures are booleans.
- MediaIngest.Manager.Quarantine: the sidecar copy and the reason file are steps that may fail, without contents; the quarantine copy uses the same copy loop as staging, so the size of the partial file that an oversized source leaves is not exact.
- MediaScan.Scanner.ScanOnce: reading the directory in batches, confirmed markers and the backlog counters are left out; a closed storage gate or a cancelled scan is a number of allowed entries.
- Retention.Manager.RetentionCandidates: compares instants; the code compares texts, one of them not in the fixed layout, which can differ by less than a second at the cutoff.
- Retention.Manager.RetentionOnce: the disk level that triggers a run is a flag, and faults recorded for the dashboard are left out. A candidate's path is its segment's path.
- Retention.SecondDeletionIsLost: its `restored` row is one that `AppendMediaState` would write; nothing in the repository calls it.
- RawEvents.Store.AppendBatch: the field checks of one event (internal/eventstore/event.go:209-304) are one result, valid or a code.
- TimelinePages.Timeline.QueryTimeline: quality flags and payload are one opaque text; the fixed layout is recognised by its length of thirty characters; the cursor's base64 and JSON encoding is left out.
- TimelineSync.Collector.Sync: the projection of a row (its end, flags and payload text) is given with the row.

What the repository does besides: the HTTP server and client, the dashboard and TypeScript interface, the command line,
configuration parsing, migrations, backup by VACUUM, disk thresholds, fault and mode histories, log rotation, tickers and
deadlines. Modelling them would only add single-branch members.
