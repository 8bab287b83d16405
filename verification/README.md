# Verification models for the performer runtime

A live performer's runtime decides what to remember, what to say next, what to admit, and what to spend.
This project models the components that take those decisions and proves what their callers rely on. Each
component has a plain specification (functions over values). Where the program changes state in place, a
class or a loop is proved equal to that specification. Theorems over all inputs, all runs or all reachable
states are then proved about the specification.

| file | component |
|---|---|
| `Seqs.dfy`, `Words.dfy` | filtering, stable sorting and prefixes of sequences; 64-bit words |
| `Utf8.dfy` | well-formed UTF-8 (section 3 of RFC 3629) and both text bounds |
| `MemoryModel.dfy` | the bounded, expiring store of claims with typed links, as values |
| `MemoryInvariants.dfy`, `MemoryWrites.dfy`, `MemoryRuns.dfy` | what each write keeps, what it does exactly, and what every run reaches |
| `MemoryAcceptance.dfy`, `MemorySpine.dfy` | when a write is accepted, and which earlier memories it is linked after |
| `MemoryReads.dfy`, `MemoryReadTheorems.dfy`, `MemoryReadLimits.dfy`, `MemoryRanking.dfy` | the four reads: what they may depend on, what they miss, and exactly what they return |
| `WorkingMemory.dfy` | the store as an object, with the program's loops |
| `AdaptationEngine.dfy`, `EngineDecisions.dfy` | asset feedback: maps with touch ticks, as an LRU list; counts and verdicts over a run |
| `RawIngress.dfy` | the chunked record reader and its pump |
| `Budget.dfy`, `BudgetDecisions.dfy` | the sliding-window budget governor and its reservations; its decisions over a run |
| `Scheduler.dfy`, `SchedulerDecisions.dfy` | the TypeScript scheduler and its answers |
| `EventBus.dfy`, `Dispatch.dfy` | the event bus and its dispatch order |
| `RateLimit.dfy`, `RateLimitLaw.dfy` | token buckets and their exact law |
| `Calendar.dfy` | day numbers, civil dates (section 5.7 and Appendix C of RFC 3339) and time stamps |
| `Template.dfy`, `TemplateSlots.dfy` | template rendering, placeholder removal and what fills a slot |
| `MemoryEval.dfy`, `MemoryEvalCounts.dfy` | the memory evaluation, its independent verifier and the comparison |

## What the code does where a reader may expect otherwise

Each of these is modelled as the code has it.

- A write accepted by every check at the last representable instant fails, and the failure empties the store
  and spends an id. A refused write leaves the store unchanged exactly when it is not this one
  (`MemoryWrites.DurableWriteOutcome`, `MemoryWrites.WorkingWriteOutcome`).
- The comments at crates/adaptation/src/lib.rs:323-325 and :1216-1218 say an operator's record never enters
  generation. `context_for` lets it in for a speaker with the operator's own pseudonym, and for no one else
  (`MemoryReadTheorems.OperatorRecordsReachOnlyTheirOwner`; `MemoryReadLimits.OwnOperatorRecordIsDelivered` is a run).
- The comment at crates/adaptation/src/lib.rs:1234-1238 says a superseded topic match's live correction is
  promoted into its rank. `context_for` promotes one hop only: the first recorded live correction. It is
  ranked exactly when nothing supersedes it in turn (`MemoryReadLimits.PromotionReachesExactlyWhen`); in a
  claim corrected twice the current correction is not promoted and an unrelated note leads it
  (`MemoryReadLimits.LatestCorrectionIsNotPromoted`). A latest live correction always exists
  (`MemoryReadTheorems.LatestCorrectionExists`).
- Linked retrieval walks bounded views, so a node with more visible links than one view holds can hide a
  neighbour (`MemoryReadLimits.NarrowViewHidesANeighbour`). `MemoryReadLimits.ReturnedExactlyWhen` says what is
  returned, `MemoryReadTheorems.LinkedResultIsComplete` when nothing is missed.
- The character and cost ledgers hold amounts, but trimming compares their entries with a time horizon, so
  a recent charge can be forgotten and the limit overrun. `Budget.AmountLimitFailsExactlyWhen` and
  `Budget.AmountLimitHoldsExactlyWhen` give the exact guard, `Budget.AmountsFitEveryWindow` what holds where the
  guard is never met, and `Budget.CharacterLimitCanBeOverrun` a run that charges 120 of 100 characters in one
  instant. The 64-bit sum of a ledger wraps, which exposes the limit too (`Budget.WrappedSumOverruns`).
  Settlements are checked against no limit (`Budget.TopUpsAreUnchecked`).
- The comment at crates/app/src/budget.rs:286-288 says settling tops up the unit ledger. Nothing ever charges
  units, so a unit limit refuses nothing (`Budget.UnitsAreNeverCharged`, `Budget.UnitLimitNeverRefuses`).
- The comment at crates/app/src/budget.rs:194-195 says shadow evaluation charges no billable budget unless
  enabled. Settling such a reservation charges its whole use (`Budget.UnbilledUseIsCharged`), and so does
  settling one of a disabled governor.
- The scheduler keeps performances apart only as long as no stop or interruption reaches back behind one that
  is already over (`Scheduler.StepSurvivesExactlyWhen`, `Scheduler.RunSurvivesExactlyWhen`). Its caller adds a
  start delay of up to 500 ms to requests and none to stops (src/performer.ts:93-127), so its runs do reach
  back: `Scheduler.DelayedRun` loses 450 of a spacing of 1500, and overlaps at a spacing of 100.
  `Scheduler.DelayedRunsStayDisjoint` is what the caller's runs keep: at most the longest delay is lost.
- A request at least as important as an uninterruptible performance is placed beside it, not refused
  (`Scheduler.OverlapExactlyWhenUninterruptible`, `Scheduler.UninterruptibleRunOverlaps`). The caller always plans
  interruptible performances.
- A clock that goes back refills a bucket twice. `RateLimit.AdmissionsBounded` holds for every clock, counting
  every rise; elapsed time alone bounds admissions if and only if the clock never goes back
  (`RateLimit.ElapsedBoundExactlyWhenMonotone`).
- The report verifier says no report can improve on paper while delivering something else
  (crates/app/src/memory_compare.rs:397-399). Order errors, shortened claims, refused items and the bound flags
  are not re-derived, so one can: `MemoryEval.ImprovementOnPaper`. `MemoryEval.TotalTrustedExactlyWhenTruthful`
  says when the order-error total may be trusted.
- The reader's byte count saturates. `RawIngress.LineVerdictIsExact` gives the single family where that changes
  a verdict: the largest admissible bound, with a line longer than a machine word can count.
- Once the engine's touch ticks saturate they tie, and eviction goes by name
  (`AdaptationEngine.SaturatedTouchKeepsListExactlyWhen`, `AdaptationEngine.SaturatedTouchesForgetOrder`).

## Model

| member | source | states |
|---|---|---|
| MemoryWrites.ResolveIsExact | crates/adaptation/src/lib.rs:787-816 | A declared target resolves to an id if and only if that id is the one live durable entry of the event, recorded no later than the write |
| MemoryAcceptance.TargetRefusedExactly | crates/adaptation/src/lib.rs:787-816 | The reason a target is refused: no durable entry for the event, all of them expired, or more than one not expired; otherwise it was recorded later |
| WorkingMemoryStore.Dedupe | crates/adaptation/src/lib.rs:614-642 | The bounded walk over declarations succeeds exactly when the distinct ones fit the budget, and returns them in first-declaration order |
| MemoryWrites.PlanFacts | crates/adaptation/src/lib.rs:596-760 | A write that passes its checks names distinct, live, durable, not-future targets within one shared link budget, with evidence that fits |
| MemoryWrites.StoredTextIsFaithful | crates/adaptation/src/lib.rs:707-758 | The stored claim is the longest well-formed prefix within the bound, empty exactly when the first character overruns it; a verified fact is stored whole; and an entry is verified exactly when a trusted system event's own claim says the same text |
| MemoryWrites.StoredEntryExactly | crates/adaptation/src/lib.rs:734-758 | The entry's source, pseudonym, topic, times and class are what the write's origin, clock and retention give, each spelled out |
| MemoryInvariants.CompactKeepsInv | crates/adaptation/src/lib.rs:967-1000 | Compaction at any time keeps the whole store invariant: ids increasing, links sound and distinct, sizes within their bounds and marks |
| MemoryRanking.CompactionKeepsExactly | crates/adaptation/src/lib.rs:967-1000 | Compaction keeps an entry if and only if it is unexpired and fewer than the bound of unexpired ones were stored after it |
| MemoryInvariants.InsertionKeepsProjection | crates/adaptation/src/lib.rs:906-921 | What insertion really retains is what the projection promised, followed by the new entry; links are pruned to it and nothing else changes |
| MemoryInvariants.InsertAtTheLastInstantEmptiesTheStore | crates/adaptation/src/lib.rs:1468-1498 | At the last representable time insertion fails, having emptied the store and spent an id |
| MemoryInvariants.LinkingAppendsNewEdges | crates/adaptation/src/lib.rs:823-890 | No new edge collides with an old one, so linking appends exactly the declared and temporal edges, then prunes |
| MemoryInvariants.ShedDropsOldestDerived | crates/adaptation/src/lib.rs:944-965 | Re-bounding keeps every explicit link in order, drops exactly the oldest derived ones, and lands on the bound whenever the explicit links fit it |
| MemoryWrites.EvidenceAfterLinking | crates/adaptation/src/lib.rs:682-705 | The explicit links after insertion and linking are the old ones among projected survivors followed by the new ones to surviving targets |
| MemoryWrites.CapacityCheckIsExact | crates/adaptation/src/lib.rs:682-705 | The pre-check passes if and only if the explicit links actually left after the write fit the link bound |
| MemoryWrites.LinkedStore | crates/adaptation/src/lib.rs:823-890 | After an admitted write is linked and re-bounded the invariant holds and no explicit link was lost to the bound |
| MemoryAcceptance.AcceptedExactly | crates/adaptation/src/lib.rs:588-767 | A durable write is accepted if and only if its declarations are few (each list, and distinct ones together), their targets clear, the evidence it leaves fits, there is something to store, and neither clock nor ids have run out |
| MemoryWrites.DurableWriteOutcome | crates/adaptation/src/lib.rs:588-767 | The exact condition for acceptance and for each late failure; a refusal leaves the whole store unchanged, next id included, except at the last instant; an acceptance takes the next id and appends to the projection |
| MemorySpine.DurableWriteSpine | crates/adaptation/src/lib.rs:848-890 | The temporal links an accepted write leaves come in from surviving durable memories on its topic recorded no later, within what its declared links left of its budget, from the latest ones and from all while the budget lasts unless the store bound reached them; a write without a topic adds none |
| MemorySpine.SpineBeforeShedding | crates/adaptation/src/lib.rs:848-884 | Before the store bound is applied, the write's temporal links are exactly those |
| MemorySpine.PredecessorsExactly | crates/adaptation/src/lib.rs:860-873 | The predecessors chosen are the latest durable memories on the topic recorded no later, and all of them within the budget |
| MemoryWrites.LastInstantWriteChangesTheStore | crates/adaptation/src/lib.rs:738-766 | Every durable write that passes its checks at the last instant is refused and nevertheless empties the store |
| MemoryWrites.WorkingWriteOutcome | crates/adaptation/src/lib.rs:520-536 | The exact condition for acceptance and for each failure of a working write, the same emptying at the last instant, and that it only ever drops links whose entries go |
| MemoryWrites.FirstClaimPassesTheChecks | crates/adaptation/src/lib.rs:596-733 | A plain public claim passes every check on an empty store, so the last-instant failure is reachable in any valid configuration |
| MemoryRuns.StepKeepsInv | crates/adaptation/src/lib.rs:520-767 | Every public write and every compaction keeps the invariant, whatever the order of their times |
| MemoryRuns.ReachableStoresAreSound | crates/adaptation/src/lib.rs:892-965 | In every reachable store entries and links are within their bounds, no link dangles, and each link agrees with record time and insertion order of its two entries |
| MemoryRuns.AcceptedIdsGrow | crates/adaptation/src/lib.rs:1468-1498 | An accepted write, durable or working, gets a larger id than every entry any earlier store of the run ever held |
| MemoryRuns.ExplicitEvidenceIsNeverShed | crates/adaptation/src/lib.rs:659-705 | Over any continuation of any run, an explicit link is still there as long as both its entries are |
| WorkingMemoryStore.WorkingMemory.New | crates/adaptation/src/lib.rs:416-452 | A store exists exactly for a valid configuration, and starts empty and valid |
| WorkingMemoryStore.WorkingMemory.CompactNow | crates/adaptation/src/lib.rs:967-1000 | The in-place compaction computes the specified store and keeps the invariant |
| WorkingMemoryStore.WorkingMemory.PushBounded | crates/adaptation/src/lib.rs:1468-1498 | The in-place insertion, with its two compactions and its two failures, computes the specified store and result |
| WorkingMemoryStore.WorkingMemory.EnforceLinkBound | crates/adaptation/src/lib.rs:944-965 | The shedding loop reaches the bound without its early exit, losing no explicit link |
| WorkingMemoryStore.WorkingMemory.LinkNewMemory | crates/adaptation/src/lib.rs:823-890 | The in-place linking computes the specified store whenever the explicit links fit |
| WorkingMemoryStore.WorkingMemory.CheckDurable | crates/adaptation/src/lib.rs:596-760 | The checks, in the order the code takes them, give the specified plan or the specified error and change nothing |
| WorkingMemoryStore.WorkingMemory.RememberDurable | crates/adaptation/src/lib.rs:588-767 | The durable write computes the specified store and result, keeps the invariant, and changes nothing when refused by a check |
| WorkingMemoryStore.WorkingMemory.RememberWorking | crates/adaptation/src/lib.rs:520-536 | The working write computes the specified store and result and keeps the invariant |
| WorkingMemoryStore.WorkingMemory.LinkView | crates/adaptation/src/lib.rs:1341-1405 | The capped view is supersessions newest first, then the rest, over live visible links, with the staleness verdict drawn from the same links |
| MemoryRanking.ViewExactly | crates/adaptation/src/lib.rs:1352-1403 | The view holds the visible links that touch the node, all of them where they fit, by kind and then latest first |
| WorkingMemoryStore.WorkingMemory.RelevantLinked | crates/adaptation/src/lib.rs:1095-1200 | The growing-set expansion with its early exits equals the specified expansion by one link |
| WorkingMemoryStore.WorkingMemory.ContextFor | crates/adaptation/src/lib.rs:1246-1331 | The correction map built in link order gives the specified context |
| MemoryReadTheorems.ReadsSeeOnlyTheVisibleStore | crates/adaptation/src/lib.rs:1003-1200 | Ranked retrieval, linked retrieval and the link snapshot answer the same on the store cut down to what is visible at the read time |
| MemoryRanking.SnapshotExactly | crates/adaptation/src/lib.rs:482-502 | The snapshot holds a link if and only if it is recorded by then between two visible entries |
| MemoryReadTheorems.ContextSeesOnlyTheVisibleStore | crates/adaptation/src/lib.rs:1246-1331 | So does the generation context: no future or expired record or link can influence it |
| MemoryReadTheorems.DroppedExactlyWhenStale | crates/adaptation/src/lib.rs:1341-1405 | For live entries the context drops exactly those the link view calls stale |
| MemoryReadTheorems.CapNeverHidesTheNewestSupersession | crates/adaptation/src/lib.rs:1368-1403 | With any positive cap, the view of an entry touched by a supersession opens with the newest visible one |
| MemoryReadTheorems.EvidenceIsAcyclic | crates/adaptation/src/lib.rs:769-816 | Along any chain of explicit links in a sound store ids strictly grow, so supersession and causation have no cycle |
| MemoryReadTheorems.LatestCorrectionExists | crates/adaptation/src/lib.rs:1265-1279 | Every live entry is connected by live corrections to a live entry that nothing live supersedes; a dropped one by at least one step |
| MemoryReadTheorems.ScopeAfterLimitIsScopeBeforeLimit | crates/adaptation/src/lib.rs:1003-1062 | Filtering by actor after taking the ranked limit equals taking the limit after filtering, with or without a topic |
| MemoryRanking.RelevantExactly | crates/adaptation/src/lib.rs:1003-1062 | A query answers with the first `limit` of the visible entries it asks for (all, or its actor's, or on its topic), ordered by owner, topic, record time and id; nothing cut stands ahead of anything returned |
| MemoryRanking.DirectExactly | crates/adaptation/src/lib.rs:1095-1130 | The direct matches of a linked query are that answer over its actor's entries alone |
| MemoryReadTheorems.LinkedResult | crates/adaptation/src/lib.rs:1095-1200 | The linked result is within the limit and the scope, live, without duplicates, direct matches first, and every further node is one visible link from a direct match |
| MemoryReadTheorems.LinkedResultMissesNothing | crates/adaptation/src/lib.rs:1095-1200 | When the limit is not reached, every live in-scope node that the bounded view of a direct match shows is returned |
| MemoryReadLimits.ReturnedExactlyWhen | crates/adaptation/src/lib.rs:1095-1200 | With room left, a live node in scope is returned if and only if it is a direct match or the bounded view of one shows it |
| MemoryReadLimits.NarrowViewHidesANeighbour | crates/adaptation/src/lib.rs:1368-1403 | At a cap of one, a node superseded twice does not lead to the older of the two, though a visible link joins them |
| MemoryReadTheorems.LinkedResultIsComplete | crates/adaptation/src/lib.rs:1095-1200 | When the limit is not reached, every live in-scope node a visible link joins to a direct match is returned, if that match has at most one view's worth of visible links |
| MemoryRanking.LinkedNodesAreJoined | crates/adaptation/src/lib.rs:1130-1200 | Every further node is visible, its actor's, and joined to a direct match by a link between two visible entries |
| MemoryRanking.LinkedNodesAreAllReturned | crates/adaptation/src/lib.rs:1130-1200 | With room left none such is missed, unless its match has more links than one view holds |
| MemoryReadTheorems.ViewShowsAsManyAsFit | crates/adaptation/src/lib.rs:1364-1403 | A view shows all of a node's visible links or as many as its cap |
| MemoryReadTheorems.ContextContents | crates/adaptation/src/lib.rs:1246-1331 | Before the limit the context holds an entry if and only if it is live, not stale and allowed to reach the speaker |
| MemoryReadTheorems.ContextRanking | crates/adaptation/src/lib.rs:1305-1331 | Promoted and topic matches lead, and within each group newer records lead, ties going to the newer node |
| MemoryRanking.ContextExactly | crates/adaptation/src/lib.rs:1246-1331 | The context is the first `limit` of the visible, uncorrected entries meant for the speaker: those on the topic and the first recorded corrections of visible ones on it lead, and later records come first |
| MemoryRanking.TopicMatchesLead | crates/adaptation/src/lib.rs:1306-1317 | Ahead of a delivered topic match stand only topic matches and such corrections, and no deliverable topic match is cut while anything else is delivered |
| MemoryRanking.CorrectionIsFirst | crates/adaptation/src/lib.rs:1265-1279 | The correction a read applies is the first recorded supersession whose newer entry is visible |
| MemoryReadLimits.PromotionReachesExactlyWhen | crates/adaptation/src/lib.rs:1265-1310 | A live topic match promotes its first recorded live correction, which is ranked if and only if nothing live supersedes it and it may reach the speaker |
| MemoryReadLimits.PromotedOnAccountOf | crates/adaptation/src/lib.rs:1280-1291 | A node is promoted if and only if it is that first correction of some live topic match |
| MemoryReadLimits.LatestCorrectionIsNotPromoted | crates/adaptation/src/lib.rs:1234-1238 | For a claim corrected twice off its topic, only the stale correction is promoted, and an unrelated newer note leads the current one |
| MemoryReadLimits.TwiceCorrectedIsSound | crates/adaptation/src/lib.rs:1234-1238 | That store meets the whole store invariant |
| MemoryReadTheorems.ContextIsPrivate | crates/adaptation/src/lib.rs:1219-1331 | Whatever is delivered belongs to the speaker, or to nobody and a shared source class |
| MemoryReadTheorems.OperatorRecordsReachOnlyTheirOwner | crates/adaptation/src/lib.rs:1292-1301 | An operator's record is deliverable exactly to a speaker with its own pseudonym |
| MemoryReadLimits.OwnOperatorRecordIsDelivered | crates/adaptation/src/lib.rs:1292-1301 | After one working write by an operator with an actor, that actor's context delivers the record, whatever the topic |
| Utf8.BoundaryIffWellFormedPrefix | crates/app/src/routing.rs:658-667 | In well-formed text an index is a character boundary if and only if the prefix up to it is well formed |
| Utf8.TruncatedIsLongestPrefix | crates/adaptation/src/lib.rs:2028-2037 | The truncation is well formed, within the cap, and no longer prefix is both |
| Utf8.TruncateOwned | crates/adaptation/src/lib.rs:2028-2037 | The owned version terminates and computes that truncation |
| Utf8.TruncateSlice | crates/app/src/routing.rs:658-667 | The slice version, which has no guard at zero, never passes below zero and agrees with it |
| AdaptationEngine.FindVictim | crates/adaptation/src/lib.rs:1753-1790 | The scan over the touch map finds the oldest tick, the smallest name among ties |
| AdaptationEngine.StepKeepsInv | crates/adaptation/src/lib.rs:1711-1832 | Every operation keeps map and touch keys equal, sizes within bounds, and every id in a recent group among the assets with feedback |
| AdaptationEngine.TouchMovesToBack | crates/adaptation/src/lib.rs:1753-1790 | One touch of the maps is one move-to-back of a list that drops its front when full |
| AdaptationEngine.FeedbackIsLruList | crates/adaptation/src/lib.rs:1711-1832 | Over any run with at most as many touches as there are ticks, the feedback map is the move-to-back list: same ids, same order, same bounded size |
| AdaptationEngine.SaturatedTouchKeepsListExactlyWhen | crates/adaptation/src/lib.rs:1747-1790 | After the counter saturated, a touch still leaves the list if and only if, before it, every other id but an evicted front was older than the last tick |
| AdaptationEngine.SaturatedTouchesForgetOrder | crates/adaptation/src/lib.rs:1747-1790 | From there two assets touched one way round or the other leave the same ticks and the same victim, the one whose name comes first |
| AdaptationEngine.PairMoves | crates/adaptation/src/lib.rs:1711-1745 | The list tells those two orders apart: the one touched first is dropped first |
| AdaptationEngine.DecisionsAreContiguous | crates/adaptation/src/lib.rs:1863-1881 | The retained decisions are the contiguous tail of all decisions made, and evicted plus retained is the sequence number |
| EngineDecisions.FeedbackCountsTheRun | crates/adaptation/src/lib.rs:1711-1745 | Over a run that forgets nothing an asset's feedback is the number of its uses and of its labels of each kind |
| EngineDecisions.RunVerdictExactly | crates/adaptation/src/lib.rs:1834-1883 | Evaluating then invalidates, promotes or keeps exactly by those numbers: enough negative labels; or enough uses and labels with a sufficient positive part |
| EngineDecisions.UseIsNotedInItsGroup | crates/adaptation/src/lib.rs:1711-1732 | A use notes the asset last in its group, which remembers the latest window |
| EngineDecisions.GroupTouchMovesToBack | crates/adaptation/src/lib.rs:1791-1816 | Groups are touched and evicted as a move-to-back list too |
| AdaptationEngine.AdaptationEngine.RecordUse | crates/adaptation/src/lib.rs:1711-1732 | The in-place use computes the specified engine and keeps it valid |
| AdaptationEngine.AdaptationEngine.RecordQuality | crates/adaptation/src/lib.rs:1734-1745 | So does a quality label |
| AdaptationEngine.AdaptationEngine.Evaluate | crates/adaptation/src/lib.rs:1834-1883 | A decision carries the next sequence number and the feedback it was taken on, and the engine stays valid; an asset that may not be promoted yields none |
| AdaptationEngine.AdaptationEngine.Apply | crates/adaptation/src/lib.rs:1885-1910 | Applying computes the specified engine: feedback is forgotten only once an invalidation was stored |
| RawIngress.LinesJoinBack | crates/app/src/raw_ingress.rs:172-224 | Splitting loses nothing: the lines joined by line feeds are the input, up to a missing last one, and no line holds a line feed |
| RawIngress.LineVerdictIsExact | crates/app/src/raw_ingress.rs:226-246 | The verdict from the bounded remainder of a line is that of the whole line (strip one carriage return, reject if over the limit), if and only if not the saturated case |
| RawIngress.ReadBoundedRecord | crates/app/src/raw_ingress.rs:172-224 | However the input is cut into chunks, one read consumes exactly one line, returns its verdict, and never holds more than the limit plus one bytes |
| RawIngress.RecordsAfterRead | crates/app/src/raw_ingress.rs:172-246 | Reading one record at a time enumerates the judged lines of the whole input |
| RawIngress.PumpAccountsForEveryRecord | crates/app/src/raw_ingress.rs:129-170 | Enqueued, dropped-full and dropped-oversize add up to all records, or to those before the one a closed channel refused |
| RawIngress.PumpsExactly | crates/app/src/raw_ingress.rs:129-170 | Up to the record it reaches the pump enqueues or counts each record by the channel's own answer and counts each oversized one; it stops at the end or at the first record whose channel is closed |
| RawIngress.Pump.Run | crates/app/src/raw_ingress.rs:129-170 | The pump's counters and exit are those of the specification on the whole input, for every chunking and every channel behaviour |
| Budget.SharesAddUp | crates/app/src/budget.rs:150-160 | The reserve and the ordinary share of a limit make up the limit, for every percentage |
| Budget.WindowBound | crates/app/src/budget.rs:405-518 | A history each of whose admissions had room in its own look-back fits every closed window, wherever it starts |
| Budget.CallsFitEveryWindow | crates/app/src/budget.rs:405-518 | Over every run with nondecreasing times, every closed window of the interval's length holds at most the call limit, and at most the ordinary share of non-high calls |
| BudgetDecisions.DecidedExactly | crates/app/src/budget.rs:425-480 | After any run in time order a request is refused for the first check that fails and admitted if none does; a call limit is spent when the last interval's admissions reach it, less the reserved percentage for all but high priority |
| BudgetDecisions.RefusedWithTheReserveSpent | crates/app/src/budget.rs:432-452 | A high-priority request is refused for a call limit only when the last interval holds the whole limit, at least the reserve of it of high priority |
| BudgetDecisions.HighPriorityUsesTheReserve | crates/app/src/budget.rs:432-452 | While fewer calls than a limit are recent, it refuses no high-priority request |
| Budget.AmountLimitFailsExactlyWhen | crates/app/src/budget.rs:461-599 | For characters and cost alike: some high-priority request is admitted past what the last interval may hold if and only if a request for nothing would pass and either a charge of that interval is forgotten, that is, it and all held before it are numerically below the horizon, or the ledger's 64-bit sum wraps below what the interval holds (or the limit is the largest number, which adding a request saturates to) |
| Budget.AmountLimitHoldsExactlyWhen | crates/app/src/budget.rs:405-599 | Over every run in time order, settlements included, no request of the run could be replaced by one that overruns if and only if none meets that guard |
| Budget.AmountsFitEveryWindow | crates/app/src/budget.rs:405-599 | A run that never meets the guard keeps the limit in every closed window, and the ordinary share for what is not of high priority; each admission also left room for the top-ups before it |
| Budget.TopUpsAreUnchecked | crates/app/src/budget.rs:530-554 | A settlement adds its whole top-up to what the interval holds, against no limit |
| Budget.LateClockForgetsAll | crates/app/src/budget.rs:583-599 | A ledger is emptied at a request if and only if the horizon is past every amount held, so a late clock leaves a limit on single requests only |
| Budget.CharacterLimitCanBeOverrun | crates/app/src/budget.rs:461-599 | Two requests of 60 characters in one instant are both admitted: the interval holds 120 under a limit of 100, and the second met the guard |
| Budget.WrappedSumOverruns | crates/app/src/budget.rs:461-470 | Settlements of the largest number and of one leave a 64-bit sum of zero: 100 more are admitted under a limit of 100 with nothing forgotten |
| Budget.UnitsAreNeverCharged | crates/app/src/budget.rs:405-554 | Over every run the unit ledger stays empty |
| Budget.UnitLimitNeverRefuses | crates/app/src/budget.rs:454-459 | So no request of any run is ever refused for a valid unit limit |
| Budget.UnbilledUseIsCharged | crates/app/src/budget.rs:520-554 | Settling what was not billed at admission, shadow or under a disabled governor, charges its use in full, exactly where use is positive and the limit is set |
| Budget.Governor.TryAdmit | crates/app/src/budget.rs:405-518 | Admission refuses exactly for the first failing limit and then changes no slot; otherwise it grants one fresh reservation that carries the charged estimates and takes one slot if it is billable |
| Budget.Governor.Settle | crates/app/src/budget.rs:289-307 | Settling returns the slot at most once and tops the ledgers up to actual use only the first time |
| Budget.Governor.Release | crates/app/src/budget.rs:309-313 | Releasing returns the slot at most once, charges nothing, and counts once |
| Budget.Governor.Drop | crates/app/src/budget.rs:322-332 | Dropping returns the slot if it is still held, and nothing else |
| Budget.Governor.CounterIsExact | crates/app/src/budget.rs:426-430 | In every valid governor with a concurrency limit the wrapping counter is the number of live charged reservations, within the limit and never about to underflow |
| Scheduler.StepSurvivesExactlyWhen | src/scheduler.ts:82-136 | One request or stop keeps performances apart, up to any slack, if and only if it does not reach back by more than the slack behind the recorded stop of an item already over |
| Scheduler.RunSurvivesExactlyWhen | src/scheduler.ts:82-136 | A run of interruptible plans, at whatever times, is in order throughout if and only if every step fits in that sense |
| Scheduler.LateStopIsFelt | src/scheduler.ts:106-136 | After a stop that reaches back, a request in the time it gained starts too close to the item already over |
| Scheduler.OnePerformanceAtATime | src/scheduler.ts:82-131 | Over every run of interruptible plans whose times go back by at most a slack, no two items play at once, and each start keeps its gap to every earlier stop less at most the slack; in time order the gap is kept in full |
| Scheduler.DelayedRunsStayDisjoint | src/performer.ts:82-129 | Over the caller's runs, arrivals in order and requests delayed by at most the spacing, played intervals are disjoint and lose at most the longest delay of their spacing |
| Scheduler.DelayCostsItsSpacing | src/performer.ts:93-127 | A delayed interruption followed by an earlier stop shortens the next gap by exactly the difference, and overlaps exactly when that exceeds the spacing |
| Scheduler.DelayedRun | src/performer.ts:93-127 | Arrivals at 0, 100, 150 and 160 with a delay of 500: the gap is 1050 of 1500, and an overlap of 350 at a spacing of 100 |
| Scheduler.OverlapExactlyWhenUninterruptible | src/scheduler.ts:93-103 | A request leaves two items playing if and only if its asset is out of cooldown and an uninterruptible item, no more important than the request, is still playing |
| Scheduler.UninterruptibleRunOverlaps | src/scheduler.ts:93-115 | An operator's request over an uninterruptible performance: both play, and the second starts before the first has ended |
| Scheduler.AssetsRespectTheirCooldown | src/scheduler.ts:86-121 | Over every run, for any two accepted plans of an asset, the later starts after the earlier's planned end plus spacing |
| SchedulerDecisions.AnsweredExactly | src/scheduler.ts:82-122 | After any run a request is refused while its asset rests, refused while a more important performance (in the order of the six classes) is in the way, and otherwise placed at the earliest start the spacing allows |
| SchedulerDecisions.CoolingExactly | src/scheduler.ts:86-121 | An asset rests if and only if one of its accepted performances has not been over, as planned, for the spacing |
| Scheduler.PerformanceScheduler.Schedule | src/scheduler.ts:82-122 | The in-place scheduling computes the specified state, slot and rejection reason |
| Scheduler.PerformanceScheduler.StopCurrent | src/scheduler.ts:125-131 | Stopping cancels the first playing item and no other |
| EventBus.WorstIsLastMaximum | src/event-bus.ts:56-61 | The scan finds the least important event, the last inserted among equals |
| EventBus.DroppingWorstDropsLast | src/event-bus.ts:62-62 | Removing it removes the last event of the stable sort |
| EventBus.TakeBeforeInsert | src/event-bus.ts:54-62 | Bounding a sorted queue before an insertion loses nothing that bounding after it would keep |
| EventBus.DrainIsOfflineSort | src/event-bus.ts:47-78 | A drain after any publications is the control events in order, then the first `limit` of the stable sort of all content; published equals drained plus dropped |
| Dispatch.DrainExactly | src/event-bus.ts:22-78 | A drain is every control event in arrival order, then content by class of kind and sequence number, as many as the limit, none left out standing before one dispatched |
| Dispatch.TiesKeepArrivalOrder | src/event-bus.ts:73-78 | Events of one class and sequence number keep their order of arrival |
| EventBus.EventBus.Publish | src/event-bus.ts:47-67 | The in-place publication keeps the bus equal to its offline form and reports an overflow exactly when it dropped |
| EventBus.EventBus.Drain | src/event-bus.ts:73-78 | The in-place drain returns the offline form of everything published since the last drain and empties both queues |
| RateLimitLaw.DecisionsAreTheLawfulOnes | src/rate-limit.ts:53-71 | The decisions on any trace are the only ones that admit a request exactly when, since every earlier request, the admissions and itself are within the burst and the rate times the clock's rise |
| RateLimitLaw.AdmittedExactlyWhen | src/rate-limit.ts:53-71 | That law for one request |
| RateLimitLaw.PaidForByElapsedTime | src/rate-limit.ts:60-64 | With a clock that never goes back the rise is the time elapsed |
| RateLimitLaw.WaitingIsEnough | src/rate-limit.ts:60-70 | A source that waited one token's worth of time is admitted, whatever it asked before |
| RateLimitLaw.ContentDecidedExactly | src/rate-limit.ts:43-72 | In any history content is dropped for its size if too large, and otherwise admitted by the law over its own source's requests |
| RateLimitLaw.ControlAdmitsSixtyFour | src/rate-limit.ts:44-48 | Without releases exactly the first 64 control requests are admitted |
| RateLimitLaw.ReleaseFreesOnePlace | src/rate-limit.ts:75-77 | A release gives one control place back |
| RateLimit.AdmissionsBounded | src/rate-limit.ts:53-71 | Any stretch of admissions of one source numbers at most the burst plus the rate times all the time the clock rose |
| RateLimit.AdmissionsBoundedByElapsedTime | src/rate-limit.ts:53-71 | With a nondecreasing clock that is the burst plus the rate times elapsed seconds |
| RateLimit.ClockGoingBackBreaksTheBound | src/rate-limit.ts:60-65 | For every trace whose clock goes back at some point, options are given under which both requests around that point are admitted where elapsed time allows none |
| RateLimit.ElapsedBoundExactlyWhenMonotone | src/rate-limit.ts:53-71 | Burst plus rate times elapsed time bounds every stretch of admissions under all options if and only if the clock never goes back |
| RateLimit.SourcesAreIndependent | src/rate-limit.ts:43-78 | A source's bucket is a function of that source's own request times, and the control depth of control requests alone |
| RateLimit.OthersNeverMatter | src/rate-limit.ts:43-78 | Two histories that agree on a source decide its next request alike |
| RateLimit.RunsDecideBySource | src/rate-limit.ts:43-72 | In any history, a request small enough is admitted if and only if its own bucket alone would admit it |
| RateLimit.SourceRateLimiter.Admit | src/rate-limit.ts:43-72 | The in-place admission computes the specified buckets, depth and decision |
| Calendar.YearOfEraIsExact | crates/adapters/src/hindsight.rs:528-533 | The closed year formula agrees with splitting a 400-year era into centuries, four-year cycles and years |
| Calendar.CivilIsMarchDay | crates/adapters/src/hindsight.rs:528-544 | Every day number lands on a day of exactly the March-based year that contains it |
| Calendar.NextNumberIsNextDay | crates/adapters/src/hindsight.rs:528-544 | Every day number gives a valid date, and the next number the calendar's next day under the 400-year leap rule |
| Calendar.DatesGrow | crates/adapters/src/hindsight.rs:528-544 | The map is strictly increasing |
| Calendar.DatesAndDayNumbersCorrespond | crates/adapters/src/hindsight.rs:528-544 | Every valid date is the date of exactly one day number, and an independent inverse finds it |
| Calendar.DayZeroIsTheEpoch | crates/adapters/src/hindsight.rs:522-528 | Day 0 is 1970-01-01 |
| Calendar.StampNamesItsSecond | crates/adapters/src/hindsight.rs:511-520 | A stamp's fields are in range and count back to exactly the second it was made from |
| Calendar.FixedWidthUntilYear10000 | crates/adapters/src/hindsight.rs:515-520 | The text is 20 characters if and only if the instant is before the year 10000 |
| Calendar.StampReadsBack | crates/adapters/src/hindsight.rs:515-520 | Each field reads back from its own place in the text, with its separators |
| Template.RemovalLeavesNoGroup | crates/app/src/routing.rs:213-229 | After removal no opening brace precedes a closing one, whatever the text |
| Template.RemovalFixesExactlyCleanText | crates/app/src/routing.rs:213-229 | Removal leaves a text alone if and only if it is already so, and is idempotent |
| Template.UndeclaredSlotsAreInert | crates/app/src/routing.rs:149-211 | Slots a template does not declare change nothing |
| TemplateSlots.BindFillsSlots | crates/app/src/routing.rs:172-187 | Each declared slot becomes the first value given to it, and all other slots and text stay |
| TemplateSlots.LeaksExactlyWhenUnfilled | crates/app/src/routing.rs:193-200 | The result is refused as leaking exactly when some slot got no value |
| TemplateSlots.ValueExactly | crates/app/src/routing.rs:180-186 | A slot's value is what is left of it without surrounding white space and control characters |
| Template.RemovePlaceholdersLoop | crates/app/src/routing.rs:213-229 | The loop over positions computes the recursive removal |
| Template.Render | crates/app/src/routing.rs:149-211 | Rendering returns the exact fallback in the order of the checks, or the trimmed text, which is not empty, within its bound, and free of brace groups whatever the slot values |
| TemplateSlots.RefusedExactly | crates/app/src/routing.rs:155-170 | Refusal before filling, in numbers: a blank id, version or text; more than 8 slots; a name over 64 bytes or a value over 256 |
| MemoryEval.WriteCaseClaims | crates/app/src/memory_eval.rs:989-1037 | The writing loop over the runtime's own store object succeeds exactly when the store accepts every claim, and yields that store |
| MemoryEval.WrittenStores | crates/app/src/memory_eval.rs:989-1037 | Such a store is sound, holds each claim at most once, and has causal links only where a claim declared them |
| MemoryEval.RetainedEdgesInject | crates/app/src/memory_eval.rs:488-506 | Retained causal edges are distinct as claim pairs and every one was declared |
| MemoryEval.SpansAreSupported | crates/app/src/memory_eval.rs:472-506 | So no delivery ever shows more retained spans than the fixture's declared, delivered pairs |
| MemoryEval.BoundedPrefixFits | crates/app/src/memory_context.rs:74-96 | What the request budget lets through is within the item and byte bounds, each item whole and within its own |
| MemoryEvalCounts.BudgetTakesAllItCan | crates/app/src/memory_context.rs:74-96 | Of the items not too long for themselves the budget takes the longest front it can |
| MemoryEval.BoundedContext | crates/app/src/memory_context.rs:74-96 | The budget loop computes that prefix |
| MemoryEval.RuntimeNeverShortens | crates/app/src/memory_eval.rs:1057-1080 | Every delivered text equals the retained text found again by its claim id |
| MemoryEvalCounts.RowExactly | crates/app/src/memory_eval.rs:769-860 | Every figure of a measured row counts places of the delivered list or of the fixture's lists: order errors by event times, hits among the required, stale, refused, spans and changed texts |
| MemoryEval.HonestRowAccepted | crates/app/src/memory_eval.rs:769-860 | A row measured from the runtime's delivery of a valid case passes the verifier's case check |
| MemoryEval.RunCaseMeasures | crates/app/src/memory_eval.rs:1039-1102 | A valid case gives a row exactly when the store takes its claims: what the runtime delivers is declared, so measuring never stops |
| MemoryEval.HonestRowIsWithinBounds | crates/app/src/memory_eval.rs:808-850 | Such a row keeps the item bound, and the byte bound if and only if the request had not overspent it beforehand |
| MemoryEval.HonestReportAccepted | crates/app/src/memory_eval.rs:706-767 | Every report honestly built from a valid fixture by the runtime's own delivery is accepted |
| MemoryEval.MeasuredRowAcceptedExactlyWhen | crates/app/src/memory_compare.rs:468-564 | Any delivery, a service's too, can be measured and passes the case check if and only if it names declared claims only and no more spans than declared pairs it delivers |
| MemoryEval.MeasuredReportAccepted | crates/app/src/memory_sidecar_eval.rs:363-379 | So every report measured from answers without edges that name only the fixture's claims is accepted |
| MemoryEval.ValidateReport | crates/app/src/memory_compare.rs:400-466 | The walk with its set of seen ids accepts exactly the reports that meet the stated conditions |
| MemoryEval.AcceptedNumbersAreDerived | crates/app/src/memory_compare.rs:566-642 | In any accepted report, honest or not, integer totals equal the row sums, and each row's correctness, stale use and refused claims are those of its own delivered list |
| MemoryEval.DeclaredFiguresAreFree | crates/app/src/memory_compare.rs:468-642 | Every other figure of a row can be overwritten at will and the report re-totalled is still accepted, exactly as long as span counts stay within what the row delivers |
| MemoryEval.ImprovementOnPaper | crates/app/src/memory_compare.rs:397-399 | So, against any report with an order error, every accepted candidate that delivers nothing stale or refused becomes an improvement by overwriting figures, with its delivered lists unchanged |
| MemoryEval.TotalTrustedExactlyWhenTruthful | crates/app/src/memory_compare.rs:566-642 | The declared order-error total is that of the delivered lists whenever every row declares its own list's errors, and, where no row overstates, only then |
| MemoryEval.TruthfulImprovementIsReal | crates/app/src/memory_compare.rs:318-346 | Between reports truthful in that sense an improvement is one of what was delivered |
| MemoryEval.MeasuredRowsAreTruthful | crates/app/src/memory_eval.rs:807-810 | Every measured row is truthful, whoever answered |
| MemoryEval.CompareReports | crates/app/src/memory_compare.rs:159-371 | No verdict without a valid fixture and two accepted reports; one bad row rejects whatever the totals say |
| MemoryEvalCounts.VerdictExactly | crates/app/src/memory_compare.rs:159-371 | The verdict, exactly: none unless comparable; rejected for any row with stale, refused, changed or over-bound content; otherwise an improvement for fewer order errors or a better mean correctness |
| MemoryEval.ImprovementRestsOnTheRows | crates/app/src/memory_compare.rs:318-346 | A verdict of improvement means a better declared order-error total or mean correctness, and no refused or stale claim delivered in any case; no report reaches it against itself unchanged |

## Left out

Working memory and engine:

- `normalize` and actor pseudonyms are arbitrary functions: lower-casing, white space and collision freedom are not modelled. The faithfulness of stored text asks that the normalized text be well-formed UTF-8, as a Rust string is.
- The permit of a durable write is a request value; who may obtain one is the security runtime's business.
- Error message texts, the epistemic and link vocabulary version strings, and JSON forms.
- Variant selection, the metrics snapshot and its high-water marks, and the asset store behind `apply`: whether an asset may be promoted and whether the store took the change are inputs.
- AdaptationEngine.FeedbackIsLruList: a run with more touches than there are ticks is covered only touch by touch, by `SaturatedTouchKeepsListExactlyWhen`.
- AdaptationEngine.DecisionsAreContiguous: runs with more decisions than a 64-bit sequence counts are not covered, since the sequence then stays put.
- EngineDecisions.FeedbackCountsTheRun: a run in which assets are evicted or forgotten counts anew from there; only runs that forget nothing are counted through.
- Positive-to-total ratios are exact rationals here.

Ingress, budget, bus, scheduler, limiter:

- RawIngress.Pump.Run: counters are unbounded numbers, a reader fails only at the end of what it delivers, and an interrupted read that is retried is not distinguished.
- RawIngress.RecordsAfterRead: covers every bound but the largest one with inputs longer than a machine word, where `LineVerdictIsExact` says what happens.
- Budget.AmountsFitEveryWindow: asks for a limit below the largest 64-bit number, since the sum saturates there and nothing is ever refused; `AmountLimitFailsExactlyWhen` includes that case.
- Budget.Governor.TryAdmit: the 64-bit sum of a ledger wraps, as in a release build; a debug build stops there. Denial counts per reason, the snapshot and the degraded note are left out.
- A clone of a reservation shares its slot and returns it twice; runs are modelled without clones. The shared atomic counter is one shared object, and threads are not modelled.
- Scheduler.OnePerformanceAtATime: asks for interruptible plans and nonnegative durations and spacing, as the caller provides.
- Scheduler.DelayedRunsStayDisjoint: leaves out operator requests, which the caller never makes and the scheduler never spaces; `OnePerformanceAtATime` covers them.
- The scheduler's mark-everything-complete operation between replays.
- Times, tokens and ratios are real numbers, without rounding, infinities or not-a-number values.
- The size of a payload's JSON form is an input of the limiter.

Calendar and templates:

- Day numbers and seconds are unbounded integers; every 64-bit millisecond stamp is covered.
- TemplateSlots.BindFillsSlots: asks for templates whose text opens no brace beside its slots, names without braces and values that open none; for the rest `Render` says only that no group of braces is left.
- Template lookup, composition across a pack, and which characters count as white space or control are not modelled: the last two are arbitrary classes, with the byte length of a character as in UTF-8.

Evaluation:

- How a sidecar service's answers are gathered and which items are refused, and expectation violations; a report's refused items are a count.
- The synthetic padding of a claim's text, and the high-water and maximum figures of a report.
- Schema version strings, reason texts and the per-metric deltas of a comparison; the verdict is modelled.
- Floating-point rounding: the tolerance is kept and the ratios are real numbers.

Everything else in the repository: network, audio, model and avatar adapters, the other schedulers, the HTTP and operator surfaces, and process composition.
