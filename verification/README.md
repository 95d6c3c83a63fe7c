# Vector, modelled

A Dafny model of the parts of the Vector issue tracker whose behaviour is hard to
see from one function at a time, with proofs of what they promise. Functions and
datatypes stand for the pure code; classes and methods with loops stand for code
that changes state; concurrent transactions and workers are state machines whose
steps are single SQL statements, and what is proved about them holds in every
reachable state of every interleaving.

`dafny verify dfyconfig.toml` checks everything.

| part | modules |
|---|---|
| initiative hierarchy: the bounded two-way walk, its lock, runs of transactions | `Initiatives`, `InitiativeRuns`, `InitiativeStore` |
| recurrence calendar: Gregorian dates as ordinals, the bounded scan, stride arithmetic | `Calendar`, `Recurrence` |
| GraphQL cost limits: the memoised walk against the document written out | `Limits`, `LimitsTheorems`, `BudgetTheorems` |
| documents: the closed parser with its budget, the canonical text, the size bound | `Json`, `Documents`, `DocumentTheorems`, `ContentTheorems` |
| page cursors and keyset walks | `Base64`, `IsoTime`, `Cursors`, `Keyset`, `WireTheorems` |
| bulk writes and the history they leave | `Activity`, `BulkIssues`, `BulkRuns`, `BulkTheorems` |
| embedding queue and its workers | `EmbeddingQueue`, `EmbeddingRuns` |
| Slack outbox | `Outbox` |
| branch names and issue mentions | `Branches` |
| release notes | `Sorting`, `ReleaseNotes`, `NoteTheorems` |

`Wrappers`, `Collections`, `Text` and `Decimal` hold what several parts share.

Where the code and its comments disagree, the model follows the code:

- A stored cycle above the proposed parent is said to be refused
  (app/repositories/initiatives.py:545-552). A short cycle that leaves the moved
  row out is approved; `LoopedParentApprovedIff` says exactly when.
- A sweep that queues nothing is said to mean a fully indexed installation
  (app/repositories/embedding_jobs.py:60-61). Waiting and retired jobs queue
  nothing either; `ZeroMeansIndexedIff` says exactly when the reading is right.
- A re-queued issue is said not to be punished for its old text
  (app/repositories/embedding_jobs.py:79-86). A failure names the issue only, so a
  worker late with the old text is charged to the new one;
  `LateFailuresRetireNewText` shows it and `ChargedFairlyIff` says exactly when not.
- Counting attempts when they are claimed is said to keep a process that dies from
  retrying an event for ever (app/services/notifications.py:84-90). The claim has no
  bound; `ClaimedAnyNumberOfTimes` shows it and `ClaimedBeyondBoundIff` says exactly
  when a claim goes past the bound.
- A branch name is said to be detectable as its issue's
  (app/domain/github.py:521-525). A number of nineteen digits is not;
  `BranchNamesItsIssueIff` draws the line.
- A release note is said to be the same for the same set of entries
  (app/domain/releases.py:313-319). Two entries with one sort key and different
  titles show their order; `NoteIsDeterministicIff` says exactly when they do not.

Times are integers or reals with no assumption that clocks agree. `md5`, the
embedding model, the scheme of a link address, workflow-state types and the folded
title of a branch are parameters; where a digest matters, the lemma asks that no two
texts of the run at hand share one.

## Model

| member | source | states |
|---|---|---|
| Initiatives.UpRows | app/repositories/initiatives.py:561-572 | the upward half of the walk numbers its rows from the start depth, never past the bound |
| Initiatives.DownRows | app/repositories/initiatives.py:573-584 | every row of the downward half lies between its start depth and the bound |
| Initiatives.MaxDepth | app/repositories/initiatives.py:585-602 | the reported depth is the largest of the emitted rows, 0 when there are none |
| Initiatives.WalkIsExact | app/repositories/initiatives.py:513-602 | on every acyclic graph, however deep, the walk cut off in both directions approves a move exactly when the parent is not below the moved row and the deepest chain through the new edge stays within the limit |
| Initiatives.ApprovalIffForest | app/domain/initiatives.py:130-161 | on a stored forest within the depth limit, approval holds if and only if the graph after the move is again such a forest |
| Initiatives.ApprovalIsSafe | app/domain/initiatives.py:130-161 | from any acyclic graph of any depth, an approved move closes no cycle and leaves the whole moved subtree within the limit |
| Initiatives.ApprovalNeverClosesACycle | app/repositories/initiatives.py:533-560 | on every graph, cyclic ones included, an approved move closes no cycle that was not there before |
| Initiatives.LoopedParentApprovedIff | app/repositories/initiatives.py:545-552 | where a cycle is already stored above the proposed parent the write is not always refused: it is approved exactly when the moved row is off the loop and the loop, one edge and the longest chain below the moved row fit the limit |
| Initiatives.ShortCycleIsApproved | app/repositories/initiatives.py:545-552 | a stored two-row cycle that excludes the moved row is approved: the refusal described there does not happen |
| InitiativeRuns.ApprovalSurvives | app/repositories/initiatives.py:475-512 | an approval read under the lock stays valid while unlocked transactions create top-level rows, detach rows and delete rows |
| InitiativeRuns.StepKeepsInv | app/repositories/initiatives.py:273-338 | every statement of every transaction keeps the forest and each open approval that was read under the lock |
| InitiativeRuns.RunsStayForests | app/repositories/initiatives.py:442-663 | in every interleaving of re-parenting, creating, detaching and deleting transactions, committed or aborted, the stored graph stays a forest within the depth limit |
| InitiativeRuns.UnlockedMovesCloseACycle | app/repositories/initiatives.py:484-500 | without the lock two approvals can each be right and together close a cycle |
| InitiativeStore.InitiativeTable.Create | app/repositories/initiatives.py:273-338 | a new row is a root; the rest of the table is as it was |
| InitiativeStore.InitiativeTable.SetParent | app/services/initiatives.py:506-587 | the row is rewritten exactly when both rows exist, differ and the result is a forest within the limit; each refusal changes nothing and names the first rule broken, too deep exactly when a chain through the new edge passes the limit, with the longest chain as its number |
| InitiativeStore.InitiativeTable.ClearParent | app/services/initiatives.py:589-616 | the row becomes a root and nothing else moves |
| InitiativeStore.InitiativeTable.ClearChildren | app/repositories/initiatives.py:641-663 | exactly the direct children become roots |
| InitiativeStore.InitiativeTable.Delete | app/services/initiatives.py:449-504 | one row goes, its children become roots, every other parent is unchanged |
| InitiativeStore.CycleReported | app/domain/initiatives.py:130-158 | on a stored forest a cycle is reported exactly when the moved row lies on the proposed parent's chain |
| InitiativeStore.DepthReported | app/domain/initiatives.py:130-161 | on a stored forest the resulting depth is the length of the longest chain through the new edge |
| Calendar.FirstOfMonth | app/domain/recurrence.py:180-188 | counting months one after another agrees with the leap-year arithmetic of section 3.2.1 of ISO 8601:2004: no gap, no overlap |
| Calendar.DateOfOrdinal | app/domain/recurrence.py:208-230 | every valid date comes back from its ordinal |
| Calendar.OrdinalOfDate | app/domain/recurrence.py:208-230 | every day ordinal comes back from its date |
| Calendar.KnownSaturday | app/domain/recurrence.py:208-217 | 1 January 2000 is a Saturday |
| Calendar.KnownMonday | app/domain/recurrence.py:252-252 | 1 January 2024 is a Monday, ordinal 738,886 |
| Calendar.WeekdaysFollow | app/domain/recurrence.py:208-217 | each day has the weekday after the day before it, Monday after Sunday |
| Calendar.WeekdayIsRemainder | app/domain/recurrence.py:252-252 | a weekday is the distance from that Monday modulo seven |
| Calendar.MondayOf | app/domain/recurrence.py:208-218 | the Monday of a day is a Monday, at most six days before it |
| Recurrence.OccursOnByRemainder | app/domain/recurrence.py:232-270 | the schedule predicate is the source's own remainder conditions, branch by branch |
| Recurrence.WeeklyMeans | app/domain/recurrence.py:251-257 | a weekly rule names a day exactly when it is a listed number of days into every interval-th week, weeks counted from the Monday before the start, whole weeks from 1 January 2024 |
| Recurrence.OneDayPerStrideMonth | app/domain/recurrence.py:190-206 | in every stride month not cut off by the start exactly one day is named, the rule's day or the month's last: a clamp never drifts |
| Recurrence.StrideOccurs | app/domain/recurrence.py:54-62 | for every stored rule the next occurrence by stride arithmetic lies within the scan bound of 52 * 31 + 31 days |
| Recurrence.StrideSkipsNone | app/domain/recurrence.py:232-270 | no day between a day and its stride successor is named, for all three frequencies |
| Recurrence.NextDayIsFirst | app/domain/recurrence.py:272-303 | for any start, before or after the rule begins, the day found is the first named one after it |
| Recurrence.NextOccurrence | app/domain/recurrence.py:272-303 | the scan finds the first later named day; from the rule's start on the unreachable error is never raised, and otherwise it is raised exactly when that day lies beyond the bound |
| Recurrence.FirstOccurrence | app/domain/recurrence.py:305-317 | the first occurrence is the least named day of all |
| Recurrence.OccurrencesIncrease | app/domain/recurrence.py:272-317 | asking again and again gives strictly later days |
| Recurrence.EveryOccurrenceIsListed | app/domain/recurrence.py:232-317 | iterating lists every named day and no other |
| Limits.PageSizeMeans | app/graphql/limits.py:108-158 | the first page argument written is charged, at least 1 and 100 when it cannot be read; with none written the declared default of first, then of last; else one row |
| Limits.Walk.Measure | app/graphql/limits.py:251-351 | the loop over four accumulators, filling the memo in place, computes the functional walk and leaves its memo |
| Limits.Walk.MeasureNode | app/graphql/limits.py:251-351 | one node adds what the functional walk adds |
| Limits.Walk.MeasureSpread | app/graphql/limits.py:205-248 | a spread of a fragment being expanded, memoised, unknown or new leaves the functional walk's answer and memo |
| LimitsTheorems.WalkAllIsFrugal | app/graphql/limits.py:90-105 | every fragment body that is measured was neither memoised nor being expanded, is measured once and is memoised afterwards; visits are paid for by bodies started |
| LimitsTheorems.AuditIsLinear | app/graphql/limits.py:380-402 | on every document, cyclic ones included, no fragment body is measured twice over all operations, and visits never exceed the document's nodes |
| LimitsTheorems.AuditIsExact | app/graphql/limits.py:205-351 | when no fragment spreads itself, every operation is charged exactly what its selection set costs with all fragments written out in place |
| LimitsTheorems.SpreadsCostWhatInlineFragmentsCost | app/graphql/limits.py:225-248 | replacing any spreads by inline fragments with the same condition changes none of the four numbers |
| LimitsTheorems.WrappingCostsNothing | app/graphql/limits.py:325-345 | on every document, wrapping selections in an inline fragment of the type they are on changes none of the four numbers, nor the memo |
| LimitsTheorems.SpreadCostsItsBody | app/graphql/limits.py:325-345 | a named fragment on the type it is spread in costs what its selections cost in its place |
| LimitsTheorems.ComplexityIsLeafCharges | app/graphql/limits.py:306-348 | complexity is the sum over leaves of the product of the page sizes above them |
| BudgetTheorems.MeasuresMean | app/graphql/limits.py:251-351 | depth is the length of the longest chain of composite fields written one inside another, selections the number of fields reached and aliases the number of those that carry one; inline fragments add nothing and what describes the schema is not entered |
| BudgetTheorems.ListingCosts | app/graphql/limits.py:130-177 | a listing of leaves costs the rows of the field as declared on the type it is on, one row where the schema declares no such field |
| BudgetTheorems.ListingsMultiply | app/graphql/limits.py:160-202 | that type is the operation root, the type the field around it returns, or the one a fragment condition names |
| BudgetTheorems.LastDefinitionWins | app/graphql/limits.py:381-390 | of several fragments defined under one name the last one counts |
| BudgetTheorems.AcyclicIffRanked | app/graphql/limits.py:212-224 | no fragment spreads itself, directly or through others, exactly when fragments can be ranked so that each spreads only lower ones |
| LimitsTheorems.MemoPaysForItself | app/graphql/limits.py:90-105 | on a doubling chain of n fragments the unmemoised walk visits at least 2^n nodes, the memoised one at most 2n + 2 |
| LimitsTheorems.SilentIffWithinBudgets | app/graphql/limits.py:404-441 | nothing is reported exactly when every operation is within all four budgets |
| BudgetTheorems.ReportsMean | app/graphql/limits.py:404-441 | an error carries exactly the measure that passed its budget of 10 levels, 15 aliases, 2000 selections or complexity 1000, and every such measure is reported |
| BudgetTheorems.TooDeepIff | app/graphql/limits.py:377-417 | an acyclic document is refused for its depth exactly when one of its operations, written out, nests more than ten composite fields |
| LimitsTheorems.CheckDocument | app/graphql/limits.py:380-441 | the rule reports the audit's excesses, in linear work; on acyclic documents it is silent exactly when every written-out operation is within budget |
| Documents.Budget.Spend | app/domain/documents.py:516-535 | each call takes one from the budget, which refuses once it is below zero |
| Documents.ParseNode | app/domain/documents.py:607-674 | the walk with the shared mutable budget reads what the functional reader reads; budget plus nodes visited never changes |
| Documents.ParseNodes | app/domain/documents.py:599-604 | a list is read item by item against the same budget, and anything but a list is refused untouched |
| Documents.Parse | app/domain/documents.py:538-573 | the running parser is the functional one, from a budget of 10,000 |
| DocumentTheorems.MarkAccepted | app/domain/documents.py:705-727 | a mark is accepted exactly when it has only its own keys, a known type and exactly its allowed attribute |
| DocumentTheorems.NodeAccepted | app/domain/documents.py:607-674 | a node is accepted exactly when it and all below it obey the closed grammar, it fits under depth 20 and its node count fits the budget; the budget then pays one per node |
| DocumentTheorems.ParsedIsCanonical | app/domain/documents.py:538-674 | what comes back is the canonical form of what was put in: the last value of each key, empty attrs and marks left out, and nothing else changed |
| DocumentTheorems.ParseAcceptsExactly | app/domain/documents.py:538-573 | a payload is accepted exactly when it is a doc of the closed grammar, at most 20 deep, at most 10,000 nodes, whose canonical form has at most 200,000 characters |
| ContentTheorems.DocumentsAreExactly | app/domain/documents.py:57-98 | the parsed documents are exactly the trees with every value in its own bounds, every link an address of an allowed scheme, at most 20 levels, 10,000 nodes and 200,000 characters |
| ContentTheorems.LinksAreSafe | app/domain/documents.py:403-453 | every link anywhere in a parsed document has 1 to 2048 characters, none a control character, no white space at its ends, and the scheme http, https or mailto |
| ContentTheorems.LinkAnswers | app/domain/documents.py:705-763 | a link is taken exactly with such an address; any other is answered as a bad link, none as a missing attribute |
| ContentTheorems.AcceptedIsClosed | app/domain/documents.py:538-763 | an accepted payload has no unknown key at any level |
| DocumentTheorems.SameContent | app/domain/documents.py:538-573 | payloads equal as Python values parse alike, whatever their key order and repeated keys |
| DocumentTheorems.ParsedParsesToItself | app/domain/documents.py:538-596 | parsing is idempotent: the tree of a parsed document parses to that document |
| DocumentTheorems.RenderedDocumentReadsBack | app/repositories/documents.py:865-890 | the canonical text of every parsed document reads back as that document |
| WireTheorems.DocumentKeysAscend | app/domain/documents.py:576-597 | every object of the canonical text has its keys in order |
| DocumentTheorems.StoredDocumentReadsBack | app/repositories/documents.py:865-890 | so does every stored text with its keys in another order, blanks after separators, and either escaping |
| DocumentTheorems.StoredDocumentFits | app/domain/documents.py:57-74 | for every parsed document, in whatever key order and with a space after each separator, the stored text is under 1.5 times the canonical one and under 524,288 characters |
| Json.StringReads | app/domain/documents.py:576-596 | every text of Unicode scalar values reads back from its JSON string, with or without ASCII escaping |
| Json.LoadsReadsShow | app/domain/documents.py:576-596 | every value reads back from its text under any separators (section 7 of RFC 8259 for strings) |
| Json.SpacingCostsAtMostHalf | app/domain/documents.py:57-70 | a space after every comma and colon makes no value more than half as long again |
| Base64.DecodeEncode | app/domain/pagination.py:92-129 | every byte string reads back from its URL-safe Base64 (section 5 of RFC 4648) through a reader that skips foreign characters and stops at padding |
| Base64.BothAlphabetsRead | app/domain/pagination.py:104-113 | the reader takes the letters of both Base64 alphabets and no other character |
| Base64.Utf8ReadsIff | app/domain/pagination.py:104-113 | bytes read as a text exactly when they are its UTF-8 form: shortest forms, no surrogates |
| IsoTime.MomentReads | app/domain/pagination.py:205-218 | every datetime, with its microseconds and an offset down to microseconds, reads back from its isoformat text |
| IsoTime.DateReads | app/domain/pagination.py:205-218 | every date reads back from its isoformat text |
| Cursors.UuidReads | app/domain/pagination.py:146-183 | every UUID reads back from its text |
| WireTheorems.UuidTextIs | app/domain/pagination.py:146-183 | a UUID is written as 36 characters, lower-case hexadecimal with four hyphens |
| WireTheorems.CursorKeysAscend | app/domain/pagination.py:92-101 | the object in every kind of cursor has its keys in order |
| Cursors.PayloadReads | app/domain/pagination.py:92-129 | the wire form of any object of strings and nulls reads back |
| Cursors.KeysetRoundTrip | app/domain/pagination.py:146-183 | every aware instant and id comes back from its cursor |
| Cursors.NaiveInstantsAreRefused | app/domain/pagination.py:146-202 | an instant without an offset is neither put into a cursor nor taken from one |
| Cursors.DecodedKeysetIsAware | app/domain/pagination.py:162-202 | whatever text a client sends, a decoded instant has an offset |
| Cursors.KeysetIsInjective | app/domain/pagination.py:92-99 | two positions never share a cursor |
| Cursors.LabelRoundTrip | app/domain/pagination.py:310-339 | every label name, surrogate pairs and control characters included, comes back with its id |
| Cursors.LabelIsInjective | app/domain/pagination.py:310-339 | two label positions never share a cursor |
| Cursors.KeyReadsIff | app/domain/pagination.py:205-248 | a sort key survives its text exactly when it has the type its ordering compares, null keys always |
| Cursors.PositionRoundTripIff | app/domain/pagination.py:251-307 | an issue-list position comes back whole exactly when its key suits its ordering |
| Cursors.PositionIsInjective | app/domain/pagination.py:251-307 | two such positions never share a cursor |
| Cursors.DecodedKeySuits | app/domain/pagination.py:221-248 | whatever text a client sends, a decoded key has its ordering's type and instants have an offset |
| Cursors.CursorsDoNotMix | app/domain/pagination.py:92-129 | a cursor minted for one kind of list is refused by the other two decoders |
| Keyset.ListingIsUnique | app/repositories/activity.py:107-167 | the order by creation instant and id lists a set in one way only |
| Keyset.PageIsSlice | app/services/activity.py:652-670 | a page is the next slice of the listing, and promises more exactly when a row was left over |
| Keyset.PageShows | app/repositories/activity.py:107-167 | a page shows rows of its workspace and issue past the cursor, newest first, and leaves out only rows no newer than those shown |
| Keyset.ChangingTableIsPagedOnce | app/repositories/activity.py:107-167 | whatever is inserted and deleted between pages, no row is returned twice and a row present throughout is returned exactly once |
| Keyset.WalkShows | app/repositories/activity.py:107-167 | a whole walk over a changing table shows only rows of that workspace and issue, creation instants never increasing, and a row present throughout exactly once |
| Keyset.FixedTableIsListed | app/repositories/activity.py:107-167 | on an unchanging table the pages laid end to end are the whole listing; full pages are fewer than the rows, so the walk ends |
| Activity.DifferInText | app/domain/activity.py:122-166 | two values differ exactly when their recorded texts differ |
| Activity.ChangesLink | app/domain/activity.py:133-166 | one write records a field once if it moved and never otherwise |
| Activity.ChainMeans | app/domain/activity.py:133-166 | chained records start where the one before ended, never stand still and lead from the first value to the last |
| BulkIssues.PatchMovesWhatItNames | app/repositories/bulk.py:163-301 | a column moves exactly when the patch names it, and to what it says; a finished issue keeps the instant it was finished; repeating a patch changes only the time of the update |
| BulkIssues.RecordedLinks | app/services/bulk.py:420-471 | a batch records each field of each of its issues at most once, and nothing about any other issue |
| Collections.SameSizeIsSame | app/services/bulk.py:346-376 | comparing counts is enough: as many locked rows as distinct ids means every id was locked |
| BulkIssues.IssueStore.LockSnapshots | app/repositories/bulk.py:91-161 | exactly the live issues of the workspace among the ids come back, as they stand, and as many as ids exactly when every id is live there |
| BulkIssues.IssueStore.Rewrite | app/repositories/bulk.py:163-365 | exactly the live issues of the workspace among the ids are rewritten |
| BulkIssues.IssueStore.RecordChanges | app/services/activity.py:130-256 | the history grows by exactly the change rows |
| BulkIssues.IssueStore.RecordAll | app/services/bulk.py:420-471 | the history grows by the rows of every changed issue, each once, in the order they came back |
| BulkIssues.IssueStore.RunBatch | app/services/bulk.py:135-344 | a batch either changes every named issue and records it, or changes and records nothing; one id that is unknown, archived or foreign is enough to refuse it |
| BulkTheorems.VerdictMeans | app/services/bulk.py:135-344 | a batch is refused exactly when it names none or more than 100 issues, is malformed, names an issue not on the workspace board, archives one in triage or meets a conflict |
| BulkTheorems.BatchLeaves | app/repositories/bulk.py:217-380 | after an archive every named issue is archived and updated as of now with every other column as it was; after an update each column is what the patch says or what it was, and an issue first finished has its completion instant now |
| BulkTheorems.ArchivedIsGone | app/repositories/bulk.py:366-380 | an archived issue, and no other, has left the board |
| BulkTheorems.SoundRowsStaySound | app/domain/bulk.py:47-127 | no accepted batch leaves a priority outside 0 to 4, a negative estimate or a milestone without a project |
| BulkTheorems.ArchiveIsToldOnce | app/services/bulk.py:319-326 | the history tells of each archived issue once and of no other |
| BulkRuns.StepKeepsInv | app/repositories/bulk.py:103-124 | every step keeps locks exclusive and in id order, snapshots current under their locks, and every field's history complete |
| BulkRuns.HistoryReplays | app/domain/activity.py:133-166 | in every run of concurrent batches, aborted ones included, each field's records chain from its first value to its current one |
| BulkRuns.CompletionFollowsState | app/repositories/bulk.py:198-204 | an issue ever updated has a completion instant exactly when its state is terminal |
| BulkRuns.BatchIsAllOrNothing | app/domain/bulk.py:7-14 | a commit changes every named issue, all live and in the workspace, and no other issue; any other step changes nothing |
| BulkTheorems.CommitLeaves | app/repositories/bulk.py:163-380 | in every run of concurrent batches a commit leaves each named row archived, or each column as requested, as of the batch instant, and every other row as it was |
| BulkTheorems.CompletionMeans | app/repositories/bulk.py:262-272 | an issue ever updated has a completion instant exactly when its state is of type completed or canceled |
| BulkRuns.RunsNeverDeadlock | app/repositories/bulk.py:115-124 | in every reachable state with unfinished batches some batch can step |
| BulkRuns.ForwardIsProgress | app/repositories/bulk.py:115-124 | a batch's own step brings it closer to its end and leaves every other batch as it is |
| BulkRuns.RunsCanFinish | app/repositories/bulk.py:115-124 | from every reachable state finitely many of the batches' own steps bring all of them to their ends |
| EmbeddingQueue.DigestTellsText | app/domain/semantic_search.py:78-102 | digests of the two fields laid side by side tell two pairs of fields apart wherever the digest tells the four texts apart, as no separator could |
| EmbeddingQueue.TextShowsBoth | app/domain/semantic_search.py:78-101 | what is embedded is the title, then, when there is a description, exactly one blank line and all of it |
| EmbeddingQueue.TextTellsDescriptions | app/domain/semantic_search.py:78-101 | for one title two descriptions give the same text only if both are blank or they are equal |
| EmbeddingQueue.RetryDelayIsBounded | app/domain/embedding_jobs.py:56-71 | the wait doubles from 30 seconds, never exceeds an hour and reaches it exactly from the eighth failure on |
| EmbeddingQueue.SomeSweep | app/repositories/embedding_jobs.py:112-131 | there is always a sweep to make: the newest uncovered issues, up to the limit |
| EmbeddingQueue.SomeClaim | app/repositories/embedding_jobs.py:207-216 | there is always a claim to make: the rows due longest that no other claim holds, up to the limit |
| EmbeddingQueue.UncoveredMeans | app/repositories/embedding_jobs.py:110-135 | a sweep is about live issues with no vector of the model for their current text and no job about it |
| EmbeddingQueue.NewestAndSoonestGoFirst | app/repositories/embedding_jobs.py:112-216 | a full sweep passes an issue over only for newer ones, a full claim a due job only for ones due sooner, and no claim takes a job held by another or not due |
| EmbeddingQueue.LeasedNotDue | app/repositories/embedding_jobs.py:174-184 | a claimed job is due to nobody until its lease is over |
| EmbeddingQueue.SweepProgresses | app/repositories/embedding_jobs.py:72-92 | every sweep covers as many issues as its limit allows, whatever retired rows lie in the way, and resets no other job |
| EmbeddingQueue.ZeroQueuedIff | app/repositories/embedding_jobs.py:60-61 | a sweep queues nothing exactly when every live issue is fresh or has a job about its current text |
| EmbeddingQueue.ZeroMeansIndexedIff | app/repositories/embedding_jobs.py:60-61 | queuing nothing means fully indexed exactly when no live issue that is not fresh has a job about its current text, waiting or retired; what the counts show as pending are then just such jobs |
| EmbeddingQueue.ZeroWithoutAnIndex | app/repositories/embedding_jobs.py:60-61 | one retired job and nothing indexed: the sweep still queues nothing |
| EmbeddingRuns.ZeroQueuedInARun | app/repositories/embedding_jobs.py:60-61 | a run that gets there: swept once, claimed and failed five times, after which every sweep queues nothing and nothing is indexed |
| EmbeddingQueue.CountsPartition | app/repositories/embedding_jobs.py:340-430 | indexed, pending and failed add up to the live issues of the workspace |
| EmbeddingQueue.CountedWhere | app/repositories/embedding_jobs.py:340-430 | a live issue without a current vector counts as failed exactly when the job about its current text is retired, and as pending otherwise |
| EmbeddingQueue.SweptIsPending | app/repositories/embedding_jobs.py:340-430 | an issue just swept is counted as pending and not as failed |
| EmbeddingQueue.RetiredIsFailed | app/repositories/embedding_jobs.py:340-430 | an issue whose current job is retired is counted as failed |
| EmbeddingQueue.EmbeddingTables.EnqueueStale | app/repositories/embedding_jobs.py:51-154 | the newest uncovered issues up to the limit get fresh jobs, every other row is kept; the count is the smaller of limit and backlog |
| EmbeddingQueue.EmbeddingTables.Claim | app/repositories/embedding_jobs.py:156-250 | the rows due longest that no other claim holds, as many as there are up to the limit, are leased and come back with the live text and the attempts so far |
| EmbeddingQueue.EmbeddingTables.Upsert | app/repositories/embeddings.py:39-104 | the vector is written exactly when the issue is live and still has the embedded text, and is then fresh |
| EmbeddingQueue.EmbeddingTables.Complete | app/repositories/embedding_jobs.py:252-279 | the job is gone and every other job is as it was |
| EmbeddingQueue.EmbeddingTables.Fail | app/repositories/embedding_jobs.py:281-338 | the job counts one failure more, is retired exactly when that reaches the bound and is not due before its wait otherwise; its error is the message cut at 500 characters, none when empty; no other job moves |
| EmbeddingQueue.EmbeddingTables.Store | app/services/embedding_jobs.py:272-333 | a vector is offered and the job forgotten even if it is declined; a failure backs off by the row's own count |
| EmbeddingRuns.StepKeepsInv | app/repositories/embeddings.py:57-70 | no statement can leave a vector under a digest of a text it does not embed |
| EmbeddingRuns.FreshIsCurrent | app/repositories/embeddings.py:265-280 | over every run of edits, archives, deletions, sweeps, late, crashed or duplicated workers in which no two titles or descriptions share a digest, a vector a search may read is the embedding of the issue's current text under the asking model |
| EmbeddingRuns.SomeVectorIsFresh | app/repositories/embeddings.py:39-104 | such a run with a fresh vector: the text edited while a worker held it is declined, the new one accepted |
| EmbeddingRuns.AttemptsCountFailures | app/repositories/embedding_jobs.py:281-338 | a job's attempts are its failures since it was last queued |
| EmbeddingRuns.RetiredAfterFailures | app/repositories/embedding_jobs.py:281-338 | a job is retired exactly when five failures are counted since it was last queued, and is never claimed then |
| EmbeddingRuns.ChargedFairlyIff | app/repositories/embedding_jobs.py:79-86 | a job is charged with the failures of its own text alone exactly when no worker that had read another text failed since it was queued |
| EmbeddingRuns.FailKeepsChargeFairIff | app/repositories/embedding_jobs.py:79-86 | a failure keeps the charge fair exactly when its worker had read the text of the job it lands on |
| EmbeddingRuns.LateFailuresRetireNewText | app/services/embedding_jobs.py:272-310 | a run in which five workers whose leases lapsed fail after an edit, once for each claim, and retire the new text's job, which nobody tried |
| EmbeddingRuns.LeaseIsKept | app/repositories/embedding_jobs.py:174-184 | a claimed job is claimed again only after its lease, whatever the clocks do, unless it failed, was completed or was queued anew |
| EmbeddingRuns.CurrentJobIsNotSwept | app/repositories/embedding_jobs.py:72-92 | no sweep touches a job about the issue's current text |
| Outbox.EventTable.Record | app/repositories/events.py:83-106 | a fact reported again leaves the table alone; a new one adds one event, due from now on, and nothing else |
| Outbox.EventTable.ClaimNext | app/repositories/events.py:330-394 | the claim takes the pending row due longest that no other claim holds, counts the attempt and pushes the next one out by as many delays, up to the step bound; none when there is none |
| Outbox.EventTable.MarkDelivered | app/repositories/events.py:396-422 | the event is delivered, never due again, its message and attempts kept, and no other event moves |
| Outbox.EventTable.MarkNotDelivered | app/repositories/events.py:424-458 | the event is closed with its reason and never due again; a state that closes nothing is refused and changes nothing; no other event moves |
| Outbox.EventTable.Finish | app/services/notifications.py:234-272 | the write after an attempt delivers the event, closes it as refused or as failed with the reason given, or leaves it as it was for an unreachable Slack with attempts left |
| Outbox.RetriesArePaced | app/repositories/events.py:365-392 | the n-th claim of an event comes no sooner after its first than the delay times the sum of min(i, steps), however many drainers run or die |
| Outbox.ClosedIsNeverClaimed | app/repositories/events.py:365-392 | a delivered, failed or skipped event is never taken again |
| Outbox.FirstReportStands | app/repositories/events.py:74-82 | the message stays what it was when first written and no attempt is forgotten |
| Outbox.PendingUntilClosed | app/services/notifications.py:376-410 | an event is pending exactly until its first closing answer: any but an unreachable Slack with attempts left |
| Outbox.ClaimedBeyondBoundIff | app/services/notifications.py:84-90 | once five attempts are spent another claim can be taken exactly when the event is due again and no answer has closed it |
| Outbox.AttemptsBeyondBoundWereLost | app/services/notifications.py:84-90 | every answer written before a later claim was an unreachable Slack on an attempt before the last allowed one |
| Outbox.ClaimedAnyNumberOfTimes | app/services/notifications.py:84-90 | for every n there is a run in which drainers that die claim one event n times |
| Outbox.RetriesAreBounded | app/services/notifications.py:376-410 | when every claim of an event is answered before its next, it is tried at most five times |
| Branches.IssueIdentifiers | app/domain/github.py:458-483 | the scan with its early break yields the first twenty distinct mentions of the first 10,000 characters |
| Branches.IdentifiersMean | app/domain/github.py:458-483 | no mention comes twice, each is really there, the first is the text's first, and below twenty none is missing |
| Branches.MatchesIff | app/domain/github.py:436-438 | a mention stands exactly where 1 to 10 letters and digits, a letter first, a hyphen and 1 to 18 digits stand whole |
| Branches.InsideNoMatch | app/domain/github.py:436-438 | no mention begins inside another, so skipping to a match's end loses none |
| Branches.HyphenateKeeps | app/domain/github.py:495-495 | collapsing punctuation loses, adds and moves no letter or digit |
| Branches.BranchNameSpellsTitle | app/domain/github.py:507-546 | the name spells the identifier and then the title, all of it if it fits |
| Branches.BranchNameIsSafe | app/domain/github.py:507-546 | the name has 1 to 60 characters of a-z, 0-9 and single hyphens, begins with a letter and does not end in a hyphen |
| Branches.BranchNamesItsIssueIff | app/domain/github.py:521-525 | the first mention found in an issue's branch name is that issue exactly when its number has at most 18 digits |
| Branches.BranchNamesDiffer | app/domain/github.py:498-503 | two issues never share a branch name, however alike their titles |
| Sorting.SortSorts | app/domain/releases.py:342-345 | the sort orders its entries and keeps each as often as it was given |
| Sorting.SortIsStable | app/domain/releases.py:342-346 | entries with equal keys keep the order they came in |
| ReleaseNotes.OneLineIsOne | app/domain/releases.py:259-286 | any title becomes at most 120 characters without a line break |
| ReleaseNotes.OneLineKeepsWords | app/domain/releases.py:259-286 | flattening loses only white space, and nothing a second time |
| NoteTheorems.LongTitleIsCut | app/domain/releases.py:280-286 | a longer title keeps its first 117 characters and ends in three dots |
| ReleaseNotes.AppendSection | app/domain/releases.py:349-361 | a section is its counted heading, one line per entry and a blank line, or nothing |
| ReleaseNotes.RenderReleaseNotes | app/domain/releases.py:299-373 | the list grown by append and extend, joined, is the specified note |
| ReleaseNotes.NoTitleForgesALine | app/domain/releases.py:262-272 | read line by line, a note is exactly the lines put into it, as many as its counts dictate, whatever the titles |
| NoteTheorems.SortedAscend | app/domain/releases.py:342-345 | issues ascend by team and number, pull requests by repository and number, each entry as often as given |
| NoteTheorems.EntriesAreShown | app/domain/releases.py:349-361 | under its counted heading each entry has one line, in that order: its identifier and its title flattened |
| NoteTheorems.FrameIsShown | app/domain/releases.py:289-373 | the release name comes first and the range last, from the seven-character hash before to this one, with a line for an empty or a truncated range |
| ReleaseNotes.NoteFits | app/domain/releases.py:233-240 | with at most 200 entries of each kind and schema-valid identifiers the note has at most 100,000 characters |
| ReleaseNotes.NoteIsDeterministicIff | app/domain/releases.py:313-319 | the note is the same for every arrangement of its entries exactly when entries with one sort key read the same |
| ReleaseNotes.DistinctKeysAgree | app/domain/releases.py:313-319 | which holds whenever the sort keys are distinct |

## Left out

- Documents: content_matches, the revision boundary, restore and the comment tables; the parser and what it stores are modelled.
- Documents: lone surrogates. A Dafny character is a Unicode scalar value, so a JSON escape for half a pair is refused here and accepted by Python.
- Documents: the exact text of a JSON number with a fraction or an exponent; no accepted document holds one.
- Cursors: UUID(), int(), date.fromisoformat() and datetime.fromisoformat() accept more spellings than the ones this server writes (braces, underscores, basic formats, a `Z` offset); the model reads only what is written, UUID digits in either case and signed integers.
- Cursors: Python compares aware datetimes by instant; here a datetime is its fields and offset, which is finer.
- Keyset: the other paged lists, and the null-key predicate of the issue list; one ordering by instant and id is modelled.
- BulkIssues.IssueStore.RunBatch: attaching and detaching labels and their refusals, so a request has to change a column; a foreign key is one flag that refuses the whole statement.
- BulkIssues: notifications, subscriptions and emitted events; workflow states keep their type.
- BulkRuns: single-issue edits, which lock one row the same way, are not separate steps.
- InitiativeStore: names, health, projects and updates of an initiative, and more than one workspace; the parent column of one workspace is modelled.
- EmbeddingQueue: the batch call and its one-by-one fallback, pauses between passes, vector distance and ranking.
- Outbox: routing, message text, and which facts become events; an event is written or already there.
- Branches: NFKD folding; every folded text is covered.
- ReleaseNotes: a carriage return followed by a line feed counts as one break in Python and two in SplitLines; no note contains a carriage return.
- Recurrence: due dates, which add a number of days, and the stored rows of a rule.
- Saved-view filters, estimates, analytics sums, release states and enum vocabularies: they would add only easy members.
- Configuration, HTTP, authentication, GraphQL schema and resolvers, connection pools and the front end: plumbing around what is modelled.
