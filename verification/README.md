# Barbaro, modelled and proved

Barbaro lets coding agents that work side by side tell each other what they do. Hook processes keep a
few files per project: append-only feeds of turns, a read cursor and an activity lease per session, a
consent record, and lock directories between them. This project models the protocols on those files in
Dafny and proves what they are for: that no peer's turn is lost, that nothing counts as read that was
not delivered, that interrupted work can be run again, that bounded views tell the truth about what
they leave out.

The parts, and where they live:

- **The read ledger.** `ReadState` (byte ranges and coverage), `Feeds` and `NudgeCursor` (feeds, scans,
  cursors), `PrefixCollapse`, `Announcements` (claims and rollbacks), `ReadDelivery` and `DeliveryLaws`
  (reserve, stage, commit, discard), `HookTransactions` (the cursor file as a class with a method per
  hook). `LedgerRuns` lets feeds grow and hooks run in any order; `NoTurnLost`, `AnnouncementLedger` and
  `DeliveryWitnesses` hold the results about all runs.
- **Line files.** `JsonlLines` is plain LF-splitting, the reference; `JsonlReader` and `Checkpoint` are
  the incremental reader and its resume points, `JsonlStore` and `DerivedOutput` the append-only store.
- **Bounded views.** `Decimal`, `Budget`, `Unicode`, `RecordPage`, `Projection`, `ContextProjection`,
  `FeedScan` and `IngestJournal`.
- **Canonical encodings.** `JsText` (JavaScript strings), `StableJson` and `CanonicalText` (the text of a
  value, and that it says exactly what the value means), `JsonEncoder` (the encoder as it runs over
  objects that refer to one another), `TypedId`.
- **Leases, memberships, locks.** `ActiveLease`, `LeaseHooks`, `ClaudeHooks`, `StopTransaction`,
  `Membership` and `DirectoryLock`.

Conventions. Times are integers. A SHA-256 digest is idealised as injective: it stands for the text that
was hashed. Bytes are integers below 256, strings of JavaScript are sequences of UTF-16 code units where
that matters. What the source reads from clocks, randomness, the file system or a trace is a parameter.
Counters that the source holds to safe integers are held to the same bound, save those named at the end.

## What turned out otherwise

- **Collapsing a prefix** keeps the meaning of a cursor only if no feed repeats, behind its first gap, a
  record that was settled before it. With distinct records per feed, which is what ingestion produces,
  the condition holds. `PrefixCollapse.CollapsePreservesMeaning` is an if-and-only-if, and
  `PrefixCollapse.LateTwinIsReportedAgain` the counterexample.
- **Healing a torn tail** can make a feed shorter than a saved checkpoint saw it. Until it has grown past
  that size, a scan begins at its first line (`PrefixCollapse.ResumesIffNotShortened`) and reports as unread
  what had been collapsed (`PrefixCollapse.ShortenedFeedIsReportedAgain`). No turn is lost by it: the runs of
  `NoTurnLost` include healing.
- **The checkpoint anchor** covers the last 64 bytes before the offset, so it excludes a rewritten prefix
  exactly for offsets up to 64 (`Checkpoint.AnchorProvesShortPrefixes`).
- **Identifier inputs** are injective on Unicode strings; a string with a lone surrogate is encoded like
  one with U+FFFD (`TypedId.LoneSurrogatePartsCollide`).
- **The directory lock** looks again at a stale owner before it removes the lock, but not at a directory
  without an owner. Two contenders can then both come to operate, although every process is prompt
  (`DirectoryLock.OwnerlessRecoveryBreaksExclusion`). `DirectoryLock.ExclusionIff` is the exact condition:
  no removal may meet a live process's lock. `DirectoryLock.UndisturbedIsHarmless` names runs that meet it.
- **The lease fence** is for a day. `ActiveLease.FenceIff` is the exact condition: the lease that a delayed
  writer has read must not be a tombstone that had expired when the day began. Such a tombstone can be
  reaped, and revisions start again (`ActiveLease.ReapingRestartsRevisions`). The operations of the day
  write no tombstone that has expired by its beginning, which a late snapshot could: that one can be
  reaped within the day, too.

## Model

| member | source | states |
|---|---|---|
| `NoTurnLost.NoUnreadTurnIsLost` | src/nudge/unread.ts:413-513 | After any sequence of growth, claims, rollbacks, reservations, stagings, commits and discards that began without a cursor file, every in-scope peer turn of a feed that a scan reads is either among the unread turns it reports, or had every byte of its record or attention field delivered by earlier committed reads |
| `NoTurnLost.RunsStaySafe` | src/nudge/unread.ts:158-291 | Over every run: what lies before each saved checkpoint is delivered, and every covered byte was shown by a committed page of that very record and field |
| `NoTurnLost.StepKeepsSafe` | src/nudge/unread.ts:364-411 | Each hook transaction and each growth of the feeds keeps that invariant |
| `NoTurnLost.AcknowledgedIsDelivered` | src/nudge/read-state.ts:69-92 | A record that coverage acknowledges was delivered in full, in its record field or in its attention field |
| `NoTurnLost.ScanSafe` | src/nudge/unread.ts:413-505 | The checkpoints a scan saves lie behind delivered turns only |
| `NoTurnLost.VerifiedDeliveryAttests` | src/nudge/read-commit.ts:178-223 | Coverage that passes the delivery check names bytes that the delivered text shows, of the record as the feed has it |
| `NoTurnLost.PreviewSafe` | src/nudge/read-preview.ts:22-58 | Merging delivered coverage and collapsing again leaves only acknowledgements of delivered bytes |
| `PrefixCollapse.CollapsePreservesMeaning` | src/nudge/unread.ts:508-513 | A rescan from the collapsed cursor reports the same unread count, first and latest turn as before if and only if no feed repeats, after its first gap, a record that was settled before it |
| `PrefixCollapse.DistinctRecordsHaveNoTwins` | src/nudge/unread.ts:603-610 | Feeds whose record keys are distinct meet that condition |
| `PrefixCollapse.LateTwinIsReportedAgain` | src/nudge/unread.ts:508-513 | A concrete feed in which a record is repeated behind a gap: one turn is unread before collapsing, two after it |
| `PrefixCollapse.CollapseIdempotent` | src/nudge/unread.ts:508-513 | Collapsing a second time changes nothing, repeated records or not |
| `PrefixCollapse.OffsetNeverMovesBack` | src/nudge/unread.ts:603-610 | On append-only feeds a saved offset never moves back |
| `PrefixCollapse.ResumesIffNotShortened` | src/core/checkpoint.ts:162-182 | After healing and further lines, a scan goes on at the checkpoint saved before if and only if the file is no shorter than it was then; otherwise it begins at the first line |
| `PrefixCollapse.ShortenedFeedIsReportedAgain` | src/nudge/unread.ts:508-513 | A feed that is shorter than the last scan saw it is scanned from its first line, and every turn in scope that the scan had settled between its start and its gap is unread again |
| `AnnouncementLedger.AnnouncementsInOrder` | src/nudge/unread.ts:158-291 | In every run: per cursor revision at most one Stop claim stands that was not rolled back, and the counts of informational announcements strictly increase, Stop rollbacks in between or not |
| `AnnouncementLedger.RunsKeepLedger` | src/nudge/unread.ts:158-361 | The invariant behind it over every run: the high-water mark bounds every announced count and every outstanding receipt can still be honoured |
| `DeliveryWitnesses.CoverageGrowsOnlyByCommit` | src/nudge/read-commit.ts:84-148 | If a step of any run makes a byte covered that was not, the step is a commit that consumes a live reservation whose staged output is the model text, and that text delivers the byte |
| `DeliveryWitnesses.RevisionRisesOnlyByCommit` | src/nudge/read-commit.ts:127-145 | Within one membership the revision changes only by such a commit |
| `DeliveryWitnesses.CommitWitness` | src/nudge/read-commit.ts:88-125 | The commit of a run that succeeds consumes exactly one pending reservation, whose nonce was not spent before |
| `DeliveryWitnesses.OthersHoldNoMore` | src/nudge/unread.ts:158-361 | No claim, rollback, reservation, staging or discard adds a covered byte |
| `LedgerRuns.RunsStayWellFormed` | src/nudge/store.ts:236-282 | Over every run: the stored cursor satisfies the strict parser, a nonce is committed at most once, and no pending nonce is a spent one |
| `LedgerRuns.StepKeepsWellFormed` | src/nudge/store.ts:236-448 | Each event keeps that |
| `LedgerRuns.GenerationsOnlyGrow` | src/nudge/unread.ts:637-813 | Over every run, through changes of membership too, the cursor file stays, and its revision and its Claude generation only grow |
| `Announcements.ClaimKeepsValid` | src/nudge/unread.ts:158-291 | Whatever a claim stores satisfies the parser's invariants; membership, revision and reservations do not move, and Claude generations only grow |
| `Announcements.RollbackUndoesClaim` | src/nudge/unread.ts:308-361 | An immediate rollback restores the ledger and the latch to what they were before the claim |
| `Announcements.RollbackYieldsToNewerRevision` | src/nudge/unread.ts:308-361 | A rollback after a newer revision or another membership changes nothing |
| `Announcements.InformationalClaimRaises` | src/nudge/unread.ts:231-263 | An informational claim is made exactly when the count exceeds the high-water mark, which it raises to that count |
| `Announcements.PreparedValid` | src/nudge/unread.ts:785-813 | Establishing the turn and seeding a legacy ledger keep the cursor valid and touch nothing but generation, suppression and delivery |
| `Announcements.DecisionValid` | src/nudge/unread.ts:196-291 | The decision itself keeps the cursor valid, its membership, its revision and its reservations |
| `NudgeCursor.VirtualCursorValid` | src/nudge/unread.ts:637-716 | Virtual creation, reset and both migrations give only cursors that the parser accepts; a new membership takes the next revision |
| `NudgeCursor.ScanUnread` | src/nudge/unread.ts:413-505 | The loop over the listed feeds equals the fold of the single-feed scans, in which a feed is unavailable or counted with its first and latest unread turn |
| `NudgeCursor.VisitedCheckpoint` | src/nudge/unread.ts:457-465 | A scanned feed is saved at its first gap, unless nothing is acknowledged there and nothing was saved |
| `NudgeCursor.UnvisitedKeepsCheckpoint` | src/nudge/unread.ts:425-453 | A feed that was not scanned keeps its checkpoint |
| `NudgeCursor.CollapsedKeys` | src/nudge/unread.ts:508-513 | What a collapse removes are the settled records before the gaps of the scanned feeds |
| `Feeds.ScanFeed` | src/nudge/unread.ts:527-635 | The scan loop: unread turns from the resume point on in order, the first gap, the keys settled before it, and failure on an oversized line before anything is saved |
| `Feeds.GapFound` | src/nudge/unread.ts:599-610 | The gap is the first unread line: every line before it is settled |
| `Feeds.FirstUnreadAtGap` | src/nudge/unread.ts:599-602 | The first unread turn of a scan stands at the gap |
| `Feeds.OffsetMonotone` | src/nudge/unread.ts:603-605 | A later line has no smaller byte offset |
| `ReadState.MergeReadRanges` | src/nudge/read-state.ts:94-117 | The merging loop gives the normal form of its input, or refuses more ranges than are stored |
| `ReadState.MergeCoversUnion` | src/nudge/read-state.ts:94-117 | The merged ranges cover exactly the bytes of the given ones, sorted and with real gaps |
| `ReadState.NormalFormUnique` | src/nudge/read-state.ts:94-117 | There is only one sorted list of non-touching ranges for a set of bytes |
| `ReadState.MergeIsCanonical` | src/nudge/read-state.ts:94-117 | Two inputs of non-empty ranges merge to the same list if and only if they cover the same bytes |
| `ReadState.MergeIdempotent` | src/nudge/read-state.ts:94-117 | Merging a merged list changes nothing |
| `ReadState.CompleteIffEveryByte` | src/nudge/read-state.ts:88-92 | Coverage tests complete exactly when every byte of the field is covered |
| `ReadState.MergeCoverage` | src/nudge/read-state.ts:132-154 | The merging loop over delivered entries equals the fold that keeps one entry per record and field, and fails on another version or beyond its capacity |
| `ReadState.MergeAllSound` | src/nudge/read-state.ts:132-154 | Merging keeps entries well formed, and a byte held afterwards was held before or delivered, for that very version |
| `ReadState.MergeAllHolds` | src/nudge/read-state.ts:132-154 | A byte is held after merging if and only if it was delivered for a version that no later entry supersedes, or was held before for a version that none supersedes: of the last version of a field no byte is lost |
| `ReadState.MergeAllChangesOnNews` | src/nudge/read-state.ts:132-154 | Merging reports a change exactly when a delivered entry brings a byte or an entry that was not held |
| `HookTransactions.HookCursorStore.ClaimHookNudge` | src/nudge/unread.ts:158-291 | The method on the cursor file leaves the file and the answer that the claim's decision function gives |
| `HookTransactions.HookCursorStore.RollbackStopClaim` | src/nudge/unread.ts:308-361 | Likewise the rollback |
| `HookTransactions.HookCursorStore.ReserveHookRead` | src/nudge/read-invocation.ts:61-93 | Likewise the reservation, with its refusals in order |
| `HookTransactions.HookCursorStore.StageHookReadOutput` | src/nudge/read-commit.ts:50-70 | Likewise staging: a second output is accepted only if it is the same |
| `HookTransactions.HookCursorStore.PreviewReadCoverage` | src/nudge/read-preview.ts:22-46 | The two scans and the merge give the coverage a commit would leave |
| `HookTransactions.HookCursorStore.CommitHookReadOutput` | src/nudge/read-commit.ts:84-148 | Likewise the commit: both witnesses, then coverage, then the revision |
| `HookTransactions.HookCursorStore.DiscardHookRead` | src/nudge/read-commit.ts:151-162 | Likewise forgetting the reservation of a failed call |
| `DeliveryLaws.ReserveKeepsValid` | src/nudge/read-invocation.ts:61-93 | A reservation keeps the cursor valid: at most 32 pending, with distinct nonces and tool ids |
| `DeliveryLaws.StageKeepsValid` | src/nudge/read-commit.ts:50-70 | Staging keeps the cursor valid and changes one reservation's output only |
| `DeliveryLaws.DiscardKeepsValid` | src/nudge/read-commit.ts:151-162 | Discarding keeps the cursor valid and only removes reservations |
| `DeliveryLaws.PreviewMeans` | src/nudge/read-preview.ts:22-58 | The previewed cursor holds a byte only if it did before or an added entry delivers it, and it stays valid |
| `DeliveryLaws.WithoutConsumesOne` | src/nudge/read-commit.ts:106-119 | Consuming a nonce removes that reservation and keeps all others in order |
| `DeliveryLaws.CommitConsumesWitness` | src/nudge/read-commit.ts:84-148 | A commit that stores anything consumed one witness; the revision rises by one exactly when it reports that it advanced, and a refused one adds nothing |
| `DeliveryLaws.CommitAdvancesOnNews` | src/nudge/read-commit.ts:110-145 | A byte newly covered after a commit was delivered by it and advances the revision |
| `JsonlReader.IterateJsonlForward` | src/core/jsonl-reader.ts:178-331 | For every way the bytes come in chunks, chunks that run past the pinned end included, the carry-over loop gives the events, offsets, line numbers, counts and line-limit failure of plain LF-splitting of the bytes before the end; only the length of the unfinished line may reach beyond, and a line that crosses the end may strike the limit there |
| `JsonlReader.LimitHit` | src/core/jsonl-reader.ts:203-286 | A line that outgrows the limit fails with the same line number and offset whether it is found while carrying or at its end |
| `JsonlReader.ReadCompletes` | src/core/jsonl-reader.ts:292-331 | A read without such a line ends at the tail, with the checkpoint after the last LF |
| `JsonlLines.SplitRoundTrip` | src/core/jsonl-reader.ts:203-275 | Lines with their LFs and the tail are the bytes |
| `JsonlLines.SplitUnique` | src/core/jsonl-reader.ts:203-275 | No other division into LF-free lines and tail gives the same bytes |
| `JsonlLines.SplitConcat` | src/core/jsonl-reader.ts:203-286 | Splitting more bytes only continues the tail |
| `Checkpoint.ResumeContinues` | src/core/checkpoint.ts:77-193 | Reading on from a checkpoint, tail included, and the first read together are one read, limit failures and all |
| `Checkpoint.ResumedReadIsOneRead` | src/core/checkpoint.ts:114-193 | A file that only grew resumes at its checkpoint and gives the same lines, numbers and offsets as one read |
| `Checkpoint.ReplacedFileRestarts` | src/core/checkpoint.ts:162-182 | A read goes on at a checkpoint exactly when the file has the same identity, is no shorter than it was and has the same last 64 bytes before the offset; every other file is read from its beginning |
| `Checkpoint.AnchorProvesShortPrefixes` | src/core/checkpoint.ts:243-266 | The anchor excludes a rewritten prefix if and only if the offset is at most 64 bytes |
| `JsonlReader.CheckpointAtTail` | src/core/checkpoint.ts:77-112 | A checkpoint stands right after the last LF |
| `JsonlStore.CrashRetryConverges` | src/output/jsonl-store.ts:59-121 | Whatever an append left that stopped before healing or after any prefix of its bytes, healing and running the batch again gives the bytes of an uninterrupted run |
| `JsonlStore.AppendInParts` | src/output/jsonl-store.ts:59-121 | Appending `a` and then `a + b` is appending `a + b` once |
| `JsonlStore.AppendKeepsStoredAndUnique` | src/output/jsonl-store.ts:59-121 | An append changes no stored line and keeps identifiers unique |
| `JsonlStore.HealMeans` | src/output/jsonl-store.ts:226-250 | Healing keeps exactly the complete lines |
| `JsonlStore.TornLines` | src/output/jsonl-store.ts:252-268 | Any prefix of the written bytes holds the first of the new lines, and a torn rest without LF |
| `JsonlStore.WrittenAreSkipped` | src/output/jsonl-store.ts:78-106 | Once the first new records are stored, the same batch has exactly the others left |
| `JsonlStore.KnownAfterWriting` | src/output/jsonl-store.ts:180-224 | After the first m new records have been written, the stored lines are the healed ones and theirs, healing changes nothing, and the index knows the earlier identifiers and those written |
| `DerivedOutput.DerivedFile.HealPartialTail` | src/output/jsonl-store.ts:226-250 | The backward search by chunks truncates after the last LF |
| `DerivedOutput.DerivedFile.ReadExistingRecords` | src/output/jsonl-store.ts:180-224 | The index holds the first version of each identifier, and counts and reports later different ones |
| `DerivedOutput.DerivedFile.AppendToHandle` | src/output/jsonl-store.ts:252-268 | Short writes add up to the data, or a part of it is written and the attempt fails |
| `DerivedOutput.DerivedFile.AppendUnique` | src/output/jsonl-store.ts:59-121 | The whole append: the file that the specification gives, appended + skipped equal to the batch size, the conflicts of stored and batched records in order, an empty identifier refused after healing with nothing appended, and on a failed write a state that a retry repairs |
| `DerivedOutput.VersionsAreFirst` | src/output/jsonl-store.ts:209-222 | The version that stands for an identifier is its first record's |
| `DerivedOutput.ConflictMeans` | src/output/jsonl-store.ts:82-103 | One record more is one conflict more exactly when its identifier's first version reads otherwise |
| `Budget.Converges` | src/reader/budget.ts:68-96 | The report reached from zero in three updates is exact, for every size |
| `Budget.MeasuredIsLeast` | src/reader/budget.ts:68-96 | It is the least report that is exact |
| `Budget.MeasuredMonotone` | src/reader/budget.ts:98-106 | A longer projection never reports less |
| `Budget.TwoExactReports` | src/nudge/read-output.ts:107-115 | Exact reports need not be unique: a size with two, of which the iteration takes the smaller |
| `Budget.WrapReaderProjection` | src/reader/budget.ts:68-96 | The loop never fails to converge; it accepts exactly the projections whose exact size is within the budget, and otherwise names that size |
| `Budget.MaximizeReaderBudget` | src/reader/budget.ts:108-127 | The halving search returns an accepted value, the greatest for a monotonic test, and -1 only if zero is refused |
| `Decimal.NumeralRoundTrip` | src/reader/budget.ts:64-96 | A numeral is read back as its number |
| `Decimal.WidthIff` | src/reader/budget.ts:64-96 | A numeral has at most w digits exactly when the number is below 10^w |
| `Unicode.BoundaryIsPrefix` | src/reader/record-page.ts:1179-1189 | An offset passes the byte test only if it ends a whole number of code points, in the UTF-8 of section 3 of RFC 3629 |
| `Unicode.PrefixIsBoundary` | src/reader/record-page.ts:1179-1189 | And every such end passes it |
| `Unicode.Utf8Injective` | src/reader/record-page.ts:930-933 | UTF-8 text stands for one sequence of code points only |
| `Unicode.NextCodePointEnd` | src/reader/record-page.ts:1160-1167 | The scanner finds the next boundary, and refuses an offset that is none |
| `Unicode.PreviousCodePointBoundary` | src/reader/record-page.ts:1169-1177 | The scanner finds the last boundary at or before a candidate, but not before the minimum |
| `Unicode.TruncateReaderUtf8` | src/reader/budget.ts:44-58 | The truncation is the longest prefix of whole code points within the limit |
| `RecordPage.PageSelectedText` | src/reader/record-page.ts:923-988 | A page starts where its cursor says, ends between code points after at least one of them, fits, and is complete or the largest that fits when sizes grow with the end; it fails only when neither the rest nor the next code point alone fits, naming what the latter needs |
| `RecordPage.PagesAreLossless` | src/reader/record-page.ts:923-988 | Following the cursors, with whatever budgets, the page texts together are the field up to the last page's end, and the field itself once a page is complete; there are no more pages than code points, and each holds whole ones |
| `RecordPage.CursorLeadsOn` | src/reader/record-page.ts:990-1031 | A partial page's cursor is accepted for the same query and record and leads to the page's end, and for no other binding |
| `RecordPage.DecodeCursor` | src/reader/record-page.ts:1014-1031 | A cursor is accepted exactly for its own query and record, inside the field, on a boundary |
| `JsText.HasLoneSurrogate` | src/reader/record-page.ts:889-903 | The loop answers true exactly for strings that are not Unicode text |
| `JsText.SelectDirectText` | src/reader/record-page.ts:880-887 | A field is paged as it is exactly when it is Unicode text; what is paged always is |
| `JsText.DirectTextIsLossless` | src/reader/record-page.ts:880-887 | The paged bytes and their representation identify the field, lone surrogates included |
| `Projection.ProjectTurn` | src/reader/projection.ts:254-375 | Once the minimum fits, no growth step leaves the budget and the end never throws; each parameter, the excerpt of each action included, is as large as there was room for when it grew |
| `Projection.ProjectSubagentEvidence` | src/reader/projection.ts:654-750 | A page of evidence actions fits and shows at least one action while there is one, or the error names what the smallest page needs |
| `Projection.EvidencePagesTile` | src/reader/projection.ts:654-750 | Following the cursors, the pages tile the action list with progress |
| `Projection.AppendWhileFits` | src/reader/projection.ts:800-812 | The count stops before the first that does not fit |
| `ContextProjection.ProjectContext` | src/reader/projection.ts:467-616 | The context throws only when the empty view does not fit; its result fits, shows the first leases and turns as nested views, and each list, claims within their quota first, stops at the first that does not fit when its turn comes |
| `ContextProjection.LargestNestedProjection` | src/reader/projection.ts:814-841 | The nested view is the first that fits, from the largest nested budget down |
| `ContextProjection.AddClaims` | src/reader/projection.ts:556-567 | Claims and overlaps stay within their quota and stop at the first that does not fit |
| `CanonicalText.TextIffMeaning` | src/core/stable-json.ts:26-113 | Two accepted values have the same text if and only if they mean the same JSON: objects are maps, omitted properties do not exist, omitted array elements are null, and -0 is 0 |
| `CanonicalText.BytesIffMeaning` | src/core/stable-json.ts:26-37 | So have the bytes that are hashed and stored |
| `CanonicalText.TextUnique` | src/core/stable-json.ts:39-113 | A value's text is recognised wherever it stands before a delimiter |
| `CanonicalText.MeaningDecidesText` | src/core/stable-json.ts:96-109 | The text does not depend on the order of properties nor on what is omitted |
| `CanonicalText.SortedKeysUnique` | src/core/stable-json.ts:13-16 | Sorting the same keys gives one order |
| `CanonicalText.TextStorable` | src/core/stable-json.ts:34-37 | A canonical text is Unicode text on one line |
| `CanonicalText.TextHasNoLineBreak` | src/core/stable-json.ts:34-37 | Its bytes hold no LF, as the JSONL store needs |
| `StableJson.BeforeTransitive` | src/core/stable-json.ts:8-16 | The order of keys is transitive |
| `StableJson.OneComesFirst` | src/core/stable-json.ts:8-16 | And antisymmetric and total |
| `StableJson.SortSorts` | src/core/stable-json.ts:97-97 | Sorting by key sorts |
| `JsText.QuotedUnique` | src/core/stable-json.ts:51-51 | A quoted string is recognised wherever it stands: neither its text nor what follows can be mistaken |
| `JsText.QuotedWellFormed` | src/core/stable-json.ts:51-51 | Quoting makes Unicode text of every string |
| `JsText.ToUtf8Injective` | src/core/id.ts:37-37 | Unicode strings are told apart by their UTF-8 bytes |
| `JsText.LoneSurrogatesCollide` | src/core/id.ts:37-37 | A lone surrogate has the bytes of U+FFFD |
| `JsonEncoder.Encoder.EncodeJson` | src/core/stable-json.ts:39-113 | The recursion over objects gives the text of the tree they unfold to, refuses what is refused, and leaves its set of ancestors as it was |
| `JsonEncoder.Encoder.EncodeArray` | src/core/stable-json.ts:76-89 | Likewise for the elements of an array |
| `JsonEncoder.Encoder.EncodePlain` | src/core/stable-json.ts:96-109 | Likewise for the sorted properties of an object |
| `JsonEncoder.CircularIffReturns` | src/core/stable-json.ts:69-72 | A value is refused as circular exactly when a chain of references returns to an object it has been through; sharing is not a cycle |
| `JsonEncoder.StableStringify` | src/core/stable-json.ts:26-32 | The top level: text, refusal, or nothing to serialise |
| `TypedId.InputIdentifies` | src/core/id.ts:24-55 | Two identifier inputs are equal if and only if type, number of parts, missing parts and the UTF-8 bytes of each part are |
| `TypedId.InputInjective` | src/core/id.ts:24-55 | On Unicode strings the input is injective, NUL, colons and digits in the parts or not |
| `TypedId.LoneSurrogatePartsCollide` | src/core/id.ts:37-41 | It is not on arbitrary strings: a lone surrogate collides with U+FFFD |
| `TypedId.FrameUnique` | src/core/id.ts:32-42 | A framed part is read back wherever it stands |
| `DirectoryLock.MutualExclusion` | src/output/directory-lock.ts:165-323 | Over every interleaving of single file-system calls, crashes and clock ticks in which live processes give their lock an owner before the stale age and no removal meets a live process's lock, at most one live process is between its mkdir and the end of its release |
| `DirectoryLock.ExclusionIff` | src/output/directory-lock.ts:232-296 | In a prompt run exclusion holds, and each recoverer may go on alone after each of its removals without breaking it, if and only if no removal of the run meets a live process's lock |
| `DirectoryLock.UndisturbedIsHarmless` | src/output/directory-lock.ts:264-296 | Runs in which nothing changes between a recoverer's last look and its removals meet that condition |
| `DirectoryLock.HoldersMeetTheirOwnLock` | src/output/directory-lock.ts:188-218 | In such runs acquiring and releasing meet the process's own lock only, and none of their calls fails |
| `DirectoryLock.OwnerlessRecoveryBreaksExclusion` | src/output/directory-lock.ts:265-290 | A prompt run in which two contenders judge one ownerless directory stale: both come to operate, since that path looks no second time before it removes |
| `DirectoryLock.RemovalSafeIff` | src/output/directory-lock.ts:280-296 | After an unlink or rmdir of recovery the recoverer may go on alone without breaking exclusion if and only if the unlink met no live process's lock, or the rmdir none without an owner file |
| `DirectoryLock.MeetingTheLivingBreaks` | src/output/directory-lock.ts:280-296 | Otherwise two more steps, its rmdir and its mkdir, make two holders |
| `DirectoryLock.StepKeepsInv` | src/output/directory-lock.ts:165-323 | Each step keeps the invariant |
| `DirectoryLock.VerdictKeeps` | src/output/directory-lock.ts:264-279 | What is judged stale, or re-checked, belongs to a dead process |
| `FeedScan.ScanFeed` | src/reader/catalogue.ts:1421-1501 | Recent coverage is complete exactly when the feed ends in a whole line and the newest shown lines are turns, enough of them or all; then the recent turns are the newest lines of the whole feed, wherever the cut fell |
| `FeedScan.CompleteSuffixLines` | src/reader/catalogue.ts:1542-1569 | The loop gives the non-empty complete lines after the first line break of a cut suffix |
| `FeedScan.SuffixShowsLast` | src/reader/catalogue.ts:1438-1447 | They are the last lines of the file |
| `FeedScan.NoBadIff` | src/reader/catalogue.ts:1459-1475 | No bad line counts against the recent turns exactly when the newest lines are all turns |
| `ActiveLease.LeaseFile.Write` | src/active/store.ts:260-309 | A write commits the next revision, or conflicts with the revision it names |
| `ActiveLease.LeaseFile.WriteSnapshot` | src/active/store.ts:436-457 | Only a newer snapshot replaces the file |
| `ActiveLease.LeaseFile.ReapExpiredIdle` | src/active/store.ts:583-631 | Only a tombstone a day past its expiry is deleted |
| `ActiveLease.DelayedWriterIsFenced` | src/active/store.ts:213-232 | Within a day a writer that names the revision it read commits exactly when the file is still the one it read: for live leases however stale, for tombstones that had not expired |
| `ActiveLease.FenceIff` | src/active/store.ts:574-631 | The fence holds for every writer and every sequence of operations of the day if and only if the lease is not a tombstone that had expired when the day began |
| `ActiveLease.RevisionsOnlyRise` | src/active/store.ts:260-457 | Within a day such a lease is not reaped, and when it has changed it has a later revision |
| `ActiveLease.RevisionsOnlyRiseIff` | src/active/store.ts:574-631 | Revisions only rise through every sequence of operations of the day if and only if the lease is no such tombstone |
| `ActiveLease.ReapingRestartsRevisions` | src/active/store.ts:574-582 | Every such tombstone can be reaped within the day and followed by another lease of its revision, over which the delayed writer commits |
| `LeaseHooks.RevisionCountsCommits` | src/active/store.ts:321-371 | Over every sequence of Codex events the revision rises by one with each commit and never otherwise |
| `LeaseHooks.TombstoneHolds` | src/hooks/codex.ts:663-738 | No sequence of delayed events of the settled turn revives its tombstone, whatever the trace says |
| `LeaseHooks.RevivalIff` | src/hooks/codex.ts:701-729 | An event makes a tombstone live if and only if it is a root prompt or an attested tool event of another turn |
| `LeaseHooks.LiveTurnIsUntouched` | src/hooks/codex.ts:528-548 | Late Stops and tool events of other turns leave the main actor's live lease exactly as it is |
| `LeaseHooks.StopIdlesIff` | src/hooks/codex.ts:731-738 | A Stop idles live work exactly when it names the same turn or one of the two names none |
| `LeaseHooks.ChildOrderConverges` | src/hooks/codex.ts:806-827 | Start and stop of a child converge to idle in either order |
| `StopTransaction.ContinueStop` | src/hooks/codex.ts:564-612 | Barring a failed rollback, the latch is newly claimed exactly when the lease is reopened, at the revision after the tombstone's; newer activity supersedes both |
| `StopTransaction.CodexStop` | src/hooks/codex.ts:528-623 | The whole Stop hook, with arbitrary writes by others to the lease and the cursor between its two critical sections: it reopens only the tombstone it wrote itself, and, barring a failed rollback, newly claims the latch it finds exactly then |
| `StopTransaction.ClaimLatches` | src/nudge/unread.ts:158-291 | A Stop claim sets the latch exactly when it announces |
| `StopTransaction.RollbackUnlatches` | src/hooks/codex.ts:599-608 | A rollback that does not fail leaves its latch standing nowhere, whatever happened meanwhile |
| `ClaudeHooks.TombstoneHolds` | src/hooks/claude.ts:453-487 | Delayed tool hooks never change a settled actor's tombstone |
| `ClaudeHooks.ClaimsGather` | src/hooks/claude.ts:459-484 | Through a batch of parallel tools no claim is lost and none invented |
| `ClaudeHooks.BatchOrderIsFree` | src/hooks/claude.ts:1148-1159 | The order in which the tools start leaves no trace in the claims |
| `ClaudeHooks.MergeOrdered` | src/hooks/claude.ts:1148-1159 | Merged claims are in order, each once |
| `Membership.ParticipationRecord.Enroll` | src/hooks/participation.ts:441-460 | Joining extends the history by one membership and keeps the record valid |
| `Membership.HistoryOnlyExtends` | src/hooks/participation.ts:928-972 | Over any moves, even with a clock set back, memberships only extend and their times strictly increase |
| `Membership.StampsAreNeverRewritten` | src/runner/workstream-stamp.ts:49-74 | A record keeps its stamp through all moves whose memberships begin after it, whatever times the moves asked for |
| `Membership.NoMoveReachesBack` | src/hooks/participation.ts:928-972 | No move reaches a record that is no later than the newest membership, whatever the clock does, nor one earlier than all times asked for |
| `Membership.MoveStampsLaterRecords` | src/runner/workstream-stamp.ts:49-74 | A move takes the records from its own time on, and no others |
| `Membership.StampByTimestamp` | src/runner/workstream-stamp.ts:54-63 | The loop that stops early gives the workstream of the last membership begun by then |
| `Membership.EffectiveMembership` | src/reader/publish.ts:718-729 | Attribution of attempts agrees with the stamp of records |
| `Membership.StampUnique` | src/runner/workstream-stamp.ts:54-63 | At each time at most one workstream is in effect |
| `IngestJournal.SummaryRefinesRuns` | src/hooks/ingest-attempt.ts:426-461 | The bounded summary, kept poll by poll, is the newest part of the run-length form of all polls, with the exact number of dropped runs |
| `IngestJournal.AddObservation` | src/hooks/ingest-attempt.ts:426-461 | The step with its pushing and shifting |
| `IngestJournal.RunsTotal` | src/hooks/ingest-attempt.ts:432-448 | The runs account for every poll |
| `IngestJournal.RunsDiffer` | src/hooks/ingest-attempt.ts:432-448 | Runs next to each other differ, so no shorter list describes the same polls |
| `IngestJournal.FitJournal` | src/hooks/ingest-attempt.ts:512-566 | Attempts and drops together stay as many, no more is dropped than needed, and the result is within both bounds; it fails only when the newest attempt alone is too heavy even compacted, and a journal without attempts is left alone |
| `IngestJournal.RunningAttemptsOutlastFinished` | src/hooks/ingest-attempt.ts:517-523 | No running attempt is dropped while a finished one is left |

## Left out

- Digests are injective here; the truncation of identifiers to 16 bytes, and collisions of SHA-256, are not modelled.
- The size of a stored cursor is a parameter of the model (`sizeOf`), not computed from its JSON text.
- Membership changes in the middle of a hook, and the retries they cause, are not modelled: each transaction works for one membership, and a later one may work for another.
- Patterns of identifiers, and the structural checks of JSON files, are left out except for the cursor's validity.
- Delivered context envelopes are modelled by the attention text they show; comparisons of summary metadata and the cross-check of a page with its projection are not.
- A context delivery may attest a record field although it shows the attention text only; the code accepts this, and `NoTurnLost.NoUnreadTurnIsLost` therefore speaks of the record or the attention field.
- Availability reports of feeds are reduced to the set of unavailable feeds.
- The checkpoint anchor is modelled on bytes; reading it from a file is not.
- File-system calls, symbolic links, hard links and permissions are left out; files are read and replaced whole, except where the append-only store and the lock need single calls.
- Record cursors are modelled after decoding; base64, checksum and pinned byte ranges are not.
- JSON parsing and the text of finite numbers are library code: a number is identified with the text that String() gives it.
- Error messages and the paths in them are left out, so refusals of one kind are one error.
- DirectoryLock.MutualExclusion: does not bound waiting times; owners on other hosts, which are judged by age alone, are not modelled.
- NudgeCursor.VirtualCursorValid: the validity predicate bounds revisions and generations as the parser does, but not the high-water mark, line numbers and offsets, which count turns, lines and bytes of existing feeds and are naturals here.
- DirectoryLock.AfterOpen: the two clean-up calls after a failed creation of the owner file are one step; no run within the theorem reaches them.
- ContextProjection.ProjectContext: the sizes of views are an arbitrary function, so it does not say how much of a given feed fits a given budget.
- Membership.ParticipationRecord.Enroll: does not model the parsing of invocations, workstream creation and the refusals before a move.
- LeaseHooks.TombstoneHolds: speaks of events that name the settled turn, or of tool events that name none; a Stop without a turn writes a tombstone without one.
- Ordering of turns and claims in reader output, overlaps of claims between workstreams, publish states and catalogue assembly would only add easy members.
- Command-line parsing, user interface, provider trace normalisation and trace runners are not part of this model.
