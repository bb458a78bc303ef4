# QueerPulse backend: erasure, export and dashboard, verified

A Dafny model of the algorithms behind account erasure, the personal data export and the admin community
dashboard of the QueerPulse backend. Tables are maps from ids to rows, an SQL statement is one atomic update of
a table, and the loops and protocols around the statements are what is proved. Code that changes state is a
class whose methods update its fields and are proved against a specification function; the theorems are lemmas
about that function. `dafny verify dfyconfig.toml` checks the project. Every lemma carries
`{:induction false}`: each induction is written out.

## What is modelled

**Messages of an erased member** (`MessageTables`, `ReportRekey`, `MessageDatabase`, `MemberErasure`,
`ErasureRuns`, `ReleaseSweeps`, `HeldEvidence`, `OrderedIds`, `Days`). Erasing an account re-keys the reports that
name the member by slug, computes the conversations a report ties, holds the member's messages there and
tombstones the rest page by page. A daily sweep tombstones held rows once nothing ties them. The keyset loop
equals one set-valued update, although a tombstoned row still matches its predicate. The release loop terminates
for every batch size and writes exactly the rows that were untied at the start. Disturbed by everything else
before any finite number of its batches, it leaves a tombstone for every row held at its start whose group is
untied at the last batch, and counts each row it wrote once. The re-key keeps the unique index of open reports,
with and without `reason_code` in its key. Afterwards the tie by id is the tie by any naming of the member,
missing one exactly when every report that ties the conversation spells the member's uuid with upper-case digits.

Two other writers reach held rows, since neither looks at `erased_sender_ref`: deletion for everyone
(`src/messaging/messages.service.ts:1417-1437`) and the hourly evidence sweep
(`src/messaging/message-evidence-hold-sweep.service.ts:160-180`). Both are steps of the runs in `ErasureRuns`. A
row whose group stays tied stays held with its record, but its text and attachment are kept exactly when no
evidence sweep met it deleted, past its purge date and without a message report that names it.
`TiedRowIsBlanked` is the run in which a tied row is blanked.

`HeldEvidence` states what is kept on the rows alone: a message keeps everything but its author exactly if an open
or escalated report is about one of the member's messages in its conversation, or names the member and comes from
another of its participants. Escalating a report changes nothing, and resolving one counts as removing it.

The two definitions of "tied" do not always agree, and the condition is exact. The erasure casts a message
report's subject to a uuid, which ignores case; the release compares text, which does not
(`src/account/erased-sender-messages.ts:160-180` against `237-268`), and
`src/reports/reports.service.ts:513-518` stores the subject as it was sent. A sweep right after an erasure frees
none of the member's held rows if and only if every held conversation is tied by a member report or by a message
report in lower case. `UpperCaseReportIsHeldThenFreed` is an input on which it frees one.

**CSV archive** (`Text`, `Json`, `ColumnPaths`, `Flattening`, `CsvCell`, `CsvReading`, `CsvArchive`). A parser for
section 2 of RFC 4180 undoes `toCsv`: after the BOM the document parses to the header and one record per row, all
as wide as the header, each cell the neutralised text of its leaf or empty. Every text is the column path of
exactly one position whose keys have no dot and do not end like an array index. So no two positions with such keys
share a column, and any other position shares its column with one of them. Records of such keys deliver every
leaf, and beside any other key some record loses one. Neutralising is inert for a spreadsheet: no field a reader
of the file finds starts with `=`, `+`, `@`, tab or CR, and one that starts with `-` is a number. The pairs of
texts it confuses are stated exactly.

**Account deletion** (`DeletionRequests`, `DeletionProtocol`, `DeletionSweeps`, `DeletionPromise`,
`MemberStatus`). Requests, two-statement cancellations, any number of sweep workers, crashes and time are steps of
one state machine. In every state of every interleaving a member has at most one open request, a request is erased
by at most one worker and only when due, a cancelled request is never erased, a claimed one never cancelled, and
each is warned at most once with one to three days left. No account is erased before thirty days have passed since
its owner asked, and from then on the next sweep reads the request. The sweep loops are proved beside an
environment that interferes between any two of their statements. Hiding and coming back are a second machine: no
open pause or grace row records Deactivated, and a cancellation gives back exactly the status held before hiding.
A member who is hidden and never sanctioned comes back as they left. The last sanction of a hidden member survives
the return exactly if it came while a pause was open, or was already the status on record;
`CancellationLiftsASuspension` is the run in which it does not.

**Media of the export** (`TextOrder`, `StorageKeys`, `MediaPlan`, `StoredMedia`, `MediaDelivery`, `ArchiveNames`).
The plan does not depend on the order of the bucket listing, and takes the oldest objects first. Names differ, the
suffix search ends, and an object is taken exactly when it fits on top of what was taken before it. What opens,
what fails and what was skipped add up to the listing; the manifest lists exactly the appended files if and only
if no two files share a storage key and part ways on opening, which distinct keys give. The names inside one zip
differ under a condition on the job that is exact. For a planned job it comes down to one kind of key, the single
segment `manifest.json`, and the keys the bucket is listed for are not of it.

**Message reads** (`MessageReads`, `ReportedConversations`). The keyset read equals the simple newest-suffix read
for every page size and cap, and what it leaves out is no later than anything it keeps. The reported-conversation
reader keeps its three ceilings at once: rows read plus budget left is constant, and the list flag is set exactly
when ids or conversations were cut.

**Gatherings of an erased host** (`Gatherings`, `GatheringErasure`). After a complete pass every unfinished
gathering is with its longest-standing other co-host, called off, or left to finish; each series follows its
earliest inherited occurrence; nobody but a co-host becomes host, and a second pass changes nothing.

**Admin dashboard** (`CommunityReports`, `ReportScope`, `CommunityActivity`, `CommunityDashboard`,
`DashboardNumbers`, `CommunityHealth`). The batched aggregates equal a definition per community, which is counted
out on the rows. Listing more communities never changes one community's numbers as long as no id is used by
content of two communities, which is exactly when every report is attributed alike in every scope. The sparkline
adds up, the open queue and the numbers on the card are the same reports, and resolving a report never lowers the
health score.

**Storage erasure** (`StorageErasure`). For every batch size and every pattern of failures, an object is removed
exactly when its batch was resolved, nothing references it and its deletion did not fail; deleted, retained and
failed add up to the listing.

## Where the code and its comments differ

- `src/account/erased-sender-messages.ts:87-96` says the unique index of open reports has three columns. The
  entity (`src/reports/entities/report.entity.ts:227-243`) has `reason_code` as a fourth. Both are proved.
- The same comment says a failed erasure is retried. `src/account/account-deletion-processor.service.ts:229-249`
  leaves it processing.
- `src/account/message-export.ts:791` says newest-reported first. The query orders by conversation id
  (`src/account/message-export.ts:778`), so nothing is claimed about recency across conversations.
- `src/account/message-export.ts:848-849` says the list stays complete up to where it was cut. Its last entry
  can itself be cut, and that entry says so.
- `resolveRestoreStatus` reads grace rows only. `ResolveIsExactWithAGraceRow` states when that is exact and
  `ProcessingRowIsNotRead` gives the case in which it is not.
- An inherited gathering's seat is decided by a fresh reading of the clock
  (`src/account/content-owner-erasure.service.ts:349-353`), so it is guaranteed for gatherings not ended by then.
- An upload whose object was deleted but whose registry row was not counts as failed and is gone.

## Model

| member | source | states |
|---|---|---|
| ReportRekey.RekeyKeepsOpenReportsUnique | src/account/erased-sender-messages.ts:122-136 | re-keying slug reports keeps open reports unique per reporter, subject type and subject, null reporters distinct, under both index keys |
| ReportRekey.RekeyRaisesNoViolation | src/account/erased-sender-messages.ts:82-96 | written out on the rows: no two open reports by one reporter are about one subject after the re-key, if none were before |
| ReportRekey.IndexIs | src/reports/entities/report.entity.ts:227-243 | the unique index of open reports, on the rows, under both keys |
| ReportRekey.RekeyIsIdempotent | src/account/erased-sender-messages.ts:116-136 | a second re-key changes no row, so a retry cannot raise the unique violation |
| ReportRekey.RekeyMovesIff | src/account/erased-sender-messages.ts:122-136 | the re-key moves exactly the member reports by slug, an open one only without an open report by id from the same reporter |
| ReportRekey.RekeyedTieIsTieByIdOrSlug | src/account/erased-sender-messages.ts:103-136 | after the re-key the tie by user id never exceeds the tie over reports naming the member by id in any casing or by slug, and equals it exactly unless the conversation is tied in upper case only; the skipped duplicates lose nothing |
| ReportRekey.LowerCaseNamesLoseNothing | src/account/erased-sender-messages.ts:103-136 | with member subjects in lower case or by slug the two ties are equal |
| MemberErasure.UpperCaseMemberReportHoldsNothing | src/account/erased-sender-messages.ts:160-180 | an input on which they are not: an open member report that spells the uuid in upper case holds nothing and the message is tombstoned |
| MessageTables.TombstoneIsTombstone | src/account/erased-sender-messages.ts:59-75 | a tombstone has no body, reply link, forward flag or hold, queues its bytes for purge, and keeps an earlier deletion time |
| MessageTables.TombstoneLeaves | src/account/erased-sender-messages.ts:59-75 | field by field: an image or document keeps its address and is due for the purge at once, any other attachment goes |
| MessageDatabase.TombstonedRowsStillMatch | src/account/erased-sender-messages.ts:203-206 | tombstoning removes no row from the page predicate, so only the cursor can end the loop |
| MessageDatabase.PageAdvances | src/account/account-deletion-processor.service.ts:886-908 | a non-empty page past the cursor extends the written prefix by exactly its rows, and a short one finishes it |
| MessageDatabase.Database.SettleErasedMemberMessages | src/account/account-deletion-processor.service.ts:861-914 | for every page size the loop ends with each of the member's messages held untouched in a tied conversation or a tombstone, all other messages unchanged, and counts each row once |
| MessageDatabase.SettledIsMarkThenTombstone | src/account/account-deletion-processor.service.ts:873-908 | marking and then paging equals one set-valued update |
| MessageDatabase.ReleaseNeverChangesATie | src/account/erased-sender-messages.ts:237-268 | releasing some untied rows neither ties nor unties another held row |
| MessageDatabase.Database.ReleaseHeldMessages | src/account/erased-sender-message-release.service.ts:52-61 | for every batch size of at least one the loop ends, and has written exactly the rows untied at its start, each once |
| MessageDatabase.ReleasedAtOneInstantIsOneShot | src/account/erased-sender-message-release.service.ts:52-61 | with one clock reading the batches equal tombstoning all untied rows at once |
| MessageDatabase.Database.EraseMember | src/account/account-deletion-processor.service.ts:401-420 | severing, settling in pages and deleting the user row turn the tables into those of one specification, for every page size |
| MemberErasure.ErasedRow | src/account/account-deletion-processor.service.ts:401-420 | what a whole erasure makes of any one message row: held and anonymised, tombstoned, or as it was |
| MemberErasure.ErasureKeepsConsistent | src/account/account-deletion-processor.service.ts:401-420 | an erasure keeps the table invariant the release sweep relies on |
| MemberErasure.ReleaseTieIsLowerCaseErasureTie | src/account/erased-sender-messages.ts:160-268 | after an erasure the release tie of a held group is the erasure tie restricted to member reports and lower-case message reports |
| MemberErasure.FreedAtOnceExactly | src/account/erased-sender-messages.ts:237-268 | a sweep right after the erasure frees a row exactly when its conversation was tied, and not in lower case |
| MemberErasure.SweepFreesNoneIffTiesAreLowerCase | src/account/erased-sender-messages.ts:160-268 | the two tie definitions agree on a member if and only if every held conversation is tied in lower case |
| MemberErasure.LowerCaseSubjectsKeepEverythingHeld | src/account/erased-sender-messages.ts:160-268 | with report subjects stored in lower case nothing held is freed at once |
| MemberErasure.UpperCaseReportIsHeldThenFreed | src/account/erased-sender-messages.ts:160-268 | an input on which the two definitions part ways: one upper-case message report |
| ErasureRuns.RunKeepsConsistent | src/account/account-deletion-processor.service.ts:401-420 | the invariant holds through every run of erasures, release sweeps, deletions for everyone, evidence sweeps and report or seat changes |
| ErasureRuns.HeldRowStep | src/messaging/message-evidence-hold-sweep.service.ts:160-180 | what each kind of step makes of a held row: tombstone, blank, deletion dates, or nothing |
| ErasureRuns.HeldRowFate | src/account/erased-sender-messages.ts:228-268 | along any run a held row stays held with its record until a release at which it was untied, and is a tombstone from then on |
| ErasureRuns.HeldContentIsKeptIff | src/messaging/message-evidence-hold-sweep.service.ts:160-180 | a row that stays held keeps text and attachment exactly if no evidence sweep met it deleted, past its purge date and not named by a holding message report, or it was blank |
| ErasureRuns.HeldRowIsUntouchedIff | src/messaging/messages.service.ts:1417-1437 | a row that stays held is the same row, dates and all, exactly if no deletion for everyone and no evidence sweep reached it |
| ErasureRuns.TiedRowsStayHeld | src/account/erased-sender-messages.ts:228-268 | a row whose group stays tied is held with its record at the end, its content under the same condition |
| ErasureRuns.NamedRowsKeepTheirContent | src/messaging/message-evidence-hold-sweep.service.ts:30-37 | a held row that a holding message report names throughout keeps record, text and attachment |
| ErasureRuns.TiedRowIsBlanked | src/messaging/message-evidence-hold-sweep.service.ts:160-180 | a run in which a tied row is blanked: deleted by its author, erased, swept |
| HeldEvidence.TiedIff | src/account/erased-sender-messages.ts:160-182 | the erasure ties a conversation exactly by an open or escalated report on a message the member wrote there, or about the member by a participant |
| HeldEvidence.GroupTiedIff | src/account/erased-sender-messages.ts:243-262 | the release reads a tie exactly by such a report on a held message in lower case, or about the member |
| HeldEvidence.EscalatingKeepsTies | src/account/erased-sender-messages.ts:33 | escalating an open report changes no tie, before or after the erasure |
| HeldEvidence.ResolvingIsRemoving | src/account/erased-sender-messages.ts:33 | a resolved report ties as much as a deleted one |
| HeldEvidence.ErasureKeepsIff | src/account/erased-sender-messages.ts:98-225 | a message keeps everything but its author exactly while an undecided report is about one of the member's messages in its conversation, or names the member by id or slug and comes from another participant |
| HeldEvidence.ReportedMessageIsKept | src/account/erased-sender-messages.ts:160-182 | one undecided report on a message keeps it through the erasure and, in lower case, ties it afterwards |
| HeldEvidence.ReleasableIff | src/account/erased-sender-messages.ts:237-268 | the release may write a row exactly if it is held and no undecided report is about its group |
| HeldEvidence.SweepBlanksIff | src/messaging/message-evidence-hold-sweep.service.ts:160-180 | the hourly sweep blanks exactly the selected rows that are deleted, past their date and named by no undecided report |
| HeldEvidence.DeletionHoldsThirtyDays | src/messaging/messages.service.ts:1417-1437 | a message deleted for everyone keeps its content for thirty days and not longer |
| HeldEvidence.LivesGoOn | src/account/erased-sender-messages.ts:228-236 | between two steps of a run a living member's message and the reports may change in any way |
| HeldEvidence.UndecidedReportsKeepTheRecord | src/account/erased-sender-messages.ts:228-268 | along every run a held row keeps its record, and its content or nothing of it, while some undecided report is about its group |
| HeldEvidence.ReleasedRowsShowNothing | src/account/erased-sender-messages.ts:59-75 | along every run a released row shows nothing its author wrote ever after |
| HeldEvidence.AnonymousRowsAreHeldOrBlank | src/account/erased-sender-messages.ts:8-18 | along every run what an erased member wrote is held for them or shows nothing of it |
| HeldEvidence.ErasureRemovesTheMember | src/account/account-deletion-processor.service.ts:229-249 | after an erasure no sender, reporter, seat or slug names the member |
| HeldEvidence.ErasureTouchesNobodyElse | src/account/account-deletion-processor.service.ts:229-249 | and no row of anybody else changed |
| HeldEvidence.ExpectedTieIs | src/account/erased-sender-messages.ts:77-136 | the tie the re-key is compared with, on the rows |
| ReleaseSweeps.ReleaseSweep.ReleaseHeldMessages | src/account/erased-sender-message-release.service.ts:52-61 | beside interference before any finite number of batches the loop ends, nothing held at its start and untied at the last batch is left, and the count is of the rows its own batches wrote, all of them tombstones |
| ReleaseSweeps.ShortBatchSweepsClean | src/account/erased-sender-messages.ts:228-268 | after a batch that comes back short every row held at any earlier point of the run is a tombstone or in a tied group |
| ReleaseSweeps.TiedThroughoutIsNotReleased | src/account/erased-sender-messages.ts:228-268 | no batch writes a row whose group stays tied |
| CsvCell.NumericScanIsPattern | src/account/export-csv.ts:90 | the numeric test accepts exactly the written grammar: sign, mantissa, exponent |
| CsvCell.NeutralizedIsInert | src/account/export-csv.ts:176-181 | a printed cell starts like a formula only if the whole of it is a negative number |
| CsvCell.NeutralizeConfusesExactly | src/account/export-csv.ts:176-181 | two texts print alike exactly when they are equal or one is the other behind an apostrophe it was given |
| CsvCell.ParseEscaped | src/account/export-csv.ts:183-192 | reading one escaped cell back gives its neutralised text, whatever follows |
| CsvCell.ParserIsStrict | src/account/export-csv.ts:183-192 | the parser that reads back rejects what the grammar does: a bare quote or line break, text after a closing quote, a field left open |
| CsvReading.NumberIsNumeric | src/account/export-csv.ts:90 | a sign, digits with at most one point and an exponent make a number |
| CsvReading.NumericIsNumber | src/account/export-csv.ts:90 | and only they do |
| CsvReading.PrintedIs | src/account/export-csv.ts:86-90 | a value gets one apostrophe exactly if it starts with `=`, `+`, `-`, `@`, tab or CR and is no number |
| CsvReading.PrintedStarts | src/account/export-csv.ts:160-181 | no printed cell starts with `=`, `+`, `@`, tab or CR, and one that starts with `-` is a number |
| CsvReading.QuotedIff | src/account/export-csv.ts:183-192 | a cell is quoted exactly if it holds a quote, comma, CR or LF or starts or ends with white space |
| CsvReading.LeafShows | src/account/export-csv.ts:106-157 | which values are one cell, and the text each shows |
| Json.LeavesAreTheLeafPositions | src/account/export-csv.ts:129-160 | the recursion meets exactly the positions whose value it prints: scalars, empty containers, scalar arrays |
| Json.LeavesAreDistinct | src/account/export-csv.ts:129-160 | it meets each of them once |
| ColumnPaths.ColumnPathInjective | src/account/export-csv.ts:143-156 | two positions with safe keys and one path are one position |
| ColumnPaths.EveryPathIsSafe | src/account/export-csv.ts:143-156 | every text is the path of some position with safe keys |
| ColumnPaths.HasSafeTwinIffUnsafe | src/account/export-csv.ts:143-156 | a position has the column of another, safe one exactly when one of its keys has a dot or ends like an array index |
| ColumnPaths.DottedKeyMerges | src/account/export-csv.ts:154-156 | every key with a dot inside shares its column with a nested key |
| ColumnPaths.IndexedKeyMerges | src/account/export-csv.ts:143-145 | every key ending like an array index shares its column with an array item |
| Flattening.PutAllDistinct | src/account/export-csv.ts:226-229 | writing cells with distinct paths into the Map keeps all of them in order |
| Flattening.Flatten | src/account/export-csv.ts:129-160 | the recursion ends and writes exactly one cell a leaf, at the leaf's path |
| Flattening.PutAllSize | src/account/export-csv.ts:226-229 | the Map is as long as what was written to it exactly if no path repeats |
| CsvArchive.SafeRowLosesNothing | src/account/export-csv.ts:129-160 | a record with safe keys flattens to the list of its leaves, all paths distinct |
| CsvArchive.UnsafeKeyLosesALeaf | src/account/export-csv.ts:129-160 | for every other key, a record with safe keys beside it that loses a leaf |
| CsvArchive.SafeKeyIff | src/account/export-csv.ts:129-160 | a key is safe exactly if no record with safe keys beside it loses a leaf |
| CsvArchive.ColumnsAreTheUnionInFirstSeenOrder | src/account/export-csv.ts:223-237 | the columns are the rows' paths without repeats, in first-seen order |
| CsvArchive.EarlierColumnIsSeenEarlier | src/account/export-csv.ts:227-235 | wherever a column's path occurs, every column before it occurred earlier |
| CsvArchive.ToCsv | src/account/export-csv.ts:221-250 | the printing loops produce the document of the flattened table |
| CsvArchive.CsvRoundTrip | src/account/export-csv.ts:221-250 | an RFC 4180 section 2 parser applied after the BOM returns the header and one neutralised record a row |
| CsvArchive.TableIsRectangular | src/account/export-csv.ts:239-249 | every record is as wide as the header, which is never empty, and there is one a row |
| CsvArchive.TableCells | src/account/export-csv.ts:244-248 | a cell is the row's text at that path, or empty where the row lacks it |
| CsvArchive.EveryLeafIsDelivered | src/account/export-csv.ts:221-250 | each leaf of a record with safe keys stands in its row under a column that names it |
| CsvReading.RecordsAre | src/account/export-csv.ts:196-209 | the records of an array, an object, a scalar and nothing |
| CsvReading.FieldsAreInert | src/account/export-csv.ts:160-250 | an archive file starts with the byte-order mark, parses, and no field of it starts a formula |
| CsvReading.ValueReadsBack | src/account/export-csv.ts:196-250 | every value of a record with safe keys is read back from its record under the column of its position |
| CsvReading.RecordsAreAllThere | src/account/export-csv.ts:221-250 | a file has its header and every record, or is the byte-order mark alone |
| DeletionProtocol.StepKeepsSafe | src/account/account-deletion-processor.service.ts:157-250 | every step of a member, worker, crash or clock keeps the invariant |
| DeletionProtocol.RunIsSafe | src/account/account-deletion-processor.service.ts:157-250 | in every state of every interleaving: one open request a member, one erasure a request and only when due, one warning a request with 1 to 3 days left |
| DeletionProtocol.CancelledOrClaimedForGood | src/account/account.service.ts:393-421 | a cancelled request is never erased and a claimed one never cancelled |
| DeletionProtocol.RowEvolves | src/account/account-deletion-processor.service.ts:214-235 | whatever interleaves, a row leaves grace once, in one direction, and keeps its date and warning stamp |
| DeletionProtocol.DaysRemainingInLead | src/account/account-deletion-processor.service.ts:186-189 | the rounded days are 1 to 3 inside the lead window |
| DeletionPromise.AskingIs | src/account/account.service.ts:314-360 | a request is granted exactly to a member without an open one, for thirty days from that instant |
| DeletionPromise.RowWasAsked | src/account/account.service.ts:314-360 | along every run each request was asked for and keeps the date it got then |
| DeletionPromise.ErasureIsThirtyDaysAfterAsking | src/account/account-deletion-processor.service.ts:208-229 | along every run each erasure takes up a request in grace at least thirty days after it was asked for |
| DeletionPromise.SweepReadsItAfterThirtyDays | src/account/account-deletion-processor.service.ts:208-215 | from that instant on, and not before, a sweep reads a request that is still in grace |
| DeletionPromise.ErasureEnds | src/account/account-deletion-processor.service.ts:229-249 | an erasure ends with its request erased, or in progress for good |
| DeletionPromise.CancellingWorks | src/account/account.service.ts:386-420 | a cancellation nobody overtakes closes the member's request and changes nothing else |
| DeletionPromise.CancellingStops | src/account/account.service.ts:386-412 | without a grace row, or with one in progress, it changes nothing |
| DeletionPromise.WarningsTellTheDaysLeft | src/account/account-deletion-processor.service.ts:157-206 | along every run each warning was read at most three days ahead and tells the days left, rounded |
| DeletionPromise.WarningSweepReads | src/account/account-deletion-processor.service.ts:157-170 | the warning sweep reads the unwarned requests in grace within three days of their date |
| DeletionPromise.OneOpenRequest | src/account/account.service.ts:320-345 | along every run a member has at most one request in grace or in progress |
| DeletionPromise.OnceEach | src/account/account-deletion-processor.service.ts:157-229 | along every run a request is erased at most once and warned at most once, and its row says whether it was warned |
| DeletionPromise.TermsStay | src/account/account-deletion-processor.service.ts:157-240 | along every run a request keeps its member and its date, is stamped once, and never leaves a final status |
| DeletionPromise.AnyWorkerMayStart | src/account/account-deletion-processor.service.ts:208-215 | a worker with nothing in its memory, a crashed one included, may start a sweep |
| DeletionSweeps.DeletionProcessor.EraseDueAccounts | src/account/account-deletion-processor.service.ts:208-250 | with interference between any two statements the sweep ends, its run is a legal one, and no request due at its read is left in grace |
| DeletionSweeps.DeletionProcessor.WarnUpcomingDeletions | src/account/account-deletion-processor.service.ts:157-206 | likewise every upcoming request is warned about or has left grace |
| MemberStatus.MemberAccount.Deactivate | src/account/account.service.ts:280-301 | pausing hides the member with the status they come back to on record, deletion rows untouched; it fails without a trace exactly for the sole admin or no user |
| MemberStatus.MemberAccount.RequestDeletion | src/account/account.service.ts:321-365 | a request adds one grace row with the current status and hides; it fails without a trace exactly for the sole admin, an open request or no user |
| MemberStatus.MemberAccount.CancelDeletionRequest | src/account/account.service.ts:386-449 | a cancellation leaves no open request and unhides only a hidden member without a pause; it fails without a trace exactly without a grace row or during processing |
| MemberStatus.RunIsRestorable | src/account/account.service.ts:215-449 | along every run a hidden member has a pause or an open request to come back from, and without a pause the grace row records the status held |
| MemberStatus.HiddenHaveAWayBack | src/account/account.service.ts:215-449 | along every run at most one request is open, and a hidden member has a pause or an open request |
| MemberStatus.NothingRecordsDeactivated | src/account/account.service.ts:226-239 | no open pause or grace row records Deactivated |
| MemberStatus.HidingIs | src/account/account.service.ts:226-360 | a visible member hides by a pause or a request that records the status of that moment; the sole admin, and a member with an open request, do not |
| MemberStatus.HidingAgainIs | src/account/account.service.ts:226-360 | hiding again records what was on record |
| MemberStatus.CancelRestoresExactly | src/account/account.service.ts:425-447 | without an open pause a hidden member gets the status held before hiding; a moved status and a paused member are left alone |
| MemberStatus.CancelIs | src/account/account.service.ts:386-420 | a cancellation closes exactly the rows in grace and leaves the pause alone |
| MemberStatus.ComingBackGives | src/auth/auth.service.ts:797-860 | signing in with a pause, or cancelling without one, gives the status on record |
| MemberStatus.ComesBackAsTheyLeft | src/account/account.service.ts:226-239 | hidden and never sanctioned, a member has the status they left with on record, pause or not |
| MemberStatus.ReturnsAsTheyLeft | src/auth/auth.service.ts:797-860 | signing in or cancelling, a member nobody sanctioned has the status they left with |
| MemberStatus.ReturnsAsSanctioned | src/moderation/account-enforcement.service.ts:680-690 | and one whose last sanction came under a pause has that |
| MemberStatus.SanctionSurvivesIff | src/moderation/account-enforcement.service.ts:915-940 | the last sanction of a hidden member is what they come back to exactly if a pause was open when it came, or it was on record already |
| MemberStatus.CancellationLiftsASuspension | src/moderation/account-enforcement.service.ts:915-940 | a run in which it is lost: request, suspension, cancellation |
| MemberStatus.PauseMeansHidden | src/moderation/account-enforcement.service.ts:680-690 | as long as nobody else writes the status of a hidden member, a pause is open only on hidden ones |
| MemberStatus.SanctionIs | src/moderation/account-enforcement.service.ts:915-940 | a sanction reaches a visible member at once, and a hidden one only on the record of an open pause |
| MemberStatus.ResolveIsExactWithAGraceRow | src/account/account.service.ts:226-239 | what a second hiding step records for a member hidden without a pause is right exactly with a grace row, or if it was Active |
| MemberStatus.ProcessingRowIsNotRead | src/account/account.service.ts:232-239 | a reachable member whose processing row holds the status that is not read |
| MemberStatus.SweepSteps | src/account/account-deletion-processor.service.ts:216-240 | the sweep takes up a row in grace and nothing else, and a finished erasure leaves no member |
| TextOrder.LessTotal | src/account/export-media.ts:194-201 | string comparison is total |
| TextOrder.LessIff | src/account/export-media.ts:194-201 | two texts are ordered by the first place where they differ |
| MediaPlan.BeforeIsStrictOrder | src/account/export-media.ts:194-201 | on objects with distinct keys the comparator is a strict total order |
| MediaPlan.PlanIgnoresListingOrder | src/account/export-media.ts:180-257 | the plan is the same for every order of the listing |
| MediaPlan.UniqueName | src/account/export-media.ts:210-222 | the suffix search ends on a name not in use |
| MediaPlan.PlanExportMedia | src/account/export-media.ts:203-256 | the loop computes the plan |
| MediaPlan.TakesWhatFitsUnique | src/account/export-media.ts:239-245 | there is one way to take exactly what still fits |
| MediaPlan.PlanSplitsTheListing | src/account/export-media.ts:203-256 | files and skipped objects split the listing by that rule, byte counts are the sums they claim, names differ throughout |
| MediaPlan.WalkedOldestFirst | src/account/export-media.ts:194-201 | the objects are walked oldest first, by date text and then by key |
| MediaPlan.UploadIsNamed | src/account/export-media.ts:157-173 | an upload is filed by its kind, without its owner; persona images have their own folder |
| MediaPlan.RepeatedName | src/account/export-media.ts:211-222 | a name in use gets the first free number from 2, before its extension |
| MediaPlan.RepeatedBareName | src/account/export-media.ts:211-222 | and at its end without one |
| MediaPlan.FileSays | src/account/export-media.ts:224-238 | the kind of a file and the message it belongs to |
| MediaPlan.PlannedNamesAreApart | src/account/export-media.ts:203-256 | no two files of a plan have one name, included or skipped |
| MediaPlan.CeilingIs | src/account/export-media.ts:47 | the files of an archive stay under 256 MiB |
| StorageKeys.PersonaKeyIff | src/storage/storage-key.ts:115-118 | which keys of three segments are persona images |
| StorageKeys.BareKeyIs | src/storage/bare-key.ts:5-9 | a reference names a key by itself or by its `/files/` address |
| StoredMedia.StoredPlanReadsBack | src/account/export-media.ts:272-306 | a plan survives the `jsonb` column |
| StoredMedia.StoredFileReadsBack | src/account/export-media.ts:225-238 | every field of a stored file is under its own name |
| StoredMedia.DownloadDescribesThePlan | src/account/export-archive.ts:272-281 | the download describes exactly the planned files |
| StoredMedia.OnlyAFileListMatters | src/account/export-media.ts:272-317 | any other value parses too: media is absent exactly without a list of files, and unusable files are dropped |
| StoredMedia.UsableFilesAreRead | src/account/export-media.ts:289-317 | exactly the files with a name and a storage key are read, each as often as stored |
| StoredMedia.MissingNumbersAre | src/account/export-media.ts:289-306 | what an older value does not say is filled in |
| MediaDelivery.DescribeExportDownload | src/account/export-archive.ts:228-286 | text entries first, one CSV a category of the payload, then the stored files in plan order |
| MediaDelivery.TextFilesAre | src/account/export-archive.ts:253-270 | the zip holds the payload's manifest, each category as its CSV file, and the payload in the `both` format |
| MediaDelivery.AppendEntries | src/account/account.controller.ts:346-411 | the pass appends what opened, records what did not, and writes a manifest only if it was not cut short |
| MediaDelivery.FailuresNameTheirFiles | src/account/account.controller.ts:398-411 | each failure names a planned file and says why it did not open |
| MediaDelivery.DeliveryConservesFiles | src/account/account.controller.ts:346-411 | appended plus failed is the plan; the manifest lists exactly the appended files if and only if no key opened once and failed once; status is complete exactly with objects and no gap |
| MediaDelivery.DistinctKeysDeliverExactly | src/account/export-media.ts:324-349 | for a listing with distinct keys, listed plus failed plus skipped is the listing, and complete means all of it |
| ArchiveNames.ZipNamesDifferIff | src/account/export-archive.ts:253-281 | the names of one zip, the media manifest included, differ exactly if the categories and the file names do, no file has a text entry's name or is named `manifest.json`, and the payload in the `both` format is named like neither manifest |
| ArchiveNames.DeliveredNamesDiffer | src/account/account.controller.ts:346-373 | names that differ as described differ as delivered, whatever fails to open |
| ArchiveNames.ManifestIsPlannedIff | src/account/export-media.ts:157-222 | a planned file is named `manifest.json`, included or skipped, exactly if a key of the listing is that one segment |
| ArchiveNames.ListedKeyIsNotBare | src/storage/storage.service.ts:977-994 | no key listed under a kind and an owner is |
| ArchiveNames.ExportNamesDifferIff | src/account/export-archive.ts:228-286 | for a planned job the names differ exactly without an included file of that name: always without such a key, and never with one if nothing was skipped |
| ArchiveNames.ManifestKeyCollides | src/account/account.controller.ts:490-493 | a listing whose one file lands on the media manifest |
| MessageReads.ListUnique | src/account/message-export.ts:285-289 | there is one newest-first listing of a set of rows |
| MessageReads.CursorContinues | src/account/message-export.ts:279-296 | past a row of the listing lies exactly the rest of it |
| MessageReads.ReadPages | src/account/message-export.ts:255-296 | the keyset loop reads the first rows of the order for every page size, nothing skipped or repeated |
| MessageReads.ReadNewestMessages | src/account/message-export.ts:250-301 | the paged read equals the simple one, and reports truncation exactly when more than the cap match |
| MessageReads.NewestSuffixIs | src/account/message-export.ts:297-300 | the result is oldest first, and every row left out is older than every row kept |
| MessageReads.NewestAreKept | src/account/message-export.ts:279-300 | by time and id: what is kept is oldest first, and nothing left out is later than anything kept |
| ReportedConversations.SpendBudget | src/account/message-export.ts:840-888 | the loop's entries are those of the closed form, and it stops early exactly at a conversation it cannot pay for |
| ReportedConversations.SpentPlusLeftIsConstant | src/account/message-export.ts:820-887 | rows read plus budget left is the total ceiling throughout |
| ReportedConversations.EntriesKeepEveryCeiling | src/account/message-export.ts:853-887 | every entry is a newest suffix of what the member may see, within its cap, and says whether it was cut |
| ReportedConversations.EntriesShow | src/account/message-export.ts:853-887 | an entry shows only what the member may read there, and leaves out something older only if it says so |
| ReportedConversations.BuildReportedConversations | src/account/message-export.ts:800-888 | the list flag is set exactly when ids were cut, or a conversation of the member's was reached with nothing left |
| ReportedConversations.CeilingsHoldTogether | src/account/message-export.ts:815-888 | all three ceilings hold at once, and the total is the demand or the ceiling |
| ReportedConversations.CeilingsAre | src/account/message-export.ts:815-888 | at most 200 conversations, 5,000 rows in one and 20,000 in all, and all of them below that |
| Gatherings.GatheringOutcome | src/account/content-owner-erasure.service.ts:256-322 | an unfinished gathering goes to its earliest other co-host, who leaves the roster and is seated; without one it is called off if not started and left alone if under way; all others are untouched |
| Gatherings.HostAndStatusAfter | src/account/content-owner-erasure.service.ts:256-322 | drafts and published gatherings alike go to the longest-standing other co-host, are called off, or are left to finish |
| Gatherings.NewHostIsSeated | src/account/content-owner-erasure.service.ts:338-360 | a new host leaves the roster, alone, and is seated as going with their guests while the gathering lasts |
| Gatherings.OtherSeatsStay | src/account/content-owner-erasure.service.ts:338-360 | no other seat changes |
| Gatherings.SeriesAfter | src/account/content-owner-erasure.service.ts:502-521 | a series of the host's goes with the earliest of its gatherings that changed hands, or stays |
| Gatherings.OnlyCohostsInherit | src/account/content-owner-erasure.service.ts:280-320 | a gathering changes hands only from the erased host, to somebody on its roster |
| Gatherings.SecondPassChangesNothing | src/account/content-owner-erasure.service.ts:256-322 | a second complete pass, then or later, changes no table |
| GatheringErasure.GatheringTables.ChooseSuccessors | src/account/content-owner-erasure.service.ts:280-294 | the first other co-host met is the longest-standing one, for every gathering that has one |
| GatheringErasure.GatheringTables.HandOverEvents | src/account/content-owner-erasure.service.ts:338-360 | the loop moves host, roster and seat of exactly the chosen gatherings |
| GatheringErasure.ChooseForSeries | src/account/content-owner-erasure.service.ts:502-521 | a series is given to the successor of its earliest inherited occurrence, and only then |
| GatheringErasure.GatheringTables.HandleFutureGatherings | src/account/content-owner-erasure.service.ts:256-322 | the loops together make one complete pass |
| CommunityReports.SummariseReportsByCommunity | src/admin-communities/community-report-scope.ts:101-137 | one pass over everybody's reports gives each community the totals of its own share |
| CommunityReports.QueueIsSorted | src/admin-communities/admin-communities.service.ts:1690-1693 | the queue is newest first, reports made together in the scan's order |
| CommunityReports.OpenShareIs | src/admin-communities/admin-communities.service.ts:1681-1689 | a community's queue holds each of its open reports once and nothing else |
| CommunityReports.QueueMatchesTotals | src/admin-communities/admin-communities.service.ts:1675-1703 | queue length, overdue items and severity weights equal the open, overdue and load numbers |
| CommunityReports.ItemShows | src/admin-communities/admin-communities.service.ts:1694-1703 | what an item shows; the reporter's own words only to platform staff |
| CommunityReports.LoadIs | src/admin-communities/admin-communities-response.ts:177-196 | an emergency weighs 8, a high report 4, a medium one 2 and a low one 1 |
| ReportScope.CommunityOfIs | src/admin-communities/admin-communities.service.ts:1458-1561 | a report falls to a community in scope exactly by its slug or by content it holds |
| ReportScope.ScopeNeverMovesAShare | src/admin-communities/admin-communities.service.ts:1458-1561 | two scopes that hold a community give it the same reports, if no id has two homes |
| ReportScope.ScopeBlindIffOneHome | src/admin-communities/admin-communities.service.ts:1550-1558 | the list and a community's own page agree on every report exactly when no content id belongs to two communities |
| CommunityActivity.SelectionKeepsAges | src/admin-communities/admin-communities.service.ts:1394-1436 | the batched window query loses no row a sparkline counts |
| CommunityActivity.AuthorsSinceAre | src/admin-communities/admin-communities.service.ts:1296-1323 | the active authors are exactly those of a recent enough row |
| CommunityActivity.FilledIsTheSparkline | src/admin-communities/admin-communities.service.ts:1330-1361 | buckets filled newest first from the batched rows and turned around are the community's own sparkline |
| CommunityActivity.SparklineAddsUp | src/admin-communities/admin-communities.service.ts:1351-1361 | the eight buckets sum to the posts and replies aged 0 to under 56 days |
| CommunityActivity.ThisWeekIs | src/admin-communities/admin-communities.service.ts:1296-1310 | posts this week are the newest bucket, the ones exactly a week old and the ones dated ahead |
| CommunityDashboard.CommunityAggregates.AddToSparkline | src/admin-communities/admin-communities.service.ts:1351-1361 | one row is counted in its week, or not at all outside the eight |
| CommunityDashboard.CommunityAggregates.ReverseSparkline | src/admin-communities/admin-communities.service.ts:1330-1334 | the buckets are reversed in place |
| CommunityDashboard.AggregatesForMany | src/admin-communities/admin-communities.service.ts:1252-1346 | the batched pass gives each community in scope the numbers of its own definition |
| CommunityDashboard.NumbersIgnoreTheRestOfTheScope | src/admin-communities/admin-communities.service.ts:1252-1346 | adding communities to the scope changes none of one community's numbers |
| DashboardNumbers.PostsThisWeekAre | src/admin-communities/admin-communities.service.ts:1296-1310 | posts this week are the community's posts at most seven days old |
| DashboardNumbers.SparklineIs | src/admin-communities/admin-communities.service.ts:1330-1361 | each bar counts the posts and replies of its week |
| DashboardNumbers.ActiveAre | src/admin-communities/admin-communities.service.ts:1296-1323 | the active members are the different authors of posts and replies at most seven days old |
| DashboardNumbers.MembersAre | src/admin-communities/admin-communities.service.ts:1252-1296 | the members are the users who joined |
| DashboardNumbers.AgeIs | src/admin-communities/admin-communities.service.ts:1252-1296 | the age is whole days since the founding |
| DashboardNumbers.ReportTotalsAre | src/admin-communities/community-report-scope.ts:101-137 | all reports of the community, the open ones, the late ones and their weight, counted over the scan |
| CommunityHealth.ScoreIsTheMeanOfThree | src/admin-communities/admin-communities-response.ts:240-251 | the score is the rounded mean of the three measured signals; the missing one is skipped |
| CommunityHealth.ActivityIs | src/admin-communities/admin-communities-response.ts:204-211 | activity is the percentage of members active this week |
| CommunityHealth.ResolutionIs | src/admin-communities/admin-communities-response.ts:213-220 | resolution is the percentage of reports not open, 100 without reports |
| CommunityHealth.SafetyIs | src/admin-communities/admin-communities-response.ts:222-231 | safety is 100 less 500 for every unit of weight per member and 6 for every overdue report, as a percentage |
| CommunityHealth.ScoreIs | src/admin-communities/admin-communities-response.ts:240-251 | the score is the mean of the three signals to the nearest integer |
| CommunityHealth.ScoreIsPercentage | src/admin-communities/admin-communities-response.ts:201-251 | every score is 0 to 100 |
| CommunityHealth.MoreTroubleNeverScoresHigher | src/admin-communities/admin-communities-response.ts:201-251 | more open, late or severe reports never raise a score |
| CommunityHealth.ResolvingNeverLowersTheScore | src/admin-communities/admin-communities-response.ts:201-251 | closing any report never lowers its community's score |
| StorageErasure.MemberObjects.EraseUnreferenced | src/account/account-deletion-processor.service.ts:937-1004 | the batched loop removes exactly the objects of the specification, counts each fate, adds up to the listing, and leaves every live key in the bucket |
| StorageErasure.CountsConserveObjects | src/account/account-deletion-processor.service.ts:956-994 | deleted, retained and failed add up to the objects listed |
| StorageErasure.NothingLiveIsRemoved | src/account/account-deletion-processor.service.ts:966-994 | an object is removed exactly if its batch was resolved, nothing references it and its deletion worked |
| StorageErasure.LiveKeysSurvive | src/account/account-deletion-processor.service.ts:977-981 | no key a surviving row shows is removed |
| StorageErasure.ShownObjectsSurvive | src/account/account-deletion-processor.service.ts:960-981 | the same, by the answers the reference check gives each batch |
| StorageErasure.BatchStartIs | src/account/account-deletion-processor.service.ts:956-960 | the batch of an object starts at the last multiple of the batch size |
| StorageErasure.BatchSizeDoesNotMatter | src/account/account-deletion-processor.service.ts:960-965 | without degraded batches the batch size changes no fate |

## Left out

- Rows that other transactions insert or delete between two pages of one loop: the keyset loops of an erasure and an export run inside one transaction. The release loop is proved both alone and beside interference, which stops after some number of batches: with no end to new untied rows the loop need not end.
- Message and report ids are numbers with a spelling; the text of a uuid is its value and its casing.
- Hard deletion of messages, and an edit that was read before an erasure and saved after it.
- The order and batch limits in which the evidence sweep selects rows: its step takes any ids and re-checks the guard of its update. The purge of attachment bytes.
- Suspension deadlines: a lapsed suspension is a status moved by another writer.
- A member's pause, request and cancellation are each one atomic transaction in `MemberStatus`; the statements of a cancellation interleave in `DeletionProtocol`.
- The read of an open request before a new one is inserted is subsumed by the unique index that rejects the second.
- The reauthentication token, session revocation, notifications, event emission, audit rows, logging.
- Strings are sequences of Unicode characters rather than UTF-16 units: supplementary characters sort above U+E000 to U+FFFF where the code sorts them below, and lone surrogates do not occur.
- The text `String(value)` prints for a number and `JSON.stringify` for a payload are parameters; a bigint is a number, and a function or symbol an unprintable leaf.
- `EXPORT_CSV_CATEGORIES`, the upload-kind table and the map from storage keys to message ids are parameters.
- The archiver, streams and the events of `waitForEntry`, of which only the names are modelled: opening an object either succeeds or fails with a reason, and an object that fails half way through its body is not described.
- The id query and the visibility predicates of the reported conversations are given by their result, and conversation titles and attachments are not modelled.
- `clearUnmanagedFutureRunByLinks`, the attendee notices of a called-off gathering, and an erasure that stops between the handover and the series.
- Post, reply and photo ids are compared as text, so a report that spells a uuid in another case is unattributed, as it is in the code; the filter that keeps non-uuid subjects out of the queries is not modelled because it drops no match.
- `MAX_SCANNED_REPORTS` and `MAX_LISTED_COMMUNITIES`: the reports and communities given are those the queries returned.
- Posts and replies are counted by one method with a flag where the code has two loops, and the totals of `summariseReportsByCommunity` are values in a map rather than shared records.
- `activityLabelFor`, badge tones and the other presentation helpers of the dashboard, which would add easy members only.
- Health scores use exact real arithmetic instead of floating point.
- The media-reference resolver is a parameter: what it says of a batch is assumed true only in the lemmas that say so.
- The export contributors, moderation, tag-request, space-request and support-offer services, bots and the launched-feature registry.
