# Sahl, modelled and proved in Dafny

Sahl is a point-of-sale system whose tills keep selling while the network is down. Each till writes an
append-only, hash-chained log of events to its own disk, numbers its invoices in a second chain, rebuilds
everything it shows from that log, and later pushes it to a server. This project models the parts of that
design where a mistake would lose a sale, a coin or an invoice number, and proves what they promise.

`dafny verify dfyconfig.toml` checks all of it.

| file | what it models |
|---|---|
| Base, Sorting | results, machine ranges, the library sort |
| EventLog | sealing and verifying a device's event chain |
| SyncPlan, SyncProtocol | what the server stores of a pushed batch, and the protocol over a network that loses requests and replies |
| FiscalLedger | the invoice counter and chain |
| EventStore | the till's table: its own rows, pulled rows, constraints, the two orders it is read in |
| Shifts, SaleBook, InventoryBook, PurchaseOrder, Staff | the books a till keeps |
| TillBooks, Till | every action of a till on those books and its log; failed writes, pulls, restarts |
| Acceptance, Origins | exactly what a till accepts, and where everything in its table came from |
| Reload, Restart | whole-run results: what a restart rebuilds, and exactly when it refuses |
| Drawer, LiveSales | what a sibling's pulled events do to the drawer and to the sales shown |
| Invoices, TillSync | whole-run results: invoice numbers, sync |
| Terminal | the terminal as an object updated in place, proved against `Till` |
| Money, Allocation | rounding division, ratios, largest-remainder apportionment |
| Fefo | first-expired-first-out picking |
| Outliers, Oversell, MergeFolds | void outliers, oversold products, last-writer-wins and ticket contests |
| MoneyText, Cells, QrTlv | decimal printers and parser, delimited lines, the invoice QR |

## How to read it

- The digests are parameters: any function of the hashed fields, with no value where there is no canonical
  form. Nothing is assumed of them. Where a result needs a digest that tells inputs apart, its other
  conclusion is a concrete pair of different inputs with one digest.
- A sale, the catalogue and the floor plan are abstract deterministic machines, with an opening, a step that
  accepts or refuses, and totals that may not be computable. A refused step may leave marks on a sale, as a
  tender pushed before it is checked does.
- Time, fresh event ids and whether the disk or the database works are inputs of each step. A run is any
  sequence of steps.
- Methods with loops and classes with fields follow the source's own form. Each is proved equal to a function
  of its inputs or its old state, and the results are about that function. The whole-run results are about
  `Till.Run`, whose actions the methods of `Terminal` are proved equal to.
- Integers are unbounded; every 64-bit and 128-bit range the source relies on is written out.

## What the code does not do

These are promises in the code's own comments that turn out to have conditions. Each is stated with its exact
condition.

- A restart reads the log back by clock and event id (`store/mod.rs:353-360`), not by sequence. The invoice
  sequence survives a restart exactly when the invoice written last also has the greatest clock and id
  (`Invoices.RestartKeepsTheSequence`); where it does not, the next stored invoice repeats a number
  (`Invoices.NextCompletionTells`, and as a whole run `Invoices.CompletingInThePastRepeatsANumber`).
- A till that wrote everything itself, over any run, refuses to start exactly when a batch is moved, or a person
  changed, at a clock and id before its receipt or enrollment, or when the shift read last does not read as a
  shift: an opening first, a count before the close, the close last (`Restart.TillRefusesExactlyWhen`, for
  quantities that together stay in range). So one stock event with the clock set back stops any till
  (`Restart.MovedBeforeItsReceipt`), and so can a drawer event (`Restart.DrawerEventBeforeItsOpening`).
- A shift opened under the id of any earlier one is accepted, and stops the till from starting; with the clock in
  order, an opening under a new id never does (`Reload.ReusedShiftIdStopsTheTill`).
- The event chain moves before the write, so a failed write leaves it ahead of the disk: exactly when something
  was sealed and not everything could be sealed and stored (`Till.WhenATillFallsOutOfStep`). The store checks
  only the sequence, so every later write is refused until a restart, and nothing wrong is stored
  (`Till.AheadOfTheDiskIsFailStop`).
- The overlap of a retried batch is not verified by hash. A batch wholly inside what the server holds is
  answered by its device ids, first sequence and length alone (`SyncPlan.NoopExactlyWhen`). In a partial retry
  the hash of the last skipped event is compared as well, and nothing else of the skipped part is read
  (`SyncPlan.OnlyThisIsRead`), so an edit strictly inside the overlap goes unseen
  (`SyncPlan.EditBelowTheTip`). What is stored stays sound all the same (`SyncPlan.AcceptedBatchStaysSound`),
  and what is skipped is what is stored exactly when it verifies by itself (`SyncPlan.SkippedIsTheStored`).
- A fork is refused exactly when it reaches past the tip (`SyncPlan.ForkIsRefusedExactly`). Below it, a till
  restored from a backup that has written since is told that everything is stored, marks it, and nothing is
  (`SyncProtocol.RestoredTillMarksWhatIsNotStored`). The terminal's comparison of tips, which is there to notice
  a shortened log, never trips on any run of a chain (`SyncProtocol.NoAnswerTripsTheTest`,
  `SyncProtocol.TestTripsExactly`). Once the two logs differ, nothing the till sends changes what the server
  holds (`SyncProtocol.DivergedRunsAddNothing`).
- A restart takes the drawer from the shift events of every device. A running drawer is brought back exactly when
  the shift event read last belongs to it (`Drawer.OwnDrawerSurvivesExactlyWhen`), so one pulled opening takes
  its place (`Drawer.SiblingTakesTheDrawer`).
- A pull that breaks off after storing something leaves the sales shown stale exactly when what it stored changes
  some sale, and the same page delivered again does not help (`LiveSales.BrokenOffStaysStale`,
  `LiveSales.PulledSaleIsNotShown`).
- A batch with an expiry date leaves before one without, unless that date is the last moment there is; then the two
  count as equally dated (`Fefo.DatedBeforeUndated`).
- The price comparison of an order compares roundings: a line is flagged exactly when the sum of its rounded
  charges is not the rounding of the ordered price (`PurchaseOrder.FlaggedExactlyWhen`). Two honest halves can be
  flagged and a doubled price can pass (`PurchaseOrder.HonestHalvesAreFlagged`,
  `PurchaseOrder.DoubledPriceGoesUnseen`); with charges of whole minor units it is exact
  (`PurchaseOrder.ExactChargesFlaggedExactly`).
- A purchase receipt refused because its value overflows has already been counted
  (`PurchaseOrder.RefusalLeavesOrderAlone`).
- Dividing the most negative amount fails when one part would take all of it, which is not only when it is the
  one part (`Allocation.WhenOneTakesAll`).
- The check for negative prices looks at the front of the text only. An accepted text is read as a negative
  price exactly when a minus stands right after the point, only zeros stand before it, and some other digit
  behind it (`MoneyText.NegativeExactlyWhen`): 0.-5 is, 1.-5 is not (`MoneyText.MinusAfterThePoint`).
- The void scan reports everyone exactly when everyone has the sales and a voided line, and there is nobody to
  compare with or the multiple is zero (`Outliers.EveryoneExactlyWhen`, `Outliers.ZeroMultipleReportsEveryone`).

## Model

| member | source | states |
|---|---|---|
| EventLog.EventChain.Resume | crates/sahl-core/src/event/chain.rs:60-62 | a chain taken up from a tip owns that tip and that device |
| EventLog.EventChain.Append | crates/sahl-core/src/event/chain.rs:86-115 | a sealed event follows the old tip and becomes the new one; a foreign header, the end of the sequence space or a payload without canonical form leaves the tip alone |
| EventLog.CheckChain | crates/sahl-core/src/event/chain.rs:132-181 | the loop accepts exactly the runs that are chained event by event, returns where they end, and otherwise names the fault of the first event that does not follow a chained prefix |
| EventLog.FaultSays | crates/sahl-core/src/event/chain.rs:132-181 | each fault on the fields: another device, no sequence left, a sequence that is not the next, a link to another hash, a payload without canonical form or a digest that differs |
| EventLog.VerifiedMeansChained | crates/sahl-core/src/event/chain.rs:118-132 | the check as a function accepts exactly the chained runs, from any start |
| EventLog.GenesisCheckIsChained | crates/sahl-core/src/event/chain.rs:188-198 | a whole log passes exactly when it is chained from the genesis tip |
| EventLog.ChainedAt | crates/sahl-core/src/event/chain.rs:76-80 | in a chained run sequences count up without a gap, one device is named throughout, each event links to the one before and recomputes to its seal |
| EventLog.SameEndSameRun | crates/sahl-core/src/event/envelope.rs:138-153 | two chained runs of one length that end on one hash are equal event for event, wherever they start, or two inputs with one digest exist |
| EventLog.TipDeterminesHistory | crates/sahl-core/src/event/chain.rs:120-128 | two whole logs that verify and end at one tip are equal event for event, or two inputs with one digest exist |
| EventLog.TruncationMovesTheTip | crates/sahl-core/src/event/chain.rs:124-125 | a log cut short still verifies, but never to the tip of the whole one |
| EventLog.EditIsCaughtInPlace | crates/sahl-core/src/event/envelope.rs:138-153 | a change to any field under a kept seal fails verification, or breaks the digest |
| SyncPlan.PlanShape | crates/sahl-sync/src/plan.rs:74-90 | an accepted plan's two counts add up to the batch; with nothing new the tip stays; otherwise what is new is chained to it and the overlap ends on its hash |
| SyncPlan.RefusedByName | crates/sahl-sync/src/plan.rs:57-117 | a refused batch names another device, a start past the tip, or a last skipped hash other than the tip, each exactly as found |
| SyncPlan.AcceptedBatchStaysSound | crates/sahl-sync/src/plan.rs:83-117 | for any batch at all: what is stored after committing an accepted plan verifies from genesis to the reported tip with one device id, though a batch wholly inside the overlap is never hashed |
| SyncPlan.HonestSlicePlan | crates/sahl-sync/src/plan.rs:66-117 | a slice of the honest log is refused exactly when it starts past tip+1 (or nothing can follow the last sequence); otherwise the plan skips exactly what is stored and takes exactly the rest |
| SyncPlan.RetryIsANoop | crates/sahl-sync/src/plan.rs:36-38 | planning a committed batch again against its own tip skips the whole batch, exactly when that tip is below the last sequence number |
| SyncPlan.NoopRepeats | crates/sahl-sync/src/plan.rs:84-90 | a plan that takes nothing repeats itself |
| SyncPlan.NoopExactlyWhen | crates/sahl-sync/src/plan.rs:57-90 | a batch is answered as wholly stored exactly when it claims the device throughout and, by its first sequence and its length, ends at or below the tip |
| SyncPlan.ForkIsRefusedExactly | crates/sahl-sync/src/plan.rs:66-117 | of any verifying log, the prefix of the stored one or not, a slice is taken exactly when it leaves no gap and either ends at or below the tip or extends the very log that is stored, or the digest is broken |
| SyncPlan.OnlyThisIsRead | crates/sahl-sync/src/plan.rs:57-108 | of the skipped part only the device ids, the first sequence and, where something is new, the hash of its last event are read: batches alike in these are planned alike, up to the sequence named in a fork |
| SyncPlan.EditBelowTheTip | crates/sahl-sync/src/plan.rs:39-40 | an event of the overlap replaced on its way: a partial retry is planned as the true one exactly when the replacement names the device, keeps the sequence if it is first and the hash if it is last of the overlap |
| SyncPlan.SkippedIsTheStored | crates/sahl-sync/src/plan.rs:39-40 | the skipped part of an accepted batch that adds anything is what is stored exactly when it verifies by itself, or the digest is broken |
| SyncPlan.AcceptedMeetsTheTip | crates/sahl-sync/src/plan.rs:94-110 | an accepted slice of a sound log that adds anything carries the stored tip at the stored place |
| SyncProtocol.ServeKeepsSound | crates/sahl-server/src/sync/ingest.rs:92-183 | one request of any content keeps the stored log one verified chain in the device's scope, equal to the tip kept beside it, and never shortens it |
| SyncProtocol.AnyTrafficKeepsSound | crates/sahl-server/src/sync/ingest.rs:85-92 | the same after any sequence of requests |
| SyncProtocol.WriteKeepsInStep | crates/sahl-core/src/event/chain.rs:86-115 | a write extends the log without disturbing what both sides have agreed on |
| SyncProtocol.WriteAddsExactly | crates/sahl-core/src/event/chain.rs:86-115 | a write adds one event with this content, in the device's scope, at the end of the log, exactly when it can be sealed and stored; marks and server stay |
| SyncProtocol.HonestPush | crates/sahl-server/src/sync/ingest.rs:92-183 | a push of any slice succeeds exactly when it fits the batch limit, the device is not revoked, it leaves no gap and the database answers; the server then holds the log as far as either side had it |
| SyncProtocol.PushIsRefusedByName | crates/sahl-server/src/sync/ingest.rs:92-183 | a push is refused by the first reason that applies: too large, revoked, no plan, the first new event out of scope or beyond the column, the database |
| SyncProtocol.SendKeepsInStep | crates/sahl-terminal/src/sync/engine.rs:79-106 | a send of the stored log's own continuation, with or without an answer, keeps the server log a prefix and the marks behind it, and a delivered answer confirms all that was sent |
| SyncProtocol.SendMarksExactly | crates/sahl-terminal/src/sync/engine.rs:77-99 | the server serves the slice sent; an answer that arrives marks as far as its tip, unless that is below what was sent; an error or a lost answer marks nothing |
| SyncProtocol.TestTripsExactly | crates/sahl-terminal/src/sync/engine.rs:85-95 | for any accepted push, the test for a log cut short trips exactly when the batch by its first sequence and length ends at or below the tip while its last event lies above it |
| SyncProtocol.NoAnswerTripsTheTest | crates/sahl-terminal/src/sync/engine.rs:28-31 | no accepted push of a run of a chain trips it, whatever its history and whatever the server holds |
| SyncProtocol.PushOfAnyHistory | crates/sahl-server/src/sync/ingest.rs:92-183 | a push of a slice of any verifying log of the device, restored backups included, succeeds exactly when it fits the limit, the device is not revoked, the database answers, it leaves no gap, and it ends at or below the tip or extends the very log stored, or the digest is broken |
| SyncProtocol.RestoredTillMarksWhatIsNotStored | crates/sahl-terminal/src/sync/engine.rs:97-99 | an answered send below the tip stores nothing and marks all the till has up to the length of the stored log; what is marked is stored exactly when the two logs agree that far |
| SyncProtocol.DivergedRunsAddNothing | crates/sahl-sync/src/plan.rs:92-108 | once the two logs differ somewhere, no run of writes, sends, failures and retries changes what the server holds, or the digest is broken |
| SyncProtocol.EveryRunStaysInStep | crates/sahl-sync/src/plan.rs:30-40 | over any interleaving of writes, sends of any slice, database failures, lost replies and retries, the server log is a prefix of the device log and nothing unstored is marked |
| SyncProtocol.EveryRunFromEnrollmentIsSafe | crates/sahl-sync/src/plan.rs:30-40 | the same of every run that starts at enrollment, with nothing written or sent |
| SyncProtocol.RoundMakesProgress | crates/sahl-terminal/src/sync/engine.rs:77-98 | one round of the push loop never loses ground and, if delivered, confirms a whole batch or everything |
| SyncProtocol.DeliveredRoundsDrainTheQueue | crates/sahl-terminal/src/sync/engine.rs:68-106 | enough delivered rounds, with any failures between, leave both sides holding the same log with nothing pending |
| FiscalLedger.InvoiceCounter.Resume | crates/sahl-core/src/ledger/counter.rs:35-37 | a counter taken up where it stopped |
| FiscalLedger.InvoiceCounter.Next | crates/sahl-core/src/ledger/counter.rs:54-61 | the next number is one above the last; at the end of the range it is refused and nothing moves |
| FiscalLedger.FiscalChain.Resume | crates/sahl-core/src/ledger/chain.rs:89-94 | a sequence taken up from a tip |
| FiscalLedger.FiscalChain.Seal | crates/sahl-core/src/ledger/chain.rs:112-140 | a sealed invoice carries the device, sale and time it was asked for, continues the chain and becomes its tip; content without canonical form burns a number, an exhausted counter burns none |
| FiscalLedger.SealedSays | crates/sahl-core/src/ledger/chain.rs:112-140 | the seal names this device, the next number, the sale, the time and the last hash, and its hash is that of these and the content; it is made exactly when a number is left and there is a canonical form |
| FiscalLedger.InvoiceFaultSays | crates/sahl-core/src/ledger/chain.rs:186-231 | each fault of an invoice by its number, its link or its digest |
| FiscalLedger.VerifyInvoiceChain | crates/sahl-core/src/ledger/chain.rs:186-231 | the loop accepts exactly the gap-free chains, returns their last tip, and otherwise names the fault of the first invoice that does not continue one |
| FiscalLedger.InvoicesExtend | crates/sahl-core/src/ledger/chain.rs:178-182 | two gap-free runs that meet are one |
| FiscalLedger.FiscalTipDeterminesInvoices | crates/sahl-core/src/ledger/chain.rs:143-147 | two sequences from genesis that end at one tip are the same invoices with the same contents, or two inputs with one digest exist |
| SaleBook.Book.Of | crates/sahl-core/src/projection/book.rs:23-25 | a book holding the given sales |
| SaleBook.Book.Apply | crates/sahl-core/src/projection/book.rs:46-59 | an event touches its own sale only, opening it if it is the first |
| SaleBook.ReplayBook | crates/sahl-core/src/projection/book.rs:34-40 | the replaying loop builds exactly the book of the stream, or reports that some event was refused |
| SaleBook.ReplayIsSaleBySale | crates/sahl-core/src/projection/book.rs:27-40 | an interleaved stream replays exactly when every sale's own events do, and each sale in the book is the replay of its own events |
| SaleBook.InterleavingsAgree | crates/sahl-core/src/projection/book.rs:27-33 | two streams that agree sale by sale give equal books, or are both refused |
| SaleBook.LenientIsStrictWhenNothingIsRefused | crates/sahl-terminal/src/terminal.rs:201-208 | stepping over refusals, as a restart does, changes nothing when there are none |
| EventStore.EventStore.Open | crates/sahl-terminal/src/store/mod.rs:53-74 | a store over the rows it was left with |
| EventStore.EventStore.Tip | crates/sahl-terminal/src/store/mod.rs:92-116 | the greatest sequence of a device and its hash, genesis where there is none |
| EventStore.EventStore.Append | crates/sahl-terminal/src/store/mod.rs:134-188 | one event is added exactly when it takes the next place, fits the column, clashes with no id and no place, and the disk works; otherwise nothing changes |
| EventStore.AppendIsRefusedByName | crates/sahl-terminal/src/store/mod.rs:134-188 | why an event is not added: the place first, then the column, the constraints and the disk |
| EventStore.EventStore.AppendAll | crates/sahl-terminal/src/store/mod.rs:199-206 | all events in turn or none |
| EventStore.NothingWithoutTheDisk | crates/sahl-terminal/src/store/mod.rs:199-206 | where the disk fails nothing is stored, an empty batch included |
| EventStore.EventStore.InsertRemote | crates/sahl-terminal/src/store/mod.rs:269-305 | a pulled event is refused for a sequence beyond the column or a failed database, and otherwise stored unless its id or place is taken |
| EventStore.TipIsTheEnd | crates/sahl-terminal/src/store/mod.rs:81-90 | in a sound table the reported tip is the end of the device's own chain, whatever was pulled |
| EventStore.LoadAllIsTheLog | crates/sahl-terminal/src/store/mod.rs:208-218 | reading by sequence gives the own rows as they were written |
| EventStore.ReadBySequence | crates/sahl-terminal/src/store/mod.rs:208-218 | the check on load reads every own row in order of sequence, however the rows lie in the table |
| EventStore.ReadByClockThenId | crates/sahl-terminal/src/store/mod.rs:353-360 | of two events read on a restart the earlier happened no later, and at one time has the lesser id |
| EventStore.AppendKeepsSound | crates/sahl-terminal/src/store/mod.rs:118-125 | a stored event that follows the chain keeps the table sound, though neither hash nor link is checked |
| EventStore.InsertKeepsSound | crates/sahl-terminal/src/store/mod.rs:263-265 | a sibling's event leaves the own log as it was |
| EventStore.WritesKeepIdsDistinct | crates/sahl-terminal/src/store/schema.rs:12-40 | no write gives one event id to two rows |
| EventStore.RestartReadsInOrder | crates/sahl-terminal/src/store/mod.rs:353-360 | reading by clock and id gives the events in the order they were written exactly when each happened after the one before it, by the clock or at one time by the greater id |
| EventStore.ReadBackwards | crates/sahl-terminal/src/store/mod.rs:354-358 | two events written against the clock are read the other way round |
| EventStore.FollowingEventIsStored | crates/sahl-terminal/src/store/mod.rs:134-188 | an event that continues the own chain is stored exactly when its sequence fits, its id is new and the disk works; its place is never taken |
| EventStore.RedeliveryIsIgnored | crates/sahl-terminal/src/store/mod.rs:258-262 | a pulled event delivered again changes nothing |
| Shifts.ShiftKeepsItsRecord | crates/sahl-core/src/shift/state.rs:83-192 | a replayed shift keeps every count and movement in order, recounts included; no count is negative; it is closed exactly by its last event, and only after a count |
| Shifts.ShiftIsAsOpened | crates/sahl-core/src/shift/state.rs:93-122 | a replayed shift has the id, person, currency, float and time of its opening |
| Shifts.AppliesExactly | crates/sahl-core/src/shift/state.rs:125-192 | an event is taken exactly when it is of this shift, the shift is open, it is no opening, no negative count and no close before a count; each refusal says which |
| Shifts.AcceptsExactly | crates/sahl-terminal/src/terminal.rs:351-379 | the drawer takes an opening when no shift runs and otherwise what the running shift takes |
| Shifts.MirrorReadsBack | crates/sahl-terminal/src/terminal.rs:1477-1497 | a restart reads back the live drawer, a closed one as none |
| Shifts.AcceptKeepsMirror | crates/sahl-terminal/src/terminal.rs:357-378 | every accepted event keeps the live drawer equal to its logged shift, when a new shift takes a fresh id |
| Shifts.OnlyAFreshIdReadsBack | crates/sahl-terminal/src/terminal.rs:1482-1493 | with no shift running, an opening is accepted live and can be read back exactly when its id is that of no earlier shift; otherwise the replay reports a closed shift |
| Shifts.ShiftReplaysExactly | crates/sahl-core/src/shift/state.rs:83-192 | the events of one shift replay exactly when one opening comes first, no count is negative, and nothing follows a close, which follows a count |
| Shifts.DrawerReadsBackExactly | crates/sahl-terminal/src/terminal.rs:1482-1497 | the drawer is read back exactly when the events of the shift read last read so |
| Staff.Directory.Of | crates/sahl-core/src/staff/directory.rs:68-80 | a directory with the given members |
| Staff.Directory.Apply | crates/sahl-core/src/staff/directory.rs:98-146 | one event: the whole new directory, or the error and the directory exactly as it was |
| Staff.AppliesExactly | crates/sahl-core/src/staff/directory.rs:98-146 | taken exactly: an enrollment of someone new, or a change to someone known; the refusal names who |
| Staff.MemberIsItsEvents | crates/sahl-core/src/staff/directory.rs:82-146 | after any stream a member is who was enrolled, with the role, the PIN and the standing that were set last |
| TillBooks.AcceptReflects | crates/sahl-terminal/src/terminal.rs:307-540 | for every action: reading back the events it writes gathers exactly the books it adopts |
| Acceptance.SaleIsAcceptedExactly | crates/sahl-terminal/src/terminal.rs:307-342 | a sale event is accepted exactly when no other device holds its ticket, it being neither an opening nor a claim, and the sale takes it; that sale alone changes, and a held ticket is refused by its holder |
| Acceptance.CompletionIsAcceptedExactly | crates/sahl-terminal/src/terminal.rs:471-500 | a completion is accepted exactly when no other device holds the ticket, the sale takes it, it has totals and an invoice can be sealed; the first reason otherwise |
| Acceptance.CompletionIssuesWhatWasAsked | crates/sahl-terminal/src/terminal.rs:492-507 | an accepted completion writes its event and one invoice: of this sale, dated now, in the regime asked for, by that person, over the totals of the completed sale |
| Acceptance.OthersAreAcceptedExactly | crates/sahl-terminal/src/terminal.rs:351-540 | every other action is accepted exactly when its book takes it |
| Acceptance.OthersWriteTheirEvents | crates/sahl-terminal/src/terminal.rs:351-540 | every other action writes its own event; a delivery the order's and then the stock's |
| Acceptance.OthersAreRefusedByName | crates/sahl-terminal/src/terminal.rs:351-540 | a refusal is that of the book that refused |
| Acceptance.PurchaseIsAcceptedExactly | crates/sahl-terminal/src/terminal.rs:439-459 | a known order takes what it can apply, an unknown one a placement with lines |
| Acceptance.ReceiptIsAcceptedExactly | crates/sahl-terminal/src/terminal.rs:752-782 | a delivery is taken exactly when the order is known and both the order and the stock take it |
| TillBooks.CompletionReflects | crates/sahl-terminal/src/terminal.rs:471-521 | the same for a completed sale and its invoice |
| TillBooks.ReceiptReflects | crates/sahl-terminal/src/terminal.rs:752-782 | the same for a delivery written to the order and the stock |
| TillBooks.SettleReadsBack | crates/sahl-terminal/src/terminal.rs:276-300 | settling what the loop gathered gives the live books back: orders replayed one by one, a closed shift as none |
| Till.SealAllIsChained | crates/sahl-terminal/src/terminal.rs:509-514 | the events of one action continue the chain from the tip in memory, and it ends at them |
| Till.WriteKeepsLog | crates/sahl-terminal/src/terminal.rs:396-415 | a write adds exactly its events and adopts the books, or leaves both as they were; either way the log stays intact |
| Till.PerformKeepsLog | crates/sahl-terminal/src/terminal.rs:1-13 | every action, refused or not, keeps the log intact |
| Till.PulledKeepsLog | crates/sahl-terminal/src/sync/engine.rs:108-129 | pulling from siblings, broken off or not, leaves the own log alone |
| Till.LoadIsInStep | crates/sahl-terminal/src/terminal.rs:177-184 | a sound table never loads as corrupt, and a restart puts the chain back at its end |
| Till.CorruptExactlyWhen | crates/sahl-terminal/src/terminal.rs:177-184 | a restart reports a corrupt log exactly when the own events by sequence are not one chain from genesis |
| Till.AlteredRowStopsTheTill | crates/sahl-terminal/src/terminal.rs:175-184 | a row altered on the disk in any field under its old seal: the next restart reports a corrupt log, or the digest is broken |
| Till.EveryRunKeepsTheLog | crates/sahl-terminal/src/terminal.rs:160-184 | after any run of actions, refusals, failed writes, pulls and restarts the stored log is the device's unbroken chain and passes the check made on load |
| Till.NoRunEndsCorrupt | crates/sahl-terminal/src/terminal.rs:175-184 | no run ends with a restart that reports a corrupt log |
| Till.AheadOfTheDiskIsFailStop | crates/sahl-terminal/src/terminal.rs:333-341 | after a failed write no action changes the table or the books, until a restart |
| Till.AcceptedIsStoredExactly | crates/sahl-terminal/src/terminal.rs:3-13 | a till in step stores and adopts what it accepts exactly when everything has a canonical form and a sequence to seal it, the disk works, the ids used are new, and the sequences fit the column |
| Till.WriteIsRefusedByName | crates/sahl-terminal/src/terminal.rs:396-415 | what is not stored is refused by the chain where it could not be sealed and by the store where it could |
| Till.WhenATillFallsOutOfStep | crates/sahl-terminal/src/terminal.rs:509-516 | from a till in step, an action leaves the chain at the disk exactly when it was refused, nothing of it could be sealed, or all of it could be sealed and stored: a condition on the inputs alone |
| Till.PageAgainChangesNothing | crates/sahl-terminal/src/store/mod.rs:258-262 | the same pulled page again changes neither table nor books, unless the first pull broke off on the database and the second gets further |
| Origins.EveryOwnEventWasStored | crates/sahl-terminal/src/terminal.rs:396-415 | every own event of a reachable table was stored by one step of the run, at that step's time |
| Origins.EveryStoredSaleWasAllowed | crates/sahl-terminal/src/terminal.rs:307-342 | over any run: each stored own sale event was an opening or a claim, or met no other device holding the ticket at its time, and the sale took it |
| Origins.EveryStoredInvoiceWasAskedFor | crates/sahl-terminal/src/terminal.rs:471-507 | over any run: each stored own invoice is dated by the clock of its event, and is of the sale completed then, in the regime and by the person asked for, over the totals of that sale |
| Origins.EveryTableIsSound | crates/sahl-terminal/src/sync/engine.rs:108-129 | over any run: no row that was pulled and does not verify, no id and no place of a device twice |
| TillSync.EveryRunIsStamped | crates/sahl-terminal/src/terminal.rs:381-389 | every stored own event carries the device's scope and a sequence the database holds |
| TillSync.NothingIsTakenBack | crates/sahl-terminal/src/store/mod.rs:118-121 | an earlier log of a run is a prefix of every later one |
| TillSync.FacingIsInStep | crates/sahl-sync/src/plan.rs:30-44 | the log of any reachable till is one the sync results apply to |
| TillSync.EveryTillCatchesUp | crates/sahl-terminal/src/sync/engine.rs:68-106 | a till that has been through anything and a server that holds any part of its log end up equal after enough delivered rounds |
| Invoices.CompletionIssuesTheNext | crates/sahl-terminal/src/terminal.rs:492-507 | a completion issues one invoice, numbered one above the sequence it was accepted on |
| Invoices.AcceptedContinuesTheSequence | crates/sahl-terminal/src/terminal.rs:471-521 | every action leaves the sequence where its invoices end, under this device's name |
| Invoices.PerformKeepsFiscal | crates/sahl-terminal/src/terminal.rs:497-519 | refused completions and failed writes burn no number |
| Invoices.RestartFindsTheNewest | crates/sahl-terminal/src/terminal.rs:248-261 | a restart leaves the sequence at the newest own invoice exactly when that one also happened last |
| Invoices.RestartKeepsTheSequence | crates/sahl-terminal/src/terminal.rs:248-261 | a restart keeps the number sequence exactly under that condition, and otherwise falls back |
| Invoices.CompletingInThePast | crates/sahl-terminal/src/terminal.rs:471-521 | completing a sale at a time before a stored invoice is what breaks the condition |
| Invoices.NextCompletionTells | crates/sahl-terminal/src/terminal.rs:276-286 | after a restart, the next stored completion leaves the invoices gap-free exactly under that condition, and otherwise two stored invoices with one number |
| Invoices.CompletionStillLoads | crates/sahl-terminal/src/terminal.rs:201-208 | a completed sale never decides whether the till can be restarted |
| Invoices.CompletingInThePastRepeatsANumber | crates/sahl-terminal/src/terminal.rs:461-521 | the whole run: from any clean run that could be restarted, a completion dated before a stored invoice, a restart, which succeeds, and another stored completion end with two invoices of one number |
| Invoices.EveryRunIsGapFree | crates/sahl-terminal/src/terminal.rs:461-521 | over completions, refusals, failed writes, siblings' invoices and clean restarts the stored invoices are gap-free from genesis and the live sequence stands at the last |
| Invoices.NumbersAreOneToN | crates/sahl-core/src/ledger/counter.rs:10-16 | the stored invoices are numbered 1 to n |
| Invoices.NoRunLeavesALoneInvoice | crates/sahl-terminal/src/terminal.rs:463-466 | no run stores an invoice without the event of the sale it settles right before it |
| Reload.RestartBringsItBack | crates/sahl-terminal/src/terminal.rs:177-301 | with the clock in order a restart rebuilds the running till: same books, chain at the disk, closed shift put away |
| Reload.ReloadRefinesLive | crates/sahl-terminal/src/terminal.rs:160-342 | after any run of recorded events, failed writes included, a restart succeeds and rebuilds the live books |
| Reload.QuietRunsNeverStop | crates/sahl-terminal/src/terminal.rs:177-301 | such a run is never stopped by one of its restarts |
| Reload.ClockSetBackStopsTheTill | crates/sahl-terminal/src/terminal.rs:214-218 | the shortest such run and its error: from first boot, a batch received and then issued from at an earlier time, both stored, and the restart fails with an unknown batch |
| Reload.ReusedShiftIdStopsTheTill | crates/sahl-terminal/src/terminal.rs:1482-1493 | in any till that ran quietly, with no shift running and the clock in order, a stored opening lets the next restart succeed exactly when its id is that of no earlier shift, and otherwise stops it as a closed shift |
| Restart.LoadsExactlyWhen | crates/sahl-terminal/src/terminal.rs:177-301 | any sound table whose quantities together are in range loads exactly when, read by the clock, movements are signed right, no batch or person is made twice or used before it is made, and the shift read last reads as a shift |
| Restart.OnlyEarlyUseSpoils | crates/sahl-terminal/src/store/mod.rs:353-360 | where the log makes things once and then uses them, the reading does so too exactly when nothing is used at a key before the one it was made at |
| Restart.RefusesExactlyWhen | crates/sahl-terminal/src/terminal.rs:177-301 | a till with nothing pulled whose own log gathers refuses to start exactly when a batch is moved or a person changed at a key before the receipt or enrollment, or the shift read last does not read as a shift |
| Restart.TillRefusesExactlyWhen | crates/sahl-terminal/src/terminal.rs:177-301 | any run without pulls, whatever its clock, disk and shift ids did and however often it restarted: the next restart refuses exactly when a batch is moved or a person changed at a key before the receipt or enrollment, or the shift read last does not read as a shift |
| Restart.MovedBeforeItsReceipt | crates/sahl-terminal/src/terminal.rs:214-218 | in any reachable till, stock moved and stored at a time before the receipt of its batch stops the next restart |
| Restart.DrawerEventBeforeItsOpening | crates/sahl-terminal/src/terminal.rs:1482-1497 | a drawer event dated before the opening of its shift stops the restart where that opening is the last shift event read |
| Restart.OthersDecideNothing | crates/sahl-terminal/src/terminal.rs:201-274 | sales, invoices, the catalogue, the floor, the outlet and orders never decide whether a table loads, whatever they hold and whenever they happened |
| Drawer.DrawerIsTheLastRead | crates/sahl-terminal/src/terminal.rs:1477-1497 | the drawer after a restart is of the shift that the shift event read last, of any device, belongs to |
| Drawer.OwnDrawerSurvivesExactlyWhen | crates/sahl-terminal/src/terminal.rs:223-227 | a running drawer whose shift no other device used, its events in clock order, is brought back by a restart exactly when the shift event read last belongs to it |
| Drawer.SiblingTakesTheDrawer | crates/sahl-terminal/src/terminal.rs:223-227 | one pulled opening, later than every shift event held and of a new shift, is enough: the restart succeeds and its drawer is that shift |
| LiveSales.RestartIsCurrent | crates/sahl-terminal/src/terminal.rs:201-208 | the sales after a restart are those the whole table gives |
| LiveSales.ActionIsCurrentExactly | crates/sahl-terminal/src/terminal.rs:333-341 | a stored action keeps the live sales those of the table exactly when its events make the same sales where the clock puts them as at the end |
| LiveSales.BrokenOffStaysStale | crates/sahl-terminal/src/terminal.rs:1382-1401 | after a page that broke off and was delivered again with nothing new in it, the live sales are those of the table exactly when what was stored changes no sale |
| LiveSales.PulledSaleIsNotShown | crates/sahl-terminal/src/terminal.rs:1382-1401 | the witness: a sale opened by a sibling, stored by a pull that failed on its cursor, is held and not shown, and stays so however often the page is delivered again |
| LiveSales.OrderlyRunsStayCurrent | crates/sahl-terminal/src/terminal.rs:1373-1377 | over any run whose pages are finished or change no sale, and whose actions happened last, the live sales are those of the table |
| Terminal.Terminal.Over | crates/sahl-terminal/src/terminal.rs:276-300 | a terminal over a store, at a tip, with given books |
| Terminal.Terminal.Seal | crates/sahl-terminal/src/terminal.rs:396-415 | one event sealed and stored: the state a write leads to, the tip ahead where the store refuses |
| Terminal.Terminal.SealBoth | crates/sahl-terminal/src/terminal.rs:509-516 | two events sealed and stored together |
| Terminal.Terminal.RecordSale | crates/sahl-terminal/src/terminal.rs:307-342 | the whole new state is the one the action leads to, on success, refusal and failed write |
| Terminal.Terminal.TryCompletion | crates/sahl-terminal/src/terminal.rs:478-500 | the sale is completed on a copy and its invoice sealed on a copy; neither original moves |
| Terminal.Terminal.CompleteSale | crates/sahl-terminal/src/terminal.rs:471-521 | the whole new state is the one the action leads to; the live sequence stands at the returned invoice |
| Terminal.Terminal.RecordShift | crates/sahl-terminal/src/terminal.rs:351-379 | the whole new state is the one the action leads to |
| Terminal.Terminal.RecordStock | crates/sahl-terminal/src/terminal.rs:421-433 | the whole new state is the one the action leads to |
| Terminal.Terminal.RecordStaff | crates/sahl-terminal/src/terminal.rs:802-814 | the whole new state is the one the action leads to |
| Terminal.Terminal.RecordPurchase | crates/sahl-terminal/src/terminal.rs:439-459 | the whole new state is the one the action leads to |
| Terminal.Terminal.RecordReceipt | crates/sahl-terminal/src/terminal.rs:752-782 | the whole new state is the one the action leads to |
| Terminal.Terminal.RecordCatalogue | crates/sahl-terminal/src/terminal.rs:886-898 | the whole new state is the one the action leads to |
| Terminal.Terminal.RecordFloor | crates/sahl-terminal/src/terminal.rs:1172-1184 | the whole new state is the one the action leads to |
| Terminal.Terminal.RecordOutlet | crates/sahl-terminal/src/terminal.rs:527-540 | the whole new state is the one the action leads to |
| Terminal.Terminal.Sync | crates/sahl-terminal/src/terminal.rs:1382-1401 | a round whose push half fails changes nothing; otherwise pulled events are stored up to the first that does not verify or cannot be stored, and the sales are rebuilt only if the page was done with and something was new |
| Terminal.TakeIn | crates/sahl-terminal/src/terminal.rs:201-274 | one turn of the loading loop on books changed in place is one turn on values |
| Terminal.GatherInPlace | crates/sahl-terminal/src/terminal.rs:188-274 | the loading loop over books filled in place gathers what the log says, or stops at the first stock or staff event that does not apply |
| Terminal.LoadTerminal | crates/sahl-terminal/src/terminal.rs:177-301 | the loaded terminal is the state the table leads to, with the same error where there is none |
| Money.DivideRoundedIsRounding | crates/sahl-core/src/money/rounding.rs:30-82 | the result is the nearest quotient in the asked-for direction: half away from zero, half to even, or toward zero |
| Money.RoundingIsUnique | crates/sahl-core/src/money/rounding.rs:7-20 | a fraction has one rounding in each mode |
| Money.DivideRoundedTotal | crates/sahl-core/src/money/rounding.rs:22-29 | no product of two 64-bit values over a non-zero 64-bit divisor overflows |
| Money.RoundingIsMirrored | crates/sahl-core/src/money/rounding.rs:50-56 | negating the numerator negates the result, errors included |
| Money.MulRatioExact | crates/sahl-core/src/money/amount.rs:172-187 | a zero denominator is refused as such and nothing else is; otherwise the exact product has a rounding, which is the answer where it fits and an overflow exactly where it does not |
| Money.MulRatioIsRounding | crates/sahl-core/src/money/amount.rs:160-171 | an accepted result is the exact rounding, in the same currency |
| Allocation.TotalWeight | crates/sahl-core/src/money/amount.rs:224-230 | the weights add up exactly within 128 bits |
| Allocation.ProductFits | crates/sahl-core/src/money/amount.rs:240-242 | no product of a magnitude and a weight leaves 128 bits |
| Allocation.Truncate | crates/sahl-core/src/money/amount.rs:237-253 | each part starts with its truncated share and keeps what was discarded |
| Allocation.LeftoverIsSmall | crates/sahl-core/src/money/amount.rs:255-265 | the leftover units are what the discarded parts make up, fewer than the parts |
| Allocation.RankedMeans | crates/sahl-core/src/money/amount.rs:267-272 | the index order is a permutation, larger discarded parts first, ties by position |
| Allocation.HandOut | crates/sahl-core/src/money/amount.rs:266-278 | each of the first places gets one unit more in place, and they are the largest discarded parts |
| Allocation.Allocate | crates/sahl-core/src/money/amount.rs:219-295 | fails only for weights that add up to nothing, or for the most negative amount where one part would take it all; otherwise every part is its floor or one more, exactly adding up, extras to the largest remainders |
| Allocation.WhenOneTakesAll | crates/sahl-core/src/money/amount.rs:283-284 | the overflow condition on the weights: all other weights zero, or the largest weight of all before a single unit |
| Allocation.PartsAddUp | crates/sahl-core/src/money/amount.rs:203-205 | the parts always add up to exactly the amount |
| Allocation.AllocationIsUnique | crates/sahl-core/src/money/amount.rs:213-214 | there is only one such division, so terminal and server agree |
| Allocation.AllocationIsMirrored | crates/sahl-core/src/money/amount.rs:232-235 | the negated amount divides into the negated parts |
| Allocation.ExactShareGetsNoMore | crates/sahl-core/src/money/amount.rs:203-205 | a part whose share is exact gets no extra unit; a zero weight gets nothing |
| Allocation.LargerWeightNotLess | crates/sahl-core/src/money/amount.rs:203-205 | a larger weight never gets a smaller magnitude |
| Allocation.SplitIsEven | crates/sahl-core/src/money/amount.rs:297-301 | equal weights differ by at most one unit, larger first |
| Allocation.Split | crates/sahl-core/src/money/amount.rs:303-308 | an even split fails only for no parts, or one part of the most negative amount; its parts add up and differ by at most one |
| PurchaseOrder.PurchaseOrder.Of | crates/sahl-core/src/purchasing/order.rs:104-150 | an order with the given progress |
| PurchaseOrder.PurchaseOrder.Apply | crates/sahl-core/src/purchasing/order.rs:162-209 | one event: the order after it and why it was refused |
| PurchaseOrder.AppliesExactly | crates/sahl-core/src/purchasing/order.rs:162-209 | an event is taken exactly when the order is open and it is a close, or a positive receipt on one of its lines whose quantity and value fit, in the currency of the line; each refusal says which |
| PurchaseOrder.ReceivesExactly | crates/sahl-core/src/purchasing/order.rs:162-209 | a receipt that is taken adds its quantity and its charge to its line |
| PurchaseOrder.OrderIsItsEvents | crates/sahl-core/src/purchasing/order.rs:107-160 | an order that replays has the id, the supplier, the time and the lines it was placed with, and is closed exactly when its last event closes it, for that reason |
| PurchaseOrder.LinesAreThePlaced | crates/sahl-core/src/purchasing/order.rs:107-160 | the lines of a placed order are the last placed under each id, with nothing received, in their own currency |
| PurchaseOrder.PurchaseOrder.Status | crates/sahl-core/src/purchasing/order.rs:215-234 | settled, full, part or nothing received, as statements about all lines; fails exactly where some line's outstanding quantity does not fit |
| PurchaseOrder.StatusIsByDeliveries | crates/sahl-core/src/purchasing/order.rs:215-237 | the status of an order by its events: how it was closed, or else whether every line, no line or some line has been delivered; an overflow exactly where a line ordered below zero leaves the range |
| PurchaseOrder.PurchaseOrder.PriceDiscrepancies | crates/sahl-core/src/purchasing/order.rs:281-293 | exactly the flagged lines in id order; fails exactly where a line has no ordered price to compare with |
| PurchaseOrder.RefusalLeavesOrderAlone | crates/sahl-core/src/purchasing/order.rs:196-203 | a refused event changes nothing, except a receipt whose quantity was counted before its value overflowed |
| PurchaseOrder.LinesAreTheirDeliveries | crates/sahl-core/src/purchasing/order.rs:107-156 | in an order that replays each line is what its own deliveries make of it |
| PurchaseOrder.ExtendIsClose | crates/sahl-core/src/purchasing/order.rs:19-21 | an extended cost is within half a minor unit of the exact one, and exact for whole ones |
| PurchaseOrder.ReceivedValueDrift | crates/sahl-core/src/purchasing/order.rs:196-203 | each receipt adds at most half a minor unit of drift |
| PurchaseOrder.PartDeliveriesDriftByHalves | crates/sahl-core/src/purchasing/order.rs:281-293 | n receipts at the ordered cost leave the value within (n+1)/2 minor units of the extended whole |
| PurchaseOrder.FlaggedExactlyWhen | crates/sahl-core/src/purchasing/order.rs:281-293 | a line is flagged exactly when the sum of its charges, each rounded by itself, is not the rounding of the ordered price of everything received |
| PurchaseOrder.HonestHalvesAreFlagged | crates/sahl-core/src/purchasing/order.rs:275-293 | two halves of a unit at the ordered price of one minor unit are flagged |
| PurchaseOrder.DoubledPriceGoesUnseen | crates/sahl-core/src/purchasing/order.rs:275-293 | half a unit at twice the ordered price of one minor unit is not |
| PurchaseOrder.ExactChargesFlaggedExactly | crates/sahl-core/src/purchasing/order.rs:281-293 | where each charge and the ordered price of everything received are whole minor units, a line is flagged exactly when the sum paid differs from that price |
| PurchaseOrder.HonestExactChargesPass | crates/sahl-core/src/purchasing/order.rs:275-293 | deliveries at the ordered price whose charges are whole minor units are never flagged |
| PurchaseOrder.WholeUnitsFlaggedExactly | crates/sahl-core/src/purchasing/order.rs:281-293 | for whole-unit receipts a line is flagged exactly when the sum paid differs from cost times quantity |
| Fefo.PickFefo | crates/sahl-core/src/inventory/ledger.rs:70-107 | the method picks what the specification says, and, for distinct batches, stock as `PickIsTheFefoPick` describes it |
| Fefo.DrawDown | crates/sahl-core/src/inventory/ledger.rs:87-106 | the loop draws each batch down in turn and leaves what is short |
| Fefo.PickIsTheFefoPick | crates/sahl-core/src/inventory/ledger.rs:58-67 | for distinct batches a pick is the one returned exactly when each part comes from a batch with stock and no expiry date reached; of two such batches the one with the earlier date, then the earlier arrival, then the lesser id comes first and is emptied first; and nothing is left wanted while such stock is left |
| Fefo.ShortfallIsWhatIsMissing | crates/sahl-core/src/inventory/ledger.rs:28-35 | the shortfall is what is wanted beyond the stock without an expiry date or before it, and the checked total of a pick never overflows |
| Fefo.NothingExpiredIsPicked | crates/sahl-core/src/inventory/ledger.rs:60-63 | each allocation comes from a batch that has no expiry date or one later than now, and takes no more than it holds |
| Fefo.KeysAreFields | crates/sahl-core/src/inventory/batch.rs:52-64 | the sort key orders by expiry date, undated last, then arrival, then id; what the pick filters on is the date alone and stock on hand |
| Fefo.DatedBeforeUndated | crates/sahl-core/src/inventory/batch.rs:52-56 | a dated batch goes before an undated one exactly when its date is not the last moment there is, or it arrived first |
| Fefo.NothingWantedNothingPicked | crates/sahl-core/src/inventory/ledger.rs:70-80 | nothing is picked and nothing is short exactly when nothing is wanted |
| Fefo.PickIgnoresOrder | crates/sahl-core/src/inventory/batch.rs:51-56 | any arrangement of the same levels gives the same pick |
| InventoryBook.InventoryBook.Of | crates/sahl-core/src/inventory/book.rs:58-62 | a book over the given state |
| InventoryBook.InventoryBook.Apply | crates/sahl-core/src/inventory/book.rs:80-170 | one event: the whole new state, or the first error and the book exactly as it was |
| InventoryBook.ReceiptIsFiled | crates/sahl-core/src/inventory/book.rs:82-117 | a delivery files its batch with its product, lot, date, quantity and cost, and touches nothing else |
| InventoryBook.MovementIsExact | crates/sahl-core/src/inventory/book.rs:119-136 | an issue or a return moves its batch by exactly its quantity and nothing else |
| InventoryBook.CountStands | crates/sahl-core/src/inventory/book.rs:138-166 | after a count the batch holds what was counted, nothing else moves, and one variance is kept, with what was expected and the difference, exactly where they differ |
| InventoryBook.AppliesExactly | crates/sahl-core/src/inventory/book.rs:80-184 | what is taken, exactly, and what each refusal says |
| InventoryBook.EveryReplayHolds | crates/sahl-core/src/inventory/book.rs:80-170 | after any stream a batch holds its last count, or its delivery, and what moved since |
| InventoryBook.LastCountStands | crates/sahl-core/src/inventory/book.rs:138-166 | after its last count a batch holds what was counted plus the movements after it, whatever came before |
| InventoryBook.EveryDisagreementIsKept | crates/sahl-core/src/inventory/book.rs:151-165 | the variances are the disagreements of the stream, all of them, in order |
| InventoryBook.BatchIsItsDelivery | crates/sahl-core/src/inventory/book.rs:103-116 | a batch stays what its delivery said, at the cost it came at, whatever follows |
| InventoryBook.ReplayBook | crates/sahl-core/src/inventory/book.rs:68-74 | the replaying loop builds the state of the stream or reports its first error |
| InventoryBook.StockIsConserved | crates/sahl-core/src/inventory/book.rs:119-166 | after any run a batch holds what was received and returned less what was issued, plus every disagreement a count recorded |
| InventoryBook.EveryReplayIsWellFiled | crates/sahl-core/src/inventory/book.rs:103-116 | every batch is filed under its own id with a cost, and every recorded variance is a real one |
| InventoryBook.ForProductIsDistinct | crates/sahl-core/src/inventory/book.rs:225-234 | a product's listing never repeats a batch |
| InventoryBook.ForProductIsExactly | crates/sahl-core/src/inventory/book.rs:223-234 | the listing has every batch of the product and no other, those that leave first in front |
| InventoryBook.PickIsIssuable | crates/sahl-core/src/inventory/book.rs:223-234 | a pick never takes more than a batch holds nor names one twice |
| InventoryBook.IssuingAPick | crates/sahl-core/src/inventory/book.rs:119-128 | issuing every allocation of a pick succeeds, lowers the product by exactly what was taken, changes no other product, and drives no picked batch negative |
| Outliers.StandsOutIsExact | crates/sahl-core/src/anomaly/scan.rs:306-317 | saturating the products never changes the verdict: the rates are compared exactly |
| Outliers.TallyUp | crates/sahl-core/src/anomaly/scan.rs:177-193 | each person's tally and the outlet's are the exact counts, held at the end of their ranges |
| Outliers.CountsAreSums | crates/sahl-core/src/anomaly/scan.rs:177-193 | the counts are sums over the sales, of those the person opened or of all |
| Outliers.VoidOutliers | crates/sahl-core/src/anomaly/scan.rs:177-222 | exactly the people whose tally stands out are reported, in id order, each with their voided lines |
| Outliers.PeopleAddUp | crates/sahl-core/src/anomaly/scan.rs:186-192 | people's counts add up to the outlet's |
| Outliers.NeverEveryone | crates/sahl-core/src/anomaly/scan.rs:119-124 | with a multiple of at least one, unsaturated counts and two people or more, the scan never reports everyone |
| Outliers.EveryoneExactlyWhen | crates/sahl-core/src/anomaly/scan.rs:306-317 | within the counters, everyone is reported exactly when everyone has the minimum of sales, a voided line and a line, and the multiple is zero or there is at most one person |
| MoneyText.CutIsDivision | crates/sahl-escpos/src/receipt.rs:84-89 | cutting the padded digits is dividing by the power of ten |
| MoneyText.PrintersAgree | crates/sahl-fiscal/src/zatca.rs:249-263 | the receipt's text and the fiscal text are the same for every amount and number of places |
| MoneyText.TwoDecimals | crates/sahl-escpos/src/receipt.rs:79-97 | in every currency the last two digits stand behind the point and the rest in front of it |
| MoneyText.NegativeIsAMinusInFront | crates/sahl-escpos/src/receipt.rs:79-97 | a negative amount is printed as a minus and then the text of the amount without it |
| MoneyText.PrintedReadsBack | crates/sahl-core/src/catalogue/import.rs:267-314 | a printed amount that is not negative parses to exactly itself |
| MoneyText.PrintedNegativeIsRefused | crates/sahl-core/src/catalogue/import.rs:302-306 | a printed negative amount is refused |
| MoneyText.ThreeTextsAgree | crates/sahl-escpos/src/receipt.rs:79-97 | for every amount of every currency the printers agree, and the parser returns it exactly when it is not negative |
| MoneyText.TextIdentifiesTheAmount | crates/sahl-escpos/src/receipt.rs:75-79 | no two non-negative amounts share a text |
| MoneyText.SymbolsAreReadOver | crates/sahl-core/src/catalogue/import.rs:267-277 | a character that is no digit, point or minus changes nothing, wherever it stands |
| MoneyText.ParsesExactly | crates/sahl-core/src/catalogue/import.rs:267-314 | a text is read exactly when, symbols apart, there are digits before the first point, at most as many places behind it as the currency has, and all of it fits; it is read as those units and that fraction |
| MoneyText.RefusedByName | crates/sahl-core/src/catalogue/import.rs:267-314 | what each refusal of a text says |
| MoneyText.NegativeExactlyWhen | crates/sahl-core/src/catalogue/import.rs:295-306 | an accepted text is read as a negative price exactly when a minus stands right after the point with nothing but zeros before it and a digit other than zero behind it |
| MoneyText.MinusAfterThePoint | crates/sahl-core/src/catalogue/import.rs:295-306 | 0.-5 is read as five hundredths below zero, 1.-5 as ninety-five hundredths |
| Cells.Split | crates/sahl-core/src/catalogue/import.rs:247-264 | the cells are the stretches of the line between the delimiters outside quotes, all of them in order, each without its quotes and trimmed |
| Cells.SplitReadsBack | crates/sahl-core/src/catalogue/import.rs:243-247 | a line of cells each written plain or in quotes, in any mixture, is cut back into those cells, trimmed, delimiters inside quotes included |
| Cells.SplitIsUnique | crates/sahl-core/src/catalogue/import.rs:247-264 | a line is cut in one way only |
| Cells.TrimMeans | crates/sahl-core/src/catalogue/import.rs:252-263 | a trimmed cell is the text without the spaces at its two ends, which are all of them |
| QrTlv.QrPayload | crates/sahl-fiscal/src/zatca.rs:180-207 | refuses a time without a calendar text exactly when the two names before it fit; succeeds exactly when every field fits and the time has a text; the result then decodes to tags 1 to 5 with the original values |
| QrTlv.PushFailsOnLongFields | crates/sahl-fiscal/src/zatca.rs:214-227 | a run of triplets is refused exactly when some value does not fit its length byte |
| QrTlv.DecodeReadsBack | crates/sahl-fiscal/src/zatca.rs:351-364 | decoding consumes every byte and returns every tag and value |
| QrTlv.Base64ReadsBack | crates/sahl-fiscal/src/zatca.rs:206 | base64 decodes to the bytes it encoded |
| QrTlv.SymbolsInOrder | crates/sahl-fiscal/src/zatca.rs:206 | the symbols are the standard ones in their order |
| QrTlv.KnownAnswers | crates/sahl-fiscal/src/zatca.rs:206 | the test vectors of section 10 of RFC 4648 |
| QrTlv.PayloadIdentifiesTheFields | crates/sahl-fiscal/src/zatca.rs:175-180 | two field lists with one printed payload are the same |
| Oversell.Gather | crates/sahl-core/src/policy/stock.rs:116-128 | one pass knows each product's level and outward devices, and stops exactly where a level overflows |
| Oversell.LevelIsNet | crates/sahl-core/src/policy/stock.rs:116-128 | a level is the sum of what moved of the product, and overflows exactly where that sum leaves the range on the way |
| Oversell.ReportIsOnMovements | crates/sahl-core/src/policy/stock.rs:130-143 | a report on the movements themselves: the net is below zero, the shortfall is what is missing, and the devices are those that took some out |
| Oversell.DetectOversells | crates/sahl-core/src/policy/stock.rs:110-144 | fails exactly when some product's own level does; otherwise lists, in order, exactly the products below zero with their shortfall and their sorted, duplicate-free outward devices |
| Oversell.SortedListIsAscending | crates/sahl-core/src/policy/stock.rs:136 | sorting the list of devices seen walks the set of outward devices |
| Oversell.ShortfallIsTheLevelNegated | crates/sahl-core/src/policy/stock.rs:139 | a shortfall is the negated level for every level but the most negative one |
| MergeFolds.LatestPerProduct | crates/sahl-core/src/policy/catalogue.rs:48-61 | the map holds, for each product edited, the fold of that product's edits |
| MergeFolds.WinnerIsGreatest | crates/sahl-core/src/policy/catalogue.rs:23-41 | a winner is an edit of its product that no other outranks by sequence, then device |
| MergeFolds.OrderIsIrrelevantIff | crates/sahl-core/src/policy/catalogue.rs:25-27 | a fold ends at one winner in every arrival order exactly when no two different records tie for the top |
| MergeFolds.WinnersIgnoreOrder | crates/sahl-core/src/policy/catalogue.rs:43-61 | without such ties every arrangement of the edits gives the same map |
| MergeFolds.PagesMerge | crates/sahl-core/src/policy/catalogue.rs:43-61 | pages folded apart and resolved against each other are the pages folded together |
| MergeFolds.DistinctPlacesHaveOneTop | crates/sahl-core/src/policy/catalogue.rs:25-27 | a server that never gives one place twice rules ties out |
| MergeFolds.RefusedWhileActive | crates/sahl-core/src/policy/lease.rs:108-123 | a device is refused exactly while another holds the ticket and was active within the timeout, whichever clock is ahead; what it is told otherwise depends only on the holder and the idle time |
| MergeFolds.SettleContest | crates/sahl-core/src/policy/lease.rs:138-150 | claims settled one after another give their fold |
| MergeFolds.ContestIsSettledAlike | crates/sahl-core/src/policy/lease.rs:125-137 | the earliest claim wins, and every device that sees the same claims names it, when time and holder identify a claim |

## Left out

- SHA-256, the canonical JSON bytes and UUID generation: digests are parameters and ids are numbers.
- The inside of a sale, the catalogue and the floor plan: abstract machines, so their own rules are not stated.
- Checking a PIN, sessions and who may approve what: a PIN's hash is an opaque text of the staff directory.
- The tax engine, fiscal documents, receipts, kitchen tickets, transfers, scale barcodes: not modelled.
- The server's database and transport: a push or a write succeeds or fails as a whole, by an input of the step.
- The pull cursor, `synced_at` and `server_seq` columns of the till's table: they do not affect what is proved here;
  the marks a till keeps on what was confirmed are in `SyncProtocol`.
- A sync round is modelled as its two halves, a push in `SyncProtocol` and a pull in `Till`.
- PurchaseOrder: the reference, expected date and buyer of an order, and its totals over all lines.
- Shifts: the reason and note of a cash movement, and the drawer report.
- InventoryBook: supplier, reasons, sale references and the person on a movement.
- Outliers: discount outliers, self-approvals and near-limit actions; the comparison they share is covered.
- Fefo: `expired` and `expiring_soon`, which are filters over the same key, and the checked totals
  `total_on_hand` and `sellable_on_hand`, which may overflow on the way to a sum that fits.
- Cells: header recognition, units and VAT columns, and the row loop of the importer.
- QrTlv: which times have a calendar text, and what it is, is a library's answer and a parameter.
- Oversell: the check of a single proposed sale.
- Reload.ReloadRefinesLive: one direction, from the clock in order, because the sale is an abstract machine and two
  orders of its events may agree; when a restart succeeds at all is stated both ways, in `Restart`. Runs without
  pulled events: books other than the sales leave a sibling's events out until a restart, and what the restart
  then makes of the drawer and of the sales is in `Drawer` and `LiveSales`.
- Restart.TillRefusesExactlyWhen: quantities that together leave the 64-bit range are not covered, where a level can
  overflow in one order and not in another; what loads has read through all the same (`Restart.LoadedReadThrough`).
- Terminal.Terminal.Sync: whether the push half went through is an input; what it sends and marks is in
  `SyncProtocol`, for a till joined to it in `TillSync`.
- MergeFolds.ContestIsSettledAlike: claims of one device at one time that differ in their last activity are not
  told apart by the rule, so it is stated for claims that time and holder identify.
