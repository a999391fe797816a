# Verified model of the hotel backend's core

This project models, in Dafny, the parts of a hotel management backend where a
mistake would be silent: the order tenant tables are restored in and the copy a
restore makes, the folio ledger with its moves, corrections, refunds, nights and
invoices, loyalty points, webhook delivery, two-step sign-in, and sessions.
`dafny verify dfyconfig.toml` checks all of it.

Money is integer cents, dates count days, instants count milliseconds. A row is
named by its position in its table; a table is a sequence or a map. Loops that
build a result are methods proved against functions; rows changed in place are
fields of a class whose methods are proved against the same functions. What is
promised over whole runs is proved about those functions: a state, a list of
operations or steps, and an invariant that every one of them keeps. Where the
promise is about requests racing each other, an operation is split into the
statement that reads and the conditional update, and the steps of all callers
interleave freely.

| files | what they model |
|---|---|
| `Graphs`, `TableOrder` | Kahn's algorithm with cycle breaking over the tenant tables |
| `Restore`, `RestoreProof`, `CopiedCells`, `Drill` | copying a snapshot under new ids; every cell of the copy; the drill from the schema to the copy |
| `Lines`, `Corrections` | ledger lines, what hangs off what, chains of corrections |
| `Ledger`, `LedgerProof`, `Outcomes`, `BillMoves`, `Settlement`, `PayOuts`, `Desk` | the books, every operation on them, what each comes to, and what every run keeps |
| `RefundClaims` | approve, reject and pay-out from several desks at once |
| `Nights`, `NightCharges` | posting and backfilling room nights, and what that puts on the bill |
| `Invoices`, `Reissue`, `InvoiceItems` | invoice snapshots, numbering and replacement; asking again; what is listed |
| `LapsedPoints`, `Loyalty`, `PointMoves` | which points have lapsed; balances, tiers and the sweep; what each operation moves |
| `Webhooks`, `Retries`, `Pool` | the lease on a delivery; what a try leaves; the worker pool |
| `Bits`, `Regroup`, `Base32`, `Base32Numbers` | Base32 over 32-bit registers, and as one number in two bases |
| `SecondFactor`, `CodeChecks`, `CodeLimits`, `CodeRaces` | one-time and recovery codes; what a check comes to; the pause after wrong ones, one by one and overlapping |
| `Sessions`, `SessionsProof`, `SessionTimes` | refresh tokens and reset links, written and read by transactions that overlap; their dates |

## What turned out not to hold without a condition

- A restored copy is isomorphic to its snapshot **exactly when** every row that
  refers to its own table refers to itself or an earlier row
  (`RestoreProof.RestoreIsIsomorphic`). The snapshot is read without an
  `orderBy` (`src/modules/backups/backups.service.ts:88`), so nothing in the
  code ensures it; `RestoreProof.ReferencesAheadAreLost` is a snapshot of two
  bill lines that is copied wrongly.
- A copied user's e-mail address is new **exactly when** the snapshot does not
  hold one made of the row's new id (`CopiedCells.AddressIsNewIff`); other unique
  columns are new wherever the ids are (`CopiedCells.UniqueColumnIsNew`).
- Taking a charge back clears charge and tax **exactly when** no tax of it that
  was already corrected has been reinstated since (`Corrections.CorrectingClears`).
  `Corrections.ReinstatedTaxIsMissed` is a charge of 50.00 whose tax was taken
  off and put back: correcting the charge then leaves the tax standing.
- Two attempts on one webhook delivery never overlap **exactly when** nobody
  takes it from an attempt that has yet to record: by a clock past the end of
  its lease, or because switching the webhook off cleared the lease
  (`src/modules/integrations/integrations.service.ts:319-324`) and the delivery
  waits again (`Webhooks.NoTwoAttemptsOverlapIff`); what else is promised of
  deliveries is proved under that condition. `Webhooks.LateAnswersBreakIt` and
  `Webhooks.SwitchingOffBreaksIt` are such claims: two requests at once,
  `delivered` undone, a try lost. Attempts that record, or die, within the claim
  time see none where the webhook stays on or nobody clicks
  (`Webhooks.TimelyRunsHaveNoSecondClaims`).
- Without clicks, a delivery given up on stays so **exactly when** no attempt
  that was under way when the webhook was switched off goes on to send or record
  (`Webhooks.FailedIsFinalIff`); `Webhooks.GivenUpThenWaiting` is one that does.
- The limit on wrong codes is for checks one after another. Of requests that
  read the row together any number is looked at and counts as one failure
  (`CodeRaces.WrongCodesAtOnceCountOnce`, `CodeRaces.NoLimitAtOnce`). A failure
  lands as a check made just then would **exactly when** the count it read still
  stands and the row is not paused at its time (`CodeRaces.FailIsCheckIff`); in
  overlapping runs where every failure does so, and failures land in the order
  their codes were looked at, the limit holds
  (`CodeRaces.AtMostFiveInterleaved`). Neither part of that can be dropped:
  `CodeRaces.SameCountIsNotEnough` and `CodeRaces.OrderMatters`.
- A sign-out, a new password or a deactivation ends a sign-in for good **exactly when** no token
  of it that works was written after the update of tokens began
  (`SessionsProof.SignedOutForGoodIff`, `SessionsProof.NewPasswordEndsForGoodIff`).
  A renewal that has retired its token
  and not yet written the successor survives a new password
  (`SessionsProof.CrossingRenewalSurvives`); signing out with the token that
  works always ends the sign-in (`SessionsProof.SignedOutForGood`).
- A person never has two reset links that work **exactly when** no link is
  written beside one that works (`SessionsProof.OneLinkPerPersonIff`), and that
  one is always made since the request retired the old ones
  (`SessionsProof.CrossedByNewerIff`); two made at once both work
  (`SessionsProof.TwoAtOnceBothWork`).

## Model

| member | source | states |
|---|---|---|
| `TableOrder.InsertOrder` | src/common/prisma/tenant-models.ts:71-124 | fails exactly when some cycle of distinct tables uses only foreign keys with a required column; otherwise the order is the alphabetically least in which every table comes after those its kept keys point at, kept plus deferred keys are the original ones, and each key deferred was, in turn, the first fully nullable one on a cycle; terminates on every schema |
| `TableOrder.Sort` | src/common/prisma/tenant-models.ts:72-92 | the pass with its counters of remaining dependencies places, at each step, the least table all of whose dependencies are placed, and stops only when no table is ready |
| `TableOrder.SearchFor` | src/common/prisma/tenant-models.ts:97-108 | the breadth-first search answers true exactly when a walk through stuck tables exists |
| `TableOrder.CandidatesAreBreakers` | src/common/prisma/tenant-models.ts:95-119 | what the search considers, among the tables a pass left over, is exactly every fully nullable key on a cycle of the whole schema |
| `TableOrder.DeadEnd` | src/common/prisma/tenant-models.ts:120-122 | an incomplete pass without candidates leaves a cycle of keys with required columns |
| `TableOrder.CompletePass` | src/common/prisma/tenant-models.ts:93-93 | a complete pass is the least topological order and rules out every required cycle |
| `TableOrder.NextRound` | src/common/prisma/tenant-models.ts:123-124 | deferring the first candidate keeps all keys accounted for and the required cycles unchanged, and strictly shrinks the live keys |
| `Graphs.GreedyIsLexicallyLeast` | src/common/prisma/tenant-models.ts:82-92 | always taking the least ready table gives the lexically least of all topological orders |
| `Graphs.BeforeIsDictionaryOrder` | src/common/prisma/tenant-models.ts:82-92 | "least" is in dictionary order: at the first character where two names differ, or where one ends |
| `Graphs.StuckHasCycle` | src/common/prisma/tenant-models.ts:93-95 | where every table of a set depends on another in it, some of them form a cycle of distinct tables |
| `Restore.MapRow` | src/modules/backups/backups.service.ts:317-355 | one row: new id, tenant, kept keys renamed through the ids known so far, deferred keys emptied and noted, unique columns replaced |
| `Restore.SetAside` | src/modules/backups/backups.service.ts:340-347 | deferred keys that hold something are emptied and noted with the value they held |
| `Restore.CopyTable` | src/modules/backups/backups.service.ts:314-357 | each row is mapped with the ids of the rows up to and including it |
| `Restore.CopyAll` | src/modules/backups/backups.service.ts:309-358 | every table in order, with the ids known after it, the links noted and the rows expected |
| `Restore.RestoreDrill` | src/modules/backups/backups.service.ts:304-373 | the copy is every table inserted in order and then every noted link patched; counts expected and restored |
| `RestoreProof.RestoreIsIsomorphic` | src/modules/backups/backups.service.ts:309-365 | the copy is the snapshot with every id and every key renamed, deferred ones included, if and only if references within a table point back |
| `RestoreProof.KeyOutcome` | src/modules/backups/backups.service.ts:331-339 | one key comes out renamed exactly when it was deferred, points at an earlier table, or points at the same or an earlier row |
| `RestoreProof.NothingPointsOutside` | src/modules/backups/backups.service.ts:331-365 | in an isomorphic copy every key that holds something holds the id of a row of the copy |
| `RestoreProof.OtherColumnsKept` | src/modules/backups/backups.service.ts:317-355 | columns that are no id, tenant, unique text or key are carried over unchanged |
| `CopiedCells.UniqueColumnReplaced` | src/modules/backups/backups.service.ts:349-352 | in the copy a unique column that held something holds the stand-in made of its row's new id, and one that held nothing holds nothing |
| `CopiedCells.UserAddress` | src/modules/backups/backups.service.ts:349-352 | a user's e-mail address becomes `restore-drill+<new id>@invalid.local` |
| `CopiedCells.UniqueColumnIsNew` | src/modules/backups/backups.service.ts:349-352 | what stands in a unique column is found in no column of any row of the snapshot; for addresses, where the snapshot holds none made of a new id |
| `CopiedCells.AddressIsNewIff` | src/modules/backups/backups.service.ts:349-352 | a copied user's address is found nowhere in the snapshot if and only if the snapshot holds no address made of that new id |
| `CopiedCells.TakenAddressIsRepeated` | src/modules/backups/backups.service.ts:349-352 | a snapshot whose one user already has that address: the copy repeats it |
| `CopiedCells.UniqueColumnsDiffer` | src/modules/backups/backups.service.ts:349-352 | no two rows of a copied table agree on a unique column |
| `CopiedCells.RowsBelongToTheDrill` | src/modules/backups/backups.service.ts:321-329 | every copied row belongs to the drill's tenant, and a row of a table that numbers its own rows brings no number along |
| `CopiedCells.OtherKeysKept` | src/modules/backups/backups.service.ts:331-365 | a key that names no row copied when it is looked up is carried over as it is |
| `RestoreProof.ComputedOrderFits` | src/common/prisma/tenant-models.ts:69-93 | the computed order puts the target of every kept key first, or at the table itself |
| `Drill.ComputedOrderIsRestorable` | src/common/prisma/tenant-models.ts:69-93 | tables listed in a computed order, with the keys kept and deferred, are as the restore needs them |
| `Drill.RunDrill` | src/modules/backups/backups.service.ts:271-373 | from the schema on: impossible exactly on a cycle of required keys, otherwise the copy is isomorphic exactly when references within a table point back |
| `RestoreProof.ReferencesAheadAreLost` | src/modules/backups/backups.service.ts:331-339 | a snapshot whose first bill line hangs off its second is copied to something not isomorphic |
| `Lines.ChargeKeepsSound` | src/modules/folios/folios.service.ts:1425-1503 | a charge with its tax lines keeps the ledger's shape: links backwards, on one bill, corrected once, taxes following their charge |
| `Lines.ReversalKeepsSound` | src/modules/folios/folios.service.ts:786-852 | so does a correction with its tax reversals |
| `Lines.MoveKeepsSound` | src/modules/folios/folios.service.ts:957-1038 | so does moving a set of lines closed both ways |
| `Lines.FamilyIsLeastClosed` | src/modules/folios/folios.service.ts:1122-1144 | lines with their dependents are the least set closed under "hangs off", on that bill |
| `Lines.WholeBillIsNotStranded` | src/modules/folios/folios.service.ts:1147-1150 | everything on a bill leaves no line's anchor behind |
| `Lines.FamilyAfterMove` | src/modules/folios/folios.service.ts:1047-1089 | after a move, the dependents found on the target are exactly the lines moved |
| `Lines.MoveShiftsExactly` | src/modules/folios/folios.service.ts:1005-1038 | a move changes what each bill carries by exactly the sum of the lines moved |
| `Corrections.CorrectionsNetOut` | src/modules/folios/folios.service.ts:786-852 | a charge with its tax and all corrections nets to zero after an odd number of corrections and to the original after an even number, exactly when its taxes were corrected in step |
| `Corrections.StaysInStep` | src/modules/folios/folios.service.ts:786-852 | taxes never corrected on their own are corrected as often as their charge |
| `Corrections.CorrectingClears` | src/modules/folios/folios.service.ts:786-838 | correcting a charge leaves nothing of it and its tax if and only if no tax corrected earlier has been reinstated |
| `Corrections.ReinstatedTaxIsMissed` | src/modules/folios/folios.service.ts:786-838 | a tax taken off and put back is left standing by the correction of its charge |
| `LedgerProof.RunKeepsInv` | src/modules/folios/folios.service.ts:957-1089 | every run of desk, transfer and refund operations keeps lines, transfers, outlet orders and refunds sound |
| `LedgerProof.EveryRunKeepsFamiliesTogether` | src/modules/folios/folios.service.ts:786-852 | over every run each line sits on the bill of its parent and of the line it corrects, and each line is corrected at most once |
| `LedgerProof.EveryRunCoversRefunds` | src/modules/folios/refunds.service.ts:82-143 | over every run, refunds pending, approved or processed against a payment never exceed it, and a void payment has none |
| `BillMoves.MovingAllIsNotStranded` | src/modules/folios/folios.service.ts:957-1003 | moving everything is refused only where there is nothing to move |
| `BillMoves.MoveShiftsTheAmount` | src/modules/folios/folios.service.ts:1005-1038 | a move takes exactly the transfer's amount off the source and puts it on the target, and leaves other bills alone |
| `BillMoves.MoveConserves` | src/modules/folios/folios.service.ts:957-1038 | the bills together owe the same before and after |
| `BillMoves.PickedMove` | src/modules/folios/folios.service.ts:957-1038 | lines picked are moved if and only if the bills are two open ones of a branch (and reservation, for a split) and the lines are some lines of the source, each named once, and what they hang off goes along; then every one picked ends on the target, and exactly what every closed set holding them holds goes too, its outlet orders with it, all of it and only it in the transfer's record; otherwise nothing changes |
| `BillMoves.WholeMove` | src/modules/folios/folios.service.ts:957-1038 | moving everything takes every line of the source and no other, and is refused for an empty bill |
| `BillMoves.PuttingBack` | src/modules/folios/folios.service.ts:1047-1089 | a transfer is put back if and only if it was not before, at most 86,400,000 ms have passed, both bills are open and all its lines are where they went; then exactly its lines and what has come to hang off them return, once |
| `BillMoves.UndoRestores` | src/modules/folios/folios.service.ts:1047-1089 | a move and its reversal put back every line and every attached outlet order, and touch no payment or bill |
| `BillMoves.UndoBringsDependentsBack` | src/modules/folios/folios.service.ts:1047-1089 | whatever was posted in between, a reversal also brings back what hangs off the lines it moved, and the books stay sound |
| `Settlement.SettledBillsBalance` | src/modules/folios/folios.service.ts:1153-1212 | over every run of operations that check the status, a settled bill stands at exactly zero |
| `Settlement.PayOutLeavesNoDebt` | src/modules/folios/refunds.service.ts:183-224 | a pay-out raises the balance by its amount and never above zero |
| `Settlement.RequestLeavesCovered` | src/modules/folios/refunds.service.ts:102-114 | a refund that is granted leaves the credit covering every refund on its way |
| `Settlement.QuietKeepsCovered` | src/modules/folios/refunds.service.ts:266-280 | while no charge is posted, moved or corrected and no payment voided, the credit goes on covering them |
| `Settlement.CoveredCanPayOut` | src/modules/folios/refunds.service.ts:183-198 | an approved refund of a covered bill is not refused |
| `PayOuts.CoveredCanApprove` | src/modules/folios/refunds.service.ts:145-163 | a refund asked for on a covered bill is not refused approval |
| `PayOuts.HarmlessRunKeepsCovered` | src/modules/folios/refunds.service.ts:266-274 | over any run, the credit goes on covering the refunds until something raises what the bill owes |
| `PayOuts.NeverRefused` | src/modules/folios/refunds.service.ts:145-198 | after any such run, what is asked for can be approved and what is approved can be paid out |
| `PayOuts.AnyOrderOfPayOuts` | src/modules/folios/refunds.service.ts:145-224 | all outstanding refunds of a covered bill, asked for or approved, can be approved where needed and paid out in any order, with anything in between that does not raise what the bill owes: none is refused, all end processed |
| `Desk.WithDependents` | src/modules/folios/folios.service.ts:1122-1144 | the frontier loop returns the items first, then each dependent once: the least closed set |
| `Desk.ComputeTotals` | src/modules/folios/folios.service.ts:1523-1547 | subtotal, tax, payments and deposits from running sums; balance is cost less payments |
| `Desk.BalancesFor` | src/modules/folios/folios.service.ts:1511-1521 | the grouped sums give every bill the same balance as its own totals |
| `Desk.FolioDesk.WriteChargeWithTaxes` | src/modules/folios/folios.service.ts:1425-1503 | appends the charge and one tax line per tax, each naming the charge |
| `Desk.FolioDesk.PostCharge` | src/modules/folios/folios.service.ts:456-478 | posts only to an open bill |
| `Desk.FolioDesk.ReverseLineItem` | src/modules/folios/folios.service.ts:786-852 | appends the negation of a line and of every tax still standing on it |
| `Desk.FolioDesk.CorrectLineItem` | src/modules/folios/folios.service.ts:745-775 | corrects an open bill's line not corrected yet, and voids the outlet order it came from |
| `Desk.FolioDesk.MoveCharges` | src/modules/folios/folios.service.ts:957-1038 | moves what was picked with its dependents and records exactly that, or refuses and changes nothing |
| `Desk.FolioDesk.ReverseTransfer` | src/modules/folios/folios.service.ts:1047-1089 | brings the recorded lines and their dependents back, once, within the window |
| `Desk.FolioDesk.CloseFolio` | src/modules/folios/folios.service.ts:1153-1187 | settles exactly a bill that stands at zero |
| `Desk.FolioDesk.PayOut` | src/modules/folios/refunds.service.ts:183-224 | claims, posts the negative payment, and settles the bill of an ended stay this brings to zero |
| `Outcomes.ChargeAppends` | src/modules/folios/folios.service.ts:1425-1503 | an accepted charge leaves itself and then, for each tax in turn, a line with that tax's amount and rule that names the charge |
| `Outcomes.ChargeRaises` | src/modules/folios/folios.service.ts:1425-1503 | it raises what its bill owes by its amount plus the sum of its taxes, and changes no other bill |
| `Outcomes.ChargeRaisesTax` | src/modules/folios/folios.service.ts:1523-1547 | of that, the taxes count as tax on the bill and the charge does not |
| `Outcomes.ChargeRefused` | src/modules/folios/folios.service.ts:456-478 | when a charge is refused, from the desk, by the system and from an outlet, and the order an outlet's charge leaves |
| `Outcomes.CorrectionAppends` | src/modules/folios/folios.service.ts:786-852 | a correction leaves the negation naming the line taken back, then negations of its taxes naming them and the correction |
| `Outcomes.CorrectionOutcome` | src/modules/folios/folios.service.ts:745-852 | correcting or waiving a line takes its amount and all tax standing on it off its bill and changes no other; refused exactly for a line there is not or taken back before, and correcting on a settled bill |
| `Outcomes.PaymentOutcome` | src/modules/folios/folios.service.ts:508-592 | a payment lowers the balance of its bill by its amount; taken exactly on an open bill, and in points up to what the bill owes |
| `Outcomes.DepositOutcome` | src/modules/folios/folios.service.ts:1523-1547 | exactly payments taken as deposits count as deposits |
| `Outcomes.VoidedDepositOutcome` | src/modules/folios/folios.service.ts:594-650 | and no longer once voided |
| `Outcomes.VoidOutcome` | src/modules/folios/folios.service.ts:594-650 | voiding puts the amount back on the bill, once; when it is refused |
| `Outcomes.ClosingOutcome` | src/modules/folios/folios.service.ts:1153-1212 | a bill at zero ends settled and any other stays as it is; reopening opens exactly a settled one |
| `Outcomes.OpeningOutcome` | src/modules/folios/folios.service.ts:101-147 | a bill is opened once, pending until arrival |
| `Outcomes.AskingOutcome` | src/modules/folios/refunds.service.ts:82-143 | a refund is entered if and only if the credit covers it besides all promised ones and the payment it is against covers it besides those not rejected; approved at once exactly when whoever asks may approve |
| `Outcomes.DecisionOutcome` | src/modules/folios/refunds.service.ts:145-181 | when a refund can be approved and when rejected, and that only its status changes |
| `Outcomes.PayOutOutcome` | src/modules/folios/refunds.service.ts:183-224 | a pay-out wants an approved refund within the credit; it processes the refund, enters the negative payment and settles the bill of an ended stay exactly if that comes to zero |
| `RefundClaims.PaidOutExactlyOnce` | src/modules/folios/refunds.service.ts:145-224 | however approvals, rejections and pay-outs interleave, a processed refund has exactly one payment, its amount negated, and any other none |
| `RefundClaims.ProcessedAndRejectedAreFinal` | src/modules/folios/refunds.service.ts:145-224 | a refund processed or rejected stays as it is, whatever is still on its way |
| `RefundClaims.PaidOutAfterApproval` | src/modules/folios/refunds.service.ts:183-213 | what is processed was approved at an earlier step |
| `RefundClaims.UndisturbedOutcome` | src/modules/folios/refunds.service.ts:145-224 | read and changed with nothing in between, a refund is approved, rejected or paid out exactly when it is due, with a payment only when paid out |
| `RefundClaims.AskOutcome` | src/modules/folios/refunds.service.ts:102-125 | a refund asked for waits for approval unless whoever asks may approve |
| `Nights.PostRoomChargeForDate` | src/modules/folios/folios.service.ts:149-165 | one date: the day of a day-use stay, else the night, unless billed already or free |
| `Nights.BackfillRoomCharges` | src/modules/folios/folios.service.ts:431-450 | every date from check-in to the earlier of today and check-out, in turn; the number returned is the number of room lines posted |
| `Nights.NoNightTwice` | src/modules/folios/folios.service.ts:260-335 | across postings, backfills, routing, moves and corrections in any order, no stay has two room lines for one night |
| `Nights.BackfillBillsEachNightOnce` | src/modules/folios/folios.service.ts:431-450 | with positive prices and no hand-posted room lines, backfill leaves exactly one line for each night from check-in on that is before today and before check-out |
| `Nights.BackfillAgainPostsNothing` | src/modules/folios/folios.service.ts:431-450 | after any events since, backfilling again changes nothing, even when called for another bill |
| `NightCharges.NightOutcome` | src/modules/folios/folios.service.ts:260-335 | a night comes to the bill it is routed to at its net price with its taxes, unless it is on some bill for the stay, or on this one for none, or costs nothing; no other bill changes |
| `NightCharges.DayOutcome` | src/modules/folios/folios.service.ts:149-216 | a day-use stay is charged its day, dated on arrival, before anything else and once |
| `NightCharges.BackfillOutcome` | src/modules/folios/folios.service.ts:431-450 | a backfill adds only nights from check-in on that are before today and before check-out, each at its price; the bill then owes exactly the price and tax of those not billed before, and no other bill changes |
| `Invoices.Snapshot` | src/modules/folios/invoices.service.ts:224-274 | one line for each line of the bill that is no tax on another, with the tax on it; each rule's name once, with its tax, none zero |
| `Invoices.InvoiceAddsUp` | src/modules/folios/invoices.service.ts:224-274 | on every sound ledger the invoice's lines with their tax come to the bill's total |
| `Invoices.EveryInvoiceAddsUp` | src/modules/folios/invoices.service.ts:224-274 | so for every bill after every run |
| `InvoiceItems.ListsEveryCharge` | src/modules/folios/invoices.service.ts:224-274 | an invoice lists each line of its bill that is no tax on another exactly once, in order, at its own amount and with the sum of the tax lines that name it |
| `InvoiceItems.InvoiceShowsWhatIsOwed` | src/modules/folios/invoices.service.ts:224-274 | its lines with tax come to its total, the payments listed to what was paid, and the difference is the bill's balance |
| `Invoices.InvoiceBook.IssueFor` | src/modules/folios/invoices.service.ts:104-135 | gives back the standing invoice of an unchanged bill, else numbers a new one and retires the old |
| `Invoices.InvoicesFormChains` | src/modules/folios/invoices.service.ts:104-135 | each invoice replaces the one before it for its bill, exactly the last is current, and branch numbers advance without gaps |
| `Reissue.SameContent` | src/modules/folios/invoices.service.ts:224-274 | whatever happened to other bills, an unchanged bill is invoiced the same |
| `Reissue.UnchangedBillKeepsItsInvoice` | src/modules/folios/invoices.service.ts:104-108 | after anything on other bills and invoices of other bills, asking again for an unchanged bill gives back its standing invoice and issues none |
| `LapsedPoints.Lapsed` | src/modules/loyalty/loyalty-rules.ts:73-94 | the greedy loop gives the closed form: lapsed lots less net spending, not below zero nor above the balance; and the next expiry is the first date ahead by which more lapses than was spent |
| `LapsedPoints.NextIsUnique` | src/modules/loyalty/loyalty-rules.ts:82-92 | there is only one such next expiry |
| `LapsedPoints.OrderDoesNotMatter` | src/modules/loyalty/loyalty-rules.ts:73-94 | neither answer depends on the order of the rows |
| `LapsedPoints.GreedyLosesLeast` | src/modules/loyalty/loyalty-rules.ts:64-72 | no way of assigning the same spending to lots loses fewer points |
| `LapsedPoints.GreedyAttainsIt` | src/modules/loyalty/loyalty-rules.ts:80-91 | the loop's own assignment loses exactly that many |
| `LapsedPoints.LoopDrawsGreedyUse` | src/modules/loyalty/loyalty-rules.ts:84-86 | that assignment is what the loop draws from each lot, step by step |
| `Loyalty.TierIsHighest` | src/modules/loyalty/loyalty-rules.ts:17-32 | a member holds the highest tier their lifetime points reach |
| `Loyalty.BalanceAgreesWithLedger` | src/modules/loyalty/loyalty-ledger.ts:54-86 | over every run of earning, redeeming, adjusting, expiring and voiding, the stored balance is the ledger's sum and never negative, and net spending is never negative |
| `Loyalty.BalanceNeverBinds` | src/modules/loyalty/loyalty-rules.ts:93-94 | in a sound account the balance never cuts a lapse short |
| `Loyalty.SecondSweepTakesNothing` | src/modules/loyalty/loyalty.service.ts:374-409 | a second sweep at the same instant takes nothing |
| `Loyalty.LifetimeNeverFalls` | src/modules/loyalty/loyalty-ledger.ts:48-51 | along every run lifetime points never fall |
| `Loyalty.TierNeverFalls` | src/modules/loyalty/loyalty-rules.ts:25-32 | along every run with fixed tiers the tier reached never falls |
| `Loyalty.TierFollowsLifetime` | src/modules/loyalty/loyalty-ledger.ts:69-82 | along every run, enrolment among the operations, a member's tier on the profile is the one lifetime points reach, and who is no member has neither |
| `PointMoves.EarnOutcome` | src/modules/loyalty/loyalty.service.ts:292-335 | a stay earns if and only if it earned nothing before and there are points: balance and lifetime points rise by them, spending does not move, and what lapses by a date rises by them from their expiry on and not before |
| `PointMoves.EarnedOnce` | src/modules/loyalty/loyalty.service.ts:292-335 | the same stay a second time changes nothing |
| `PointMoves.EarnedPointsLapse` | src/modules/loyalty/loyalty.service.ts:292-409 | points earned and never spent are all there before their expiry and gone after a sweep on it |
| `PointMoves.RedeemOutcome` | src/modules/loyalty/loyalty.service.ts:337-372 | points are redeemed if and only if they are at least one and at most the balance; the balance falls and spending rises by them, and nothing else moves |
| `PointMoves.AdjustOutcome` | src/modules/loyalty/loyalty.service.ts:271-290 | an adjustment is refused exactly at zero or where it would leave a debt; given points add to the lifetime and never lapse, taken ones count as spent |
| `PointMoves.VoidOutcome` | src/modules/folios/folios.service.ts:628-641 | voiding a payment gives its points back as unspent, once |
| `PointMoves.RedeemedAndVoided` | src/modules/folios/folios.service.ts:628-641 | redeeming and voiding leaves balance, lifetime points, spending and lots as they were |
| `PointMoves.SweepOutcome` | src/modules/loyalty/loyalty.service.ts:390-401 | a sweep takes exactly what was earned to lapse by now beyond all that was spent |
| `PointMoves.EnrolOutcome` | src/modules/loyalty/loyalty.service.ts:253-269 | enrolling needs an active programme and moves no points |
| `PointMoves.TierShown` | src/modules/loyalty/loyalty-ledger.ts:69-82 | along every run a member is shown the name of a reached tier than which none reached is higher, and none exactly where none is reached |
| `Loyalty.Members.ExpireLapsedPoints` | src/modules/loyalty/loyalty.service.ts:374-409 | though it looks only at members with a lapsed earning and points left, the sweep leaves every member with nothing due, and returns all points due together |
| `Loyalty.Members.ExpireOne` | src/modules/loyalty/loyalty.service.ts:390-401 | one member loses exactly what is due |
| `Loyalty.Members.SaveProgram` | src/modules/loyalty/loyalty.service.ts:200-221 | every member ends in the tier their lifetime points reach under the new tiers, and the number moved is the number who changed |
| `Webhooks.NoTwoAttemptsOverlapIff` | src/modules/integrations/webhook-dispatcher.service.ts:204-237 | with any number of servers, crashes, retry clicks and switches off and on, two attempts on a delivery never overlap if and only if no claim takes it from an attempt that has yet to record, its lease run out or cleared |
| `Webhooks.SingleStepIff` | src/modules/integrations/webhook-dispatcher.service.ts:207-211 | one step keeps attempts apart exactly when it is no such claim |
| `Webhooks.TimelyRunsHaveNoSecondClaims` | src/modules/integrations/webhook-dispatcher.service.ts:15-16 | attempts that record, or die, within the claim time of their start never see such a claim, where the webhook stays on or nobody clicks |
| `Webhooks.AttemptsCountSends` | src/modules/integrations/webhook-dispatcher.service.ts:226-234 | in runs without such claims: tries recorded are requests sent, but for one underway and those whose server died before recording |
| `Webhooks.DeliveredIsFinal` | src/modules/integrations/webhook-dispatcher.service.ts:226-284 | in runs without such claims: once delivered, a row never changes again and nothing is sent again, whatever is clicked |
| `Webhooks.AtMostEightSends` | src/modules/integrations/webhook-dispatcher.service.ts:11-16 | in runs without such claims: without clicks a delivery is sent at most eight times and a test once, sends whose server died before recording coming on top; and it no longer waits after the last try |
| `Webhooks.FailedStepIff` | src/modules/integrations/integrations.service.ts:319-324 | without clicks, a step leaves a delivery given up on as it was exactly when no attempt deprived of its lease sends or records |
| `Webhooks.FailedIsFinalIff` | src/modules/integrations/integrations.service.ts:319-324 | in runs without such claims or clicks: a delivery given up on stays so and is not sent again, if and only if no attempt deprived of its lease goes on |
| `Webhooks.FailedIsFinalWithoutClicks` | src/modules/integrations/webhook-dispatcher.service.ts:226-234 | in runs without such claims or clicks: given up on with no attempt under way, it stays so and is not sent again, however the webhook is switched |
| `Webhooks.LateAnswersBreakIt` | src/modules/integrations/webhook-dispatcher.service.ts:204-237 | an answer after the lease ran out: two requests at once, `delivered` left, a try lost |
| `Webhooks.SwitchingOffBreaksIt` | src/modules/integrations/integrations.service.ts:319-324 | the same at one instant: the webhook switched off and on while a request is out, and a click |
| `Webhooks.GivenUpThenWaiting` | src/modules/integrations/integrations.service.ts:319-324 | switching off alone: given up on, and waiting again once the attempt under way records |
| `Retries.GivenUpOnlyAfterAllTries` | src/modules/integrations/webhook-dispatcher.service.ts:226-237 | in runs without such claims, clicks or switching off: a delivery is given up on only when exactly eight tries were recorded, one for a test, as many having been sent besides those lost; and waits only while tries are left |
| `Retries.EveryTryRecorded` | src/modules/integrations/webhook-dispatcher.service.ts:226-237 | in runs without such claims the n-th try recorded leaves the delivery delivered, or given up on if n is at least eight or it is a test, or waiting until the clock plus the n-th of the seven delays, given as numbers; the lease cleared |
| `Retries.ClaimOutcome` | src/modules/integrations/webhook-dispatcher.service.ts:204-218 | a claim leases a waiting delivery nobody holds for 60,000 ms, and leaves any other alone |
| `Retries.ClickOutcome` | src/modules/integrations/webhook-dispatcher.service.ts:269-284 | a click stops at a delivered row and makes any other due at the time of the click unless an attempt holds it |
| `Retries.SwitchOffOutcome` | src/modules/integrations/integrations.service.ts:319-324 | switching off gives up on what waits, and an attempt that starts while it is off gives up likewise |
| `Pool.InPool` | src/modules/integrations/webhook-dispatcher.service.ts:74-86 | whichever worker goes on at each turn, every item is taken once, in list order, and its answer ends at its own place |
| `Bits.ReadsAgreeWithExact` | src/modules/auth/totp.ts:25-33 | a register that dropped its top bits agrees with unbounded arithmetic on every bit read below its width |
| `Bits.ShiftsAgreeWithExact` | src/modules/auth/totp.ts:26-26 | and goes on holding the exact value less its top bits, however often it is shifted |
| `Base32.Base32Encode` | src/modules/auth/totp.ts:21-35 | the never-masked accumulator writes the bytes' bits in groups of five, the last filled with zeros |
| `Base32.Base32Decode` | src/modules/auth/totp.ts:37-53 | the accumulator reads whole bytes out of the characters' bits, or fails on a character outside the alphabet |
| `Base32.RoundTrip` | src/modules/auth/totp.ts:21-53 | decoding the encoding gives back the bytes; ceil(8n/5) characters, all of the alphabet, no padding |
| `Base32.DecodesWhatWasEncoded` | src/modules/auth/totp.ts:37-38 | so does any text that cleans to the encoding: lower case, spaces, dashes, padding |
| `Base32.DecodeFailsIff` | src/modules/auth/totp.ts:42-44 | decoding fails exactly when a character outside the alphabet is left after cleaning |
| `Base32.EncodesWhatWasDecodedIff` | src/modules/auth/totp.ts:37-53 | encoding what was decoded gives back the cleaned text exactly when fewer than five bits were left over and all are zero |
| `Base32Numbers.EncodesTheNumber` | src/modules/auth/totp.ts:21-35 | the characters spell in base 32, A to Z and 2 to 7 as digits, the number the bytes spell in base 256, shifted up by the fewer than five bits that fill the last one |
| `Base32Numbers.DecodesTheNumber` | src/modules/auth/totp.ts:37-53 | the bytes decoded spell the number the characters spell, less the fewer than eight bits behind the last whole byte |
| `Base32Numbers.SeparatorsAreIgnored` | src/modules/auth/totp.ts:37-38 | exactly dashes, padding and white space may stand anywhere without changing what is read |
| `SecondFactor.VerifyTotp` | src/modules/auth/totp.ts:84-96 | the earliest step of the window later than the last one used whose code this is, and none only where there is none |
| `SecondFactor.AcceptedStepsIncrease` | src/modules/auth/mfa.service.ts:166-193 | however requests interleave, within one setup accepted time steps strictly increase, from the one that switched it on |
| `SecondFactor.RecoveryCodesWorkOnce` | src/modules/auth/mfa.service.ts:180-193 | however requests interleave, each recovery code of a sheet is accepted at most once |
| `SecondFactor.UndisturbedIsOneCheck` | src/modules/auth/mfa.service.ts:166-203 | a request's separate steps, undisturbed, come to one check |
| `SecondFactor.Account.CheckSecondFactor` | src/modules/auth/mfa.service.ts:166-203 | accepts exactly an unused code while not paused, says by which factor, and otherwise until when it is paused or how many tries are left |
| `CodeChecks.RightDigitsOutcome` | src/modules/auth/mfa.service.ts:166-179 | a code shown in this half-minute or a neighbouring one, later than the last used, passes, uses up the earliest such step, and clears the count and the pause |
| `CodeChecks.RecoveryOutcome` | src/modules/auth/mfa.service.ts:180-193 | a recovery code passes, is spent for good and clears them too; the others stay |
| `CodeChecks.WrongCodeOutcome` | src/modules/auth/mfa.service.ts:195-203 | a wrong code counts one, and the fifth in a row pauses for 900,000 ms; nothing else changes |
| `CodeChecks.WrongInARow` | src/modules/auth/mfa.service.ts:195-203 | from a clean count, any four wrong codes in a row leave that count, and a fifth the pause from its time on |
| `CodeChecks.NothingLookedAt` | src/modules/auth/mfa.service.ts:167-173 | while it is paused or not set up, no code passes and nothing changes |
| `CodeChecks.EnableOutcome` | src/modules/auth/mfa.service.ts:76-109 | setting up succeeds exactly with a secret begun and a code shown now, which is then used |
| `CodeChecks.SetupOutcome` | src/modules/auth/mfa.service.ts:63-74 | a new secret can be begun only while it is off; switching off forgets everything; a new sheet replaces the old |
| `CodeLimits.AtMostFivePerPeriod` | src/modules/auth/mfa.service.ts:19-20 | in any half-open stretch of k lock periods at most 5k wrong codes are looked at |
| `CodeLimits.FailuresBelowFive` | src/modules/auth/mfa.service.ts:195-200 | the stored count of failures is below five in every run, interleaved or not |
| `CodeRaces.FailCountsIff` | src/modules/auth/mfa.service.ts:195-200 | a failure is one more on the row as it stands exactly when the count it read still stands, or both are at the last try |
| `CodeRaces.FailIsCheckIff` | src/modules/auth/mfa.service.ts:166-203 | it lands as a wrong code looked at just then exactly when, besides, the row is not paused at its time |
| `CodeRaces.AtMostFiveInterleaved` | src/modules/auth/mfa.service.ts:19-20 | overlapping requests whose failures all land so, in the order their codes were looked at, meet the limit of 5k wrong codes in k lock periods |
| `CodeRaces.WrongCodesAtOnceCountOnce` | src/modules/auth/mfa.service.ts:166-203 | any number of requests that read the row together with tries to spare are all looked at and count as one failure |
| `CodeRaces.NoLimitAtOnce` | src/modules/auth/mfa.service.ts:166-203 | so for every k more than 5k wrong codes can be looked at in k lock periods |
| `CodeRaces.SameCountIsNotEnough` | src/modules/auth/mfa.service.ts:195-200 | from setup on: six wrong codes in one lock period though every failure finds the count it read |
| `CodeRaces.OrderMatters` | src/modules/auth/mfa.service.ts:195-200 | from setup on: six wrong codes in one lock period though every failure lands as a check, one of them out of turn |
| `SessionsProof.OneLiveTokenPerSignIn` | src/modules/auth/auth.service.ts:441-481 | a sign-in never has two tokens that work |
| `SessionsProof.RenewedOnce` | src/modules/auth/auth.service.ts:467-470 | however requests race, a token is renewed at most once |
| `SessionsProof.OverIsForGood` | src/modules/auth/auth.service.ts:460-481 | a sign-in that is over stays over; no request on its way, whatever it has written, brings it back |
| `SessionsProof.EndedIff` | src/modules/auth/password.service.ts:178-181 | an update of tokens ends a sign-in exactly when no token of it that works was written since the update began |
| `SessionsProof.SignedOutForGoodIff` | src/modules/auth/auth.service.ts:505-526 | from a sign-out on, no token of that sign-in works again, if and only if none that works was written since it looked for them |
| `SessionsProof.SignedOutForGood` | src/modules/auth/auth.service.ts:505-526 | signing out with the token that works always ends the sign-in for good, whatever renewals cross it |
| `SessionsProof.NewPasswordEndsForGoodIff` | src/modules/auth/password.service.ts:102-181 | from a new password on, or once a person is deactivated, an earlier sign-in of theirs never works again, if and only if no token of it that works was written since the update of tokens began |
| `SessionsProof.UncrossedIsAllSeen` | src/modules/auth/password.service.ts:178-181 | that is so wherever no successor of the sign-in is written between the update's beginning and its end |
| `SessionsProof.CrossingRenewalSurvives` | src/modules/auth/auth.service.ts:467-479 | a renewal caught between retiring its token and writing the successor survives a new password |
| `SessionsProof.OneLinkPerPersonIff` | src/modules/auth/password.service.ts:161-176 | a person never has two reset links that work, if and only if no link is written beside one that works |
| `SessionsProof.CrossedByNewerIff` | src/modules/auth/password.service.ts:161-176 | between a request's retiring the old links and its writing the new one: it is written beside one that works exactly when one made in between works |
| `SessionsProof.TwoAtOnceBothWork` | src/modules/auth/password.service.ts:161-176 | from empty tables: two requests retire the old links, both write, and both links work |
| `SessionsProof.LinksWorkOnce` | src/modules/auth/password.service.ts:113-121 | however tabs race, a link sets a password at most once |
| `SessionsProof.UsedLinksStayUsed` | src/modules/auth/password.service.ts:113-121 | a link used, or retired by a newer one, never sets a password again |
| `SessionTimes.RenewedOnlyInTime` | src/modules/auth/auth.service.ts:460-481 | over every run, each token renewed or about to be was read at some step while it worked and before it expired |
| `SessionTimes.ResetOnlyInTime` | src/modules/auth/password.service.ts:102-121 | over every run, each link that set a password or is about to was read at some step unused and before it expired |
| `SessionTimes.WrittenOnce` | src/modules/auth/auth.service.ts:905-918 | a token keeps its owner, sign-in, expiry and predecessor, and a link its owner and expiry; what is revoked or used stays so |
| `SessionTimes.SignInOutcome` | src/modules/auth/auth.service.ts:688-705 | signing in writes one working token of a sign-in of its own, with the expiry given |
| `SessionTimes.RenewalOutcome` | src/modules/auth/auth.service.ts:467-481 | a renewal retires its token and writes one that works, for the same person and sign-in; refused, it keeps nothing |
| `SessionTimes.EndingOutcome` | src/modules/auth/password.service.ts:139-181 | a new password ends all tokens of the person it saw and retires all their links, nobody else's, and where it was changed writes one new token; it waits while one of those tokens is held |
| `SessionTimes.UseLinkOutcome` | src/modules/auth/password.service.ts:112-125 | a link read earlier sets a password exactly if it is still unused, and is used from then on |
| `SessionTimes.NewLinkOutcome` | src/modules/auth/password.service.ts:161-176 | asking for a link retires the person's others and writes one with the expiry given |
| `SessionTimes.ChangePasswordOutcome` | src/modules/auth/password.service.ts:139-159 | a wrong password changes nothing |
| `SessionTimes.SignOutOutcome` | src/modules/auth/auth.service.ts:505-526 | signing out looks for the tokens of the sign-in of the token shown |
| `SessionTimes.OthersEndingOutcome` | src/modules/auth/auth.service.ts:516-526 | a sign-out ends the tokens it saw of one sign-in, and a deactivation those of one person; no link is touched |
| `SessionTimes.LeavingOutcome` | src/modules/users/users.service.ts:325-335 | a deactivation looks for the tokens of that person |

## Left out

- Pricing, taxes and timezones: a price with its net amount and taxes is a parameter that promises positive parts for a positive price; decimals are integer cents; dates arrive in branch time.
- Packages and reservations: package charges are charges like any other; a stay is given by its dates, its bill and where its nights are routed.
- Deleted and void lines: nothing in these files sets `isVoid` or `deletedAt` on a line, so the filters on them have nothing to drop.
- Ordering ties: taking the least ready table stands for sorting and shifting; the locale's comparison of candidate keys is any ranking, given as a parameter.
- Batches: the sweep's batches of members and re-tiering's chunks are one pass each, and one tenant at a time.
- Invoice text: the order and wording of lines, the printed number, due dates and the party billed; a bill still pending is not offered for invoicing.
- Loyalty amounts: how many points a stay earns, what they are worth and when they lapse are parameters of the operations.
- Codes as typed: a code arrives already recognised as six digits, as the hash of something shaped like a recovery code, or as neither; HMAC and hashing are functions.
- `SecondFactor` setup: starting setup, switching on, clearing and new recovery codes are one step each.
- Case mapping: upper-casing a character of a Base32 secret is a parameter that leaves the alphabet's own characters alone.
- `Webhooks`: one delivery at a time, and one clock for all servers; which deliveries are due only decides when an attempt begins, and an attempt does not look at it again; deleting old deliveries and those of an erased guest, after which there is nothing to send.
- Sessions: a transaction's commit is the step that writes its last row, a row it has changed is held until then, and an update of many rows sees those committed when it began; tokens without a sign-in, signing in itself as more than one step, and deleting tokens long over are not modelled.
- `RefundClaims`, `Webhooks`, `SecondFactor` and `Sessions` runs: rows are values in a state, since the claims are about interleavings; update in place appears in the classes of `Desk`, `Invoices`, `Loyalty` and `SecondFactor`.
- Messages, audit rows, mail, storage, HTTP and database failures.
- Settlement.SettledBillsBalance: system-posted nights, ad hoc and outlet charges and waivers do not check a bill's status in the source and are outside this claim.
- PayOuts.AnyOrderOfPayOuts: what comes in between must not raise what the bill owes, since a charge, a move or a correction that does leaves less credit than the refunds need.
