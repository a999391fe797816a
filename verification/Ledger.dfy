/**
 * The books of a hotel: bills, their lines and payments, transfers between
 * bills, outlet orders charged to rooms, and refunds. Every operation is one
 * transaction; one that is refused changes nothing.
 */
module Ledger {
  import opened Wrappers
  import opened Lines

  datatype FolioStatus = Pending | Open | Settled
  datatype Folio = Folio(branch: nat, reservation: Option<nat>, status: FolioStatus)

  /** A refund handed over is a negative payment marked as a pay-out. */
  datatype Payment = Payment(folio: nat, amount: int, deposit: bool, isVoid: bool, payout: bool)

  datatype Transfer = Transfer(source: nat, target: nat, lines: set<nat>, amount: int, createdAt: int, reversed: bool)

  /** A sale at an outlet; one charged to a room names the line it became and the bill that line sits on. */
  datatype PosOrder = PosOrder(folio: Option<nat>, line: Option<nat>, isVoid: bool)

  datatype RefundStatus = Requested | Approved | Processed | Rejected
  datatype Refund = Refund(folio: nat, payment: Option<nat>, amount: int, status: RefundStatus)

  datatype Books = Books(
    folios: map<nat, Folio>, lines: seq<Line>, payments: seq<Payment>,
    transfers: seq<Transfer>, orders: seq<PosOrder>, refunds: seq<Refund>)

  const EMPTY := Books(map[], [], [], [], [], [])

  const REVERSAL_WINDOW_MS := 24 * 60 * 60 * 1000

  // ----- derived money -----

  function Paid(ps: seq<Payment>, folio: nat, n: nat): int
    requires n <= |ps|
  {
    if n == 0 then 0
      else Paid(ps, folio, n - 1) + (if ps[n - 1].folio == folio && !ps[n - 1].isVoid then ps[n - 1].amount else 0)
  }

  /** What a bill owes: its lines less its payments. Never stored. */
  function Balance(b: Books, folio: nat): int {
    OnBill(b.lines, folio, |b.lines|) - Paid(b.payments, folio, |b.payments|)
  }

  predicate Outstanding(r: Refund) {
    r.status == Requested || r.status == Approved
  }

  /** Refunds of a bill still on their way, other than `except`. */
  function OnTheWay(rs: seq<Refund>, folio: nat, except: Option<nat>, n: nat): int
    requires n <= |rs|
  {
    if n == 0 then 0 else
      OnTheWay(rs, folio, except, n - 1)
      + (if rs[n - 1].folio == folio && Outstanding(rs[n - 1]) && except != Some(n - 1) then rs[n - 1].amount else 0)
  }

  function Available(b: Books, folio: nat, except: Option<nat>): int {
    var left := -Balance(b, folio) - OnTheWay(b.refunds, folio, except, |b.refunds|);
    if left > 0 then left else 0
  }

  /** What the refunds of one payment come to, those rejected apart. */
  function RefundedAgainst(rs: seq<Refund>, payment: nat, n: nat): int
    requires n <= |rs|
  {
    if n == 0 then 0 else
      RefundedAgainst(rs, payment, n - 1)
      + (if rs[n - 1].payment == Some(payment) && rs[n - 1].status != Rejected then rs[n - 1].amount else 0)
  }

  // ----- bills, charges, corrections -----

  predicate IsOpen(b: Books, folio: nat) {
    folio in b.folios && b.folios[folio].status != Settled
  }

  function WithStatus(b: Books, folio: nat, status: FolioStatus): Books
    requires folio in b.folios
  {
    b.(folios := b.folios[folio := b.folios[folio].(status := status)])
  }

  function OpenFolio(b: Books, folio: nat, branch: nat, reservation: Option<nat>, arrived: bool): Books {
    if folio in b.folios
    then if arrived && b.folios[folio].status == Pending then WithStatus(b, folio, Open) else b
    else b.(folios := b.folios[folio := Folio(branch, reservation, if arrived then Open else Pending)])
  }

  /** A charge and its taxes, whatever the state of the bill. */
  ghost function Charge(b: Books, charge: Line, taxes: seq<TaxPart>): Books {
    if charge.folio in b.folios && IsCharge(charge, taxes) then b.(lines := Charged(b.lines, charge, taxes)) else b
  }

  ghost function PostCharge(b: Books, charge: Line, taxes: seq<TaxPart>): Books {
    if IsOpen(b, charge.folio) then Charge(b, charge, taxes) else b
  }

  /** A sale charged to a room: the charge, and the order that names it. */
  ghost function PostOutletCharge(b: Books, charge: Line, taxes: seq<TaxPart>): Books {
    var after := Charge(b, charge, taxes);
    if after == b then b else after.(orders := b.orders + [PosOrder(Some(charge.folio), Some(|b.lines|), false)])
  }

  function VoidOrders(orders: seq<PosOrder>, line: nat): seq<PosOrder> {
    seq(|orders|, k requires 0 <= k < |orders| => if orders[k].line == Some(line) then orders[k].(isVoid := true)
      else orders[k])
  }

  predicate CanReverse(b: Books, x: nat) {
    x < |b.lines| && b.lines[x].folio in b.folios && !Corrected(b.lines, x)
  }

  /** The `Correct` operation, which a settled bill refuses. */
  function CorrectLine(b: Books, x: nat): Books {
    if CanReverse(b, x) && IsOpen(b, b.lines[x].folio)
    then b.(lines := Reversed(b.lines, x), orders := VoidOrders(b.orders, x)) else b
  }

  /** The `Waive` operation: the same reversal, whatever the bill's status. */
  function WaiveCharge(b: Books, x: nat): Books {
    if CanReverse(b, x) then b.(lines := Reversed(b.lines, x)) else b
  }

  // ----- moving charges -----

  datatype Selection = All | Picked(ids: seq<nat>)

  function SelectedLines(b: Books, source: nat, sel: Selection): set<nat> {
    match sel
    case All => set i | 0 <= i < |b.lines| && b.lines[i].folio == source
    case Picked(ids) => set i | i in ids && i < |b.lines| && b.lines[i].folio == source
  }

  /** Picked lines must all be found, each once. */
  predicate SelectionFits(b: Books, source: nat, sel: Selection) {
    match sel
    case All => SelectedLines(b, source, sel) != {}
    case Picked(ids) => ids != [] && |SelectedLines(b, source, sel)| == |ids|
  }

  predicate CanMove(b: Books, source: nat, target: nat, sel: Selection, withinStay: bool) {
    && source != target && IsOpen(b, source) && IsOpen(b, target)
    && b.folios[source].branch == b.folios[target].branch
    && (withinStay ==> b.folios[source].reservation == b.folios[target].reservation)
    && SelectionFits(b, source, sel)
    && NoneStranded(b.lines, source, SelectedLines(b, source, sel))
  }

  function OrdersFollow(orders: seq<PosOrder>, s: set<nat>, target: nat): seq<PosOrder> {
    seq(|orders|, k requires 0 <= k < |orders| =>
      if orders[k].line.Some? && orders[k].line.value in s then orders[k].(folio := Some(target)) else orders[k])
  }

  function Relocate(b: Books, s: set<nat>, target: nat): Books {
    b.(lines := Moved(b.lines, s, target), orders := OrdersFollow(b.orders, s, target))
  }

  /** Moves the lines picked, with everything that hangs off them, and records exactly what moved. */
  function MoveCharges(b: Books, source: nat, target: nat, sel: Selection, withinStay: bool, now: int): Books {
    if CanMove(b, source, target, sel, withinStay) then
      var s := Family(b.lines, source, SelectedLines(b, source, sel));
      Relocate(b, s, target).(transfers := b.transfers
        + [Transfer(source, target, s, SumOf(b.lines, s, |b.lines|), now, false)])
    else b
  }

  predicate CanReverseTransfer(b: Books, t: nat, now: int) {
    && t < |b.transfers| && !b.transfers[t].reversed && now - b.transfers[t].createdAt <= REVERSAL_WINDOW_MS
    && IsOpen(b, b.transfers[t].source) && IsOpen(b, b.transfers[t].target)
    && forall i :: i in b.transfers[t].lines && i < |b.lines| ==> b.lines[i].folio == b.transfers[t].target
  }

  /** Puts a transfer back, with anything posted against its lines since. */
  function ReverseTransfer(b: Books, t: nat, now: int): Books {
    if CanReverseTransfer(b, t, now) then
      var tr := b.transfers[t];
      Relocate(b, Family(b.lines, tr.target, tr.lines),
        tr.source).(transfers := b.transfers[t := tr.(reversed := true)])
    else b
  }

  // ----- payments -----

  function RecordPayment(b: Books, folio: nat, amount: int, deposit: bool): Books {
    if IsOpen(b, folio) && amount > 0 then b.(payments := b.payments + [Payment(folio, amount, deposit, false, false)])
      else b
  }

  /** A payment in points is at most the balance of an open bill. */
  function PayWithPoints(b: Books, folio: nat, amount: int): Books {
    if IsOpen(b, folio) && 0 < amount <= Balance(b, folio) then
      b.(payments := b.payments + [Payment(folio, amount, false, false, false)]) else b
  }

  /** `drawerClosed`: a cash payment of a shift that has ended; such a payment stays. */
  predicate CanVoid(b: Books, p: nat, drawerClosed: bool) {
    && p < |b.payments| && !b.payments[p].isVoid && !b.payments[p].payout && b.payments[p].amount > 0
    && IsOpen(b, b.payments[p].folio) && !drawerClosed
    && forall r :: 0 <= r < |b.refunds| && b.refunds[r].payment == Some(p) ==> b.refunds[r].status == Rejected
  }

  function VoidPayment(b: Books, p: nat, drawerClosed: bool): Books {
    if CanVoid(b, p, drawerClosed) then b.(payments := b.payments[p := b.payments[p].(isVoid := true)]) else b
  }

  // ----- closing -----

  function SettleIfFullyPaid(b: Books, folio: nat): Books {
    if folio in b.folios && Balance(b, folio) == 0 then WithStatus(b, folio, Settled) else b
  }

  function ReopenFolio(b: Books, folio: nat): Books {
    if folio in b.folios && b.folios[folio].status == Settled then WithStatus(b, folio, Open) else b
  }

  // ----- refunds -----

  predicate CanRefund(b: Books, folio: nat, payment: Option<nat>, amount: int) {
    && folio in b.folios && 0 < amount <= Available(b, folio, None)
    && (payment.Some? ==>
          var p := payment.value;
          && p < |b.payments| && b.payments[p].folio == folio && !b.payments[p].isVoid && b.payments[p].amount > 0
          && amount <= b.payments[p].amount - RefundedAgainst(b.refunds, p, |b.refunds|))
  }

  function RequestRefund(b: Books, folio: nat, payment: Option<nat>, amount: int, selfApproved: bool): Books {
    if CanRefund(b, folio, payment, amount)
    then b.(refunds := b.refunds + [Refund(folio, payment, amount, if selfApproved then Approved else Requested)])
      else b
  }

  function WithRefundStatus(b: Books, r: nat, status: RefundStatus): Books
    requires r < |b.refunds|
  {
    b.(refunds := b.refunds[r := b.refunds[r].(status := status)])
  }

  predicate CanApprove(b: Books, r: nat) {
    r < |b.refunds| && b.refunds[r].status == Requested &&
      b.refunds[r].amount <= Available(b, b.refunds[r].folio, Some(r))
  }

  function ApproveRefund(b: Books, r: nat): Books {
    if CanApprove(b, r) then WithRefundStatus(b, r, Approved) else b
  }

  function RejectRefund(b: Books, r: nat): Books {
    if r < |b.refunds| && Outstanding(b.refunds[r]) then WithRefundStatus(b, r, Rejected) else b
  }

  predicate CanPayOut(b: Books, r: nat) {
    r < |b.refunds| && b.refunds[r].status == Approved && b.refunds[r].amount <= -Balance(b, b.refunds[r].folio)
  }

  /** The refund is claimed and the money leaves as a negative payment. */
  function HandOver(b: Books, r: nat): Books
    requires r < |b.refunds|
  {
    WithRefundStatus(b, r, Processed).(payments := b.payments
      + [Payment(b.refunds[r].folio, -b.refunds[r].amount, false, false, true)])
  }

  /**
   * `drawerOpen`: not cash, or cash from an open drawer. `stayEnded`: the bill is settled if it
   * then stands at zero.
   */
  function PayOutRefund(b: Books, r: nat, drawerOpen: bool, stayEnded: bool): Books {
    if CanPayOut(b, r) && drawerOpen then
      var after := HandOver(b, r);
      if stayEnded && IsOpen(after, b.refunds[r].folio) then SettleIfFullyPaid(after, b.refunds[r].folio) else after
    else b
  }

  // ----- runs -----

  datatype Op =
    | OpenBill(folio: nat, branch: nat, reservation: Option<nat>, arrived: bool)
    | Post(charge: Line, taxes: seq<TaxPart>)
    | PostBySystem(charge: Line, taxes: seq<TaxPart>)
    | PostAtOutlet(charge: Line, taxes: seq<TaxPart>)
    | Correct(line: nat)
    | Waive(line: nat)
    | Move(source: nat, target: nat, sel: Selection, withinStay: bool, now: int)
    | UndoMove(transfer: nat, now: int)
    | Pay(folio: nat, amount: int, deposit: bool)
    | PayPoints(folio: nat, amount: int)
    | Void(payment: nat, drawerClosed: bool)
    | Close(folio: nat)
    | Reopen(folio: nat)
    | AskRefund(folio: nat, against: Option<nat>, amount: int, selfApproved: bool)
    | Approve(refund: nat)
    | Reject(refund: nat)
    | PayOut(refund: nat, drawerOpen: bool, stayEnded: bool)

  ghost function Apply(b: Books, op: Op): Books {
    match op
    case OpenBill(f, br, res, arrived) => OpenFolio(b, f, br, res, arrived)
    case Post(charge, taxes) => PostCharge(b, charge, taxes)
    case PostBySystem(charge, taxes) => Charge(b, charge, taxes)
    case PostAtOutlet(charge, taxes) => PostOutletCharge(b, charge, taxes)
    case Correct(x) => CorrectLine(b, x)
    case Waive(x) => WaiveCharge(b, x)
    case Move(s, t, sel, within, now) => MoveCharges(b, s, t, sel, within, now)
    case UndoMove(t, now) => ReverseTransfer(b, t, now)
    case Pay(f, a, d) => RecordPayment(b, f, a, d)
    case PayPoints(f, a) => PayWithPoints(b, f, a)
    case Void(p, closed) => VoidPayment(b, p, closed)
    case Close(f) => SettleIfFullyPaid(b, f)
    case Reopen(f) => ReopenFolio(b, f)
    case AskRefund(f, p, a, self) => RequestRefund(b, f, p, a, self)
    case Approve(r) => ApproveRefund(b, r)
    case Reject(r) => RejectRefund(b, r)
    case PayOut(r, drawer, ended) => PayOutRefund(b, r, drawer, ended)
  }

  ghost function Run(b: Books, ops: seq<Op>): Books
    decreases |ops|
  {
    if ops == [] then b else Apply(Run(b, ops[..|ops| - 1]), ops[|ops| - 1])
  }

  /** Operations that look at a bill's status before they change what it owes. */
  predicate ChecksStatus(op: Op) {
    !op.PostBySystem? && !op.PostAtOutlet? && !op.Waive?
  }
}
