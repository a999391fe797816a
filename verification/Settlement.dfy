/** Settled bills, and refunds against a bill's credit. */
module Settlement {
  import opened Wrappers
  import opened Lines
  import opened Ledger
  import opened LedgerProof

  // ----- a settled bill stands at zero -----

  lemma LinesElsewhere(ls: seq<Line>, more: seq<Line>, folio: nat, n: nat)
    requires n <= |more| && forall k :: 0 <= k < |more| ==> more[k].folio != folio
    ensures OnBill(ls + more, folio, |ls| + n) == OnBill(ls, folio, |ls|)
  {
    if n == 0 {
      OnBillExtends(ls, more, folio, |ls|);
    } else {
      LinesElsewhere(ls, more, folio, n - 1);
    }
  }

  lemma PaidExtends(ps: seq<Payment>, more: Payment, folio: nat, n: nat)
    requires n <= |ps|
    ensures Paid(ps + [more], folio, n) == Paid(ps, folio, n)
  {
  }

  lemma PaidAfterVoid(ps: seq<Payment>, p: nat, folio: nat, n: nat)
    requires p < |ps| && n <= |ps| && !ps[p].isVoid
    ensures Paid(ps[p := ps[p].(isVoid := true)], folio, n) ==
      Paid(ps, folio, n) - (if p < n && ps[p].folio == folio then ps[p].amount else 0)
  {
    if n > 0 {
      PaidAfterVoid(ps, p, folio, n - 1);
    }
  }

  lemma ChargeElsewhere(b: Books, charge: Line, taxes: seq<TaxPart>, folio: nat)
    requires folio != charge.folio
    ensures Balance(Charge(b, charge, taxes), folio) == Balance(b, folio)
  {
    var more := [charge] + TaxLines(charge, |b.lines|, taxes);
    assert Charged(b.lines, charge, taxes) == b.lines + more;
    LinesElsewhere(b.lines, more, folio, |more|);
  }

  lemma ReversalElsewhere(b: Books, x: nat, folio: nat)
    requires x < |b.lines| && folio != b.lines[x].folio
    ensures OnBill(Reversed(b.lines, x), folio, |Reversed(b.lines, x)|) == OnBill(b.lines, folio, |b.lines|)
  {
    var ts := TaxesToReverse(b.lines, x);
    var more := [CorrectionOf(b.lines, x)] + TaxReversals(b.lines, ts);
    assert Reversed(b.lines, x) == b.lines + more;
    forall k | 0 <= k < |more| ensures more[k].folio != folio {
      if k > 0 {
        assert ts[k - 1] in ts;
      }
    }
    LinesElsewhere(b.lines, more, folio, |more|);
  }

  lemma RelocateElsewhere(b: Books, source: nat, s: set<nat>, target: nat, folio: nat)
    requires OnFolio(b.lines, source, s) && source != target && folio != source && folio != target
    ensures Balance(Relocate(b, s, target), folio) == Balance(b, folio)
  {
    MoveShiftsExactly(b.lines, source, s, target, folio, |b.lines|);
  }

  lemma MovesElsewhere(b: Books, op: Op, folio: nat)
    requires Inv(b) && folio in b.folios && b.folios[folio].status == Settled && (op.Move? || op.UndoMove?)
    ensures Balance(Apply(b, op), folio) == Balance(b, folio)
  {
    match op
    case Move(s, t, sel, within, now) =>
      if CanMove(b, s, t, sel, within) {
        SelectedOnSource(b, s, sel);
        FamilyUpClosed(b.lines, s, SelectedLines(b, s, sel));
        RelocateElsewhere(b, s, Family(b.lines, s, SelectedLines(b, s, sel)), t, folio);
      }
    case UndoMove(t, now) =>
      if CanReverseTransfer(b, t, now) {
        var tr := b.transfers[t];
        assert TransferSound(b, t);
        TransferNotStranded(b, t);
        FamilyUpClosed(b.lines, tr.target, tr.lines);
        RelocateElsewhere(b, tr.target, Family(b.lines, tr.target, tr.lines), tr.source, folio);
      }
  }

  /** A bill whose status an operation leaves settled keeps its balance through it. */
  lemma SettledUntouched(b: Books, op: Op, folio: nat)
    requires Inv(b) && SettledMeansZero(b) && ChecksStatus(op)
    requires folio in b.folios && b.folios[folio].status == Settled
    ensures Balance(Apply(b, op), folio) == Balance(b, folio)
  {
    var after := Apply(b, op);
    assert SettledAt(b, folio);
    match op
    case Post(charge, taxes) => if after != b { ChargeElsewhere(b, charge, taxes, folio); }
    case Correct(x) => if after != b { ReversalElsewhere(b, x, folio); }
    case Move(_, _, _, _, _) => MovesElsewhere(b, op, folio);
    case UndoMove(_, _) => MovesElsewhere(b, op, folio);
    case Pay(f, a, d) => PaidExtends(b.payments, Payment(f, a, d, false, false), folio, |b.payments|);
    case PayPoints(f, a) => PaidExtends(b.payments, Payment(f, a, false, false, false), folio, |b.payments|);
    case Void(p, closed) => if CanVoid(b, p, closed) { PaidAfterVoid(b.payments, p, folio, |b.payments|); }
    case PayOut(r, drawer, ended) => if CanPayOut(b, r) { PayOutElsewhere(b, r, drawer, ended, folio); }
    case _ =>
  }

  lemma PayOutElsewhere(b: Books, r: nat, drawer: bool, ended: bool, folio: nat)
    requires Inv(b) && CanPayOut(b, r) && folio in b.folios && SettledAt(b, folio) && b.folios[folio].status == Settled
    ensures Balance(PayOutRefund(b, r, drawer, ended), folio) == Balance(b, folio)
  {
    assert RefundSound(b, r);
    PaidExtends(b.payments, Payment(b.refunds[r].folio, -b.refunds[r].amount, false, false, true), folio, |b.payments|);
  }

  lemma StepKeepsSettled(b: Books, op: Op)
    requires Inv(b) && SettledMeansZero(b) && ChecksStatus(op)
    ensures SettledMeansZero(Apply(b, op))
  {
    var after := Apply(b, op);
    forall f: nat | f in after.folios ensures SettledAt(after, f) {
      if after.folios[f].status == Settled {
        if f in b.folios && b.folios[f].status == Settled {
          assert SettledAt(b, f);
          SettledUntouched(b, op, f);
        } else {
          NewlySettled(b, op, f);
        }
      }
    }
  }

  lemma NewlySettled(b: Books, op: Op, f: nat)
    requires f in Apply(b, op).folios && Apply(b, op).folios[f].status == Settled &&
      !(f in b.folios && b.folios[f].status == Settled)
    ensures Balance(Apply(b, op), f) == 0
  {
  }

  /** Over every run of operations that check the status, a settled bill has balance exactly zero. */
  lemma {:induction false} SettledBillsBalance(ops: seq<Op>)
    requires forall k :: 0 <= k < |ops| ==> ChecksStatus(ops[k])
    ensures SettledMeansZero(Run(EMPTY, ops))
    decreases |ops|
  {
    if ops != [] {
      var before := ops[..|ops| - 1];
      SettledBillsBalance(before);
      RunKeepsInv(before);
      StepKeepsSettled(Run(EMPTY, before), ops[|ops| - 1]);
    }
  }

  // ----- refunds and the credit they come out of -----

  /** The bill's credit covers every refund on its way. */
  ghost predicate Covered(b: Books, folio: nat) {
    OnTheWay(b.refunds, folio, None, |b.refunds|) <= -Balance(b, folio)
  }

  lemma OnTheWayExtends(rs: seq<Refund>, more: Refund, folio: nat, except: Option<nat>, n: nat)
    requires n <= |rs|
    ensures OnTheWay(rs + [more], folio, except, n) == OnTheWay(rs, folio, except, n)
  {
  }

  lemma OnTheWayAfterStatus(rs: seq<Refund>, r: nat, status: RefundStatus, folio: nat, n: nat)
    requires r < |rs| && n <= |rs|
    ensures var rs' := rs[r := rs[r].(status := status)];
      OnTheWay(rs', folio, None, n) == OnTheWay(rs, folio, None, n)
        + (if r < n && rs[r].folio == folio then
          (if Outstanding(rs'[r]) then rs[r].amount else 0) - (if Outstanding(rs[r]) then rs[r].amount else 0) else 0)
  {
    if n > 0 {
      OnTheWayAfterStatus(rs, r, status, folio, n - 1);
    }
  }

  lemma OneOfMany(b: Books, folio: nat, r: nat, n: nat)
    requires RefundsInv(b) && n <= |b.refunds|
    ensures OnTheWay(b.refunds, folio, None, n) >= 0
    ensures r < n && b.refunds[r].folio == folio && Outstanding(b.refunds[r]) ==>
      b.refunds[r].amount <= OnTheWay(b.refunds, folio, None, n)
  {
    if n > 0 {
      OneOfMany(b, folio, r, n - 1);
      assert RefundSound(b, n - 1);
    }
  }

  /** A refund that is granted leaves the bill covered, however it stood before. */
  lemma RequestLeavesCovered(b: Books, folio: nat, payment: Option<nat>, amount: int, selfApproved: bool)
    requires CanRefund(b, folio, payment, amount)
    ensures Covered(RequestRefund(b, folio, payment, amount, selfApproved), folio)
  {
    var after := RequestRefund(b, folio, payment, amount, selfApproved);
    OnTheWayExtends(b.refunds, after.refunds[|b.refunds|], folio, None, |b.refunds|);
  }

  /** An approved refund of a covered bill can be paid out. */
  lemma CoveredCanPayOut(b: Books, r: nat)
    requires Inv(b) && r < |b.refunds| && b.refunds[r].status == RefundStatus.Approved && Covered(b, b.refunds[r].folio)
    ensures CanPayOut(b, r)
  {
    OneOfMany(b, b.refunds[r].folio, r, |b.refunds|);
  }

  lemma BalanceAfterHandOver(b: Books, r: nat, folio: nat)
    requires r < |b.refunds|
    ensures Balance(HandOver(b, r), folio) ==
      Balance(b, folio) + (if b.refunds[r].folio == folio then b.refunds[r].amount else 0)
  {
    PaidExtends(b.payments, Payment(b.refunds[r].folio, -b.refunds[r].amount, false, false, true), folio, |b.payments|);
  }

  /** Paying out never leaves the guest owing. */
  lemma PayOutLeavesNoDebt(b: Books, r: nat, drawerOpen: bool, stayEnded: bool)
    requires CanPayOut(b, r) && drawerOpen
    ensures Balance(PayOutRefund(b, r, drawerOpen, stayEnded), b.refunds[r].folio) ==
      Balance(b, b.refunds[r].folio) + b.refunds[r].amount <= 0
  {
    BalanceAfterHandOver(b, r, b.refunds[r].folio);
  }

  /** Operations that neither post a charge, move or correct a line, nor void a payment. */
  predicate Quiet(op: Op) {
    op.OpenBill? || op.Pay? || op.PayPoints? || op.Close? || op.Reopen? || op.AskRefund? || op.Approve? || op.Reject? ||
      op.PayOut?
  }

  lemma AskKeepsCovered(b: Books, f: nat, p: Option<nat>, a: int, self: bool, folio: nat)
    requires Covered(b, folio)
    ensures Covered(RequestRefund(b, f, p, a, self), folio)
  {
    if CanRefund(b, f, p, a) {
      RequestLeavesCovered(b, f, p, a, self);
      OnTheWayExtends(b.refunds, RequestRefund(b, f, p, a, self).refunds[|b.refunds|], folio, None, |b.refunds|);
    }
  }

  lemma PayOutKeepsCovered(b: Books, r: nat, drawer: bool, ended: bool, folio: nat)
    requires Covered(b, folio)
    ensures Covered(PayOutRefund(b, r, drawer, ended), folio)
  {
    if CanPayOut(b, r) {
      BalanceAfterHandOver(b, r, folio);
      OnTheWayAfterStatus(b.refunds, r, Processed, folio, |b.refunds|);
    }
  }

  lemma DecisionKeepsCovered(b: Books, r: nat, folio: nat)
    requires Inv(b) && Covered(b, folio)
    ensures Covered(ApproveRefund(b, r), folio) && Covered(RejectRefund(b, r), folio)
  {
    if r < |b.refunds| {
      assert RefundSound(b, r);
      OnTheWayAfterStatus(b.refunds, r, RefundStatus.Approved, folio, |b.refunds|);
      OnTheWayAfterStatus(b.refunds, r, Rejected, folio, |b.refunds|);
    }
  }

  lemma PaymentKeepsCovered(b: Books, op: Op, folio: nat)
    requires Covered(b, folio) && (op.Pay? || op.PayPoints?)
    ensures Covered(Apply(b, op), folio)
  {
    match op
    case Pay(f, a, d) => PaidExtends(b.payments, Payment(f, a, d, false, false), folio, |b.payments|);
    case PayPoints(f, a) => PaidExtends(b.payments, Payment(f, a, false, false, false), folio, |b.payments|);
  }

  lemma StatusKeepsCovered(b: Books, op: Op, folio: nat)
    requires Covered(b, folio) && (op.OpenBill? || op.Close? || op.Reopen?)
    ensures Covered(Apply(b, op), folio)
  {
    var after := Apply(b, op);
    assert after.lines == b.lines && after.payments == b.payments && after.refunds == b.refunds;
  }

  lemma RefundKeepsCovered(b: Books, op: Op, folio: nat)
    requires Inv(b) && Covered(b, folio) && (op.AskRefund? || op.Approve? || op.Reject? || op.PayOut?)
    ensures Covered(Apply(b, op), folio)
  {
    match op
    case AskRefund(f, p, a, self) =>
      assert Apply(b, op) == RequestRefund(b, f, p, a, self);
      AskKeepsCovered(b, f, p, a, self, folio);
    case Approve(r) =>
      assert Apply(b, op) == ApproveRefund(b, r);
      DecisionKeepsCovered(b, r, folio);
    case Reject(r) =>
      assert Apply(b, op) == RejectRefund(b, r);
      DecisionKeepsCovered(b, r, folio);
    case PayOut(r, drawer, ended) =>
      assert Apply(b, op) == PayOutRefund(b, r, drawer, ended);
      PayOutKeepsCovered(b, r, drawer, ended, folio);
  }

  /** While no charge is posted, moved or corrected and no payment voided, a covered bill stays covered. */
  lemma QuietKeepsCovered(b: Books, op: Op, folio: nat)
    requires Inv(b) && Covered(b, folio) && Quiet(op)
    ensures Covered(Apply(b, op), folio)
  {
    if op.Pay? || op.PayPoints? {
      PaymentKeepsCovered(b, op, folio);
    } else if op.OpenBill? || op.Close? || op.Reopen? {
      StatusKeepsCovered(b, op, folio);
    } else {
      RefundKeepsCovered(b, op, folio);
    }
  }
}
