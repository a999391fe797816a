/** What every run of the books keeps. */
module LedgerProof {
  import opened Wrappers
  import opened Lines
  import opened Ledger

  // ----- the invariant -----

  /** Each transfer's record holds every line its lines hang off. */
  ghost predicate TransferSound(b: Books, t: nat)
    requires t < |b.transfers|
  {
    var tr := b.transfers[t];
    tr.source != tr.target && (forall i :: i in tr.lines ==> i < |b.lines|) && UpClosed(b.lines, tr.lines)
  }

  /** An outlet order sits on the bill its charge sits on. */
  ghost predicate OrderSound(b: Books, k: nat)
    requires k < |b.orders|
  {
    b.orders[k].line.Some? ==>
      b.orders[k].line.value < |b.lines| && b.orders[k].folio == Some(b.lines[b.orders[k].line.value].folio)
  }

  /** A live refund against a payment is against a standing, positive payment of the same bill. */
  ghost predicate RefundSound(b: Books, r: nat)
    requires r < |b.refunds|
  {
    var rf := b.refunds[r];
    && rf.amount > 0
    && (rf.payment.Some? ==>
          && rf.payment.value < |b.payments| && b.payments[rf.payment.value].folio == rf.folio &&
            b.payments[rf.payment.value].amount > 0
          && (rf.status != Rejected ==> !b.payments[rf.payment.value].isVoid))
  }

  /** Refunds against a payment never come to more than it. */
  ghost predicate PaymentCovers(b: Books, p: nat)
    requires p < |b.payments|
  {
    b.payments[p].amount > 0 ==> RefundedAgainst(b.refunds, p, |b.refunds|) <= b.payments[p].amount
  }

  ghost predicate Inv(b: Books) {
    && Sound(b.lines)
    && (forall t: nat {:trigger TransferSound(b, t)} :: t < |b.transfers| ==> TransferSound(b, t))
    && (forall k: nat {:trigger OrderSound(b, k)} :: k < |b.orders| ==> OrderSound(b, k))
    && RefundsInv(b)
  }

  ghost predicate RefundsInv(b: Books) {
    && (forall r: nat {:trigger RefundSound(b, r)} :: r < |b.refunds| ==> RefundSound(b, r))
    && (forall p: nat {:trigger PaymentCovers(b, p)} :: p < |b.payments| ==> PaymentCovers(b, p))
  }

  ghost predicate SettledAt(b: Books, folio: nat)
    requires folio in b.folios
  {
    b.folios[folio].status == Settled ==> Balance(b, folio) == 0
  }

  /** A settled bill owes nothing and is owed nothing. */
  ghost predicate SettledMeansZero(b: Books) {
    forall f: nat {:trigger SettledAt(b, f)} :: f in b.folios ==> SettledAt(b, f)
  }

  // ----- operations that append lines -----

  lemma AppendKeepsLinks(b: Books, more: seq<Line>, after: Books)
    requires Inv(b) && after.lines == b.lines + more && Sound(after.lines)
    requires after.transfers == b.transfers && after.refunds == b.refunds && after.payments == b.payments
    requires |b.orders| <= |after.orders| && forall k ::
      0 <= k < |b.orders| ==> after.orders[k].line == b.orders[k].line && after.orders[k].folio == b.orders[k].folio
    requires forall k: nat :: |b.orders| <= k < |after.orders| ==> OrderSound(after, k)
    ensures Inv(after)
  {
    forall t: nat | t < |after.transfers| ensures TransferSound(after, t) {
      assert TransferSound(b, t);
    }
    forall k: nat | k < |after.orders| ensures OrderSound(after, k) {
      if k < |b.orders| {
        assert OrderSound(b, k);
      }
    }
    RefundsFrame(b, after);
  }

  lemma RefundsFrame(b: Books, after: Books)
    requires RefundsInv(b) && after.refunds == b.refunds && after.payments == b.payments
    ensures RefundsInv(after)
  {
    forall r: nat | r < |after.refunds| ensures RefundSound(after, r) {
      assert RefundSound(b, r);
    }
    forall p: nat | p < |after.payments| ensures PaymentCovers(after, p) {
      assert PaymentCovers(b, p);
    }
  }

  lemma ChargeKeepsInv(b: Books, charge: Line, taxes: seq<TaxPart>)
    requires Inv(b)
    ensures Inv(Charge(b, charge, taxes)) && Inv(PostCharge(b, charge, taxes)) &&
      Inv(PostOutletCharge(b, charge, taxes))
  {
    var after := Charge(b, charge, taxes);
    if after != b {
      ChargeKeepsSound(b.lines, charge, taxes);
      var more := [charge] + TaxLines(charge, |b.lines|, taxes);
      assert after.lines == b.lines + more;
      AppendKeepsLinks(b, more, after);
      AppendKeepsLinks(b, more, PostOutletCharge(b, charge, taxes));
    }
  }

  lemma ReversalKeepsInv(b: Books, x: nat)
    requires Inv(b)
    ensures Inv(CorrectLine(b, x)) && Inv(WaiveCharge(b, x))
  {
    if CanReverse(b, x) {
      ReversalKeepsSound(b.lines, x);
      var more := [CorrectionOf(b.lines, x)] + TaxReversals(b.lines, TaxesToReverse(b.lines, x));
      assert Reversed(b.lines, x) == b.lines + more;
      AppendKeepsLinks(b, more, WaiveCharge(b, x));
      if IsOpen(b, b.lines[x].folio) {
        AppendKeepsLinks(b, more, CorrectLine(b, x));
      }
    }
  }

  // ----- operations that move lines -----

  lemma RelocateKeepsInv(b: Books, source: nat, items: set<nat>, target: nat)
    requires Inv(b) && OnFolio(b.lines, source, items) && NoneStranded(b.lines, source, items)
    ensures Inv(Relocate(b, Family(b.lines, source, items), target))
  {
    var s := Family(b.lines, source, items);
    var after := Relocate(b, s, target);
    FamilyUpClosed(b.lines, source, items);
    FamilyIsLeastClosed(b.lines, source, items, {});
    MoveKeepsSound(b.lines, source, s, target);
    forall t: nat | t < |after.transfers| ensures TransferSound(after, t) {
      assert TransferSound(b, t);
    }
    forall k: nat | k < |after.orders| ensures OrderSound(after, k) {
      assert OrderSound(b, k);
    }
    RefundsFrame(b, after);
  }

  lemma SelectedOnSource(b: Books, source: nat, sel: Selection)
    ensures OnFolio(b.lines, source, SelectedLines(b, source, sel))
  {
  }

  lemma MoveKeepsInv(b: Books, source: nat, target: nat, sel: Selection, withinStay: bool, now: int)
    requires Inv(b)
    ensures Inv(MoveCharges(b, source, target, sel, withinStay, now))
  {
    var after := MoveCharges(b, source, target, sel, withinStay, now);
    if CanMove(b, source, target, sel, withinStay) {
      var items := SelectedLines(b, source, sel);
      var s := Family(b.lines, source, items);
      SelectedOnSource(b, source, sel);
      RelocateKeepsInv(b, source, items, target);
      FamilyUpClosed(b.lines, source, items);
      TransfersGrow(Relocate(b, s, target), after, source, target, s);
    }
  }

  lemma TransfersGrow(b: Books, after: Books, source: nat, target: nat, s: set<nat>)
    requires Inv(b) && source != target && UpClosed(b.lines, s) && forall i :: i in s ==> i < |b.lines|
    requires |after.transfers| == |b.transfers| + 1 && after.transfers[..|b.transfers|] == b.transfers
    requires after.transfers[|b.transfers|].lines == s && after.transfers[|b.transfers|].source == source &&
      after.transfers[|b.transfers|].target == target
    requires after.(transfers := b.transfers) == b
    ensures Inv(after)
  {
    forall t: nat | t < |after.transfers| ensures TransferSound(after, t) {
      if t < |b.transfers| {
        assert TransferSound(b, t);
        assert after.transfers[t] == after.transfers[..|b.transfers|][t];
      }
    }
    forall k: nat | k < |after.orders| ensures OrderSound(after, k) {
      assert OrderSound(b, k);
    }
    RefundsFrame(b, after);
  }

  /** The lines of a transfer, wherever they have got to, take along what they hang off. */
  lemma TransferNotStranded(b: Books, t: nat)
    requires Inv(b) && t < |b.transfers| && OnFolio(b.lines, b.transfers[t].target, b.transfers[t].lines)
    ensures NoneStranded(b.lines, b.transfers[t].target, b.transfers[t].lines)
  {
    assert TransferSound(b, t);
    FamilyIsLeastClosed(b.lines, b.transfers[t].target, b.transfers[t].lines, {});
  }

  lemma UndoMoveKeepsInv(b: Books, t: nat, now: int)
    requires Inv(b)
    ensures Inv(ReverseTransfer(b, t, now))
  {
    var after := ReverseTransfer(b, t, now);
    if CanReverseTransfer(b, t, now) {
      var tr := b.transfers[t];
      assert TransferSound(b, t);
      TransferNotStranded(b, t);
      RelocateKeepsInv(b, tr.target, tr.lines, tr.source);
      var mid := Relocate(b, Family(b.lines, tr.target, tr.lines), tr.source);
      forall u: nat | u < |after.transfers| ensures TransferSound(after, u) {
        assert TransferSound(mid, u);
      }
      forall k: nat | k < |after.orders| ensures OrderSound(after, k) {
        assert OrderSound(mid, k);
      }
      RefundsFrame(mid, after);
    }
  }

  // ----- payments and refunds -----

  lemma InvFrame(b: Books, after: Books)
    requires Inv(b) && after.lines == b.lines && after.transfers == b.transfers && after.orders == b.orders &&
      RefundsInv(after)
    ensures Inv(after)
  {
    forall t: nat | t < |after.transfers| ensures TransferSound(after, t) {
      assert TransferSound(b, t);
    }
    forall k: nat | k < |after.orders| ensures OrderSound(after, k) {
      assert OrderSound(b, k);
    }
  }

  lemma NoneAgainst(rs: seq<Refund>, p: nat, n: nat)
    requires n <= |rs| && forall r :: 0 <= r < n ==> rs[r].payment != Some(p)
    ensures RefundedAgainst(rs, p, n) == 0
  {
  }

  lemma PaymentAdded(b: Books, pay: Payment)
    requires RefundsInv(b)
    ensures RefundsInv(b.(payments := b.payments + [pay]))
  {
    var after := b.(payments := b.payments + [pay]);
    forall r: nat | r < |after.refunds| ensures RefundSound(after, r) {
      assert RefundSound(b, r);
    }
    forall p: nat | p < |after.payments| ensures PaymentCovers(after, p) {
      if p < |b.payments| {
        assert PaymentCovers(b, p);
      } else {
        forall r: nat | r < |b.refunds| ensures b.refunds[r].payment != Some(p) {
          assert RefundSound(b, r);
        }
        NoneAgainst(b.refunds, p, |b.refunds|);
      }
    }
  }

  lemma VoidKeepsRefunds(b: Books, p: nat, drawerClosed: bool)
    requires RefundsInv(b)
    ensures RefundsInv(VoidPayment(b, p, drawerClosed))
  {
    var after := VoidPayment(b, p, drawerClosed);
    forall r: nat | r < |after.refunds| ensures RefundSound(after, r) {
      assert RefundSound(b, r);
    }
    forall q: nat | q < |after.payments| ensures PaymentCovers(after, q) {
      assert PaymentCovers(b, q);
    }
  }

  lemma AgainstAfterStatus(rs: seq<Refund>, r: nat, status: RefundStatus, p: nat, n: nat)
    requires r < |rs| && n <= |rs|
    ensures var rs' := rs[r := rs[r].(status := status)];
      RefundedAgainst(rs', p, n) == RefundedAgainst(rs, p, n)
        + (if r < n && rs[r].payment == Some(p) then
          (if status != Rejected then rs[r].amount else 0) - (if rs[r].status != Rejected then rs[r].amount else 0)
            else 0)
  {
    if n > 0 {
      AgainstAfterStatus(rs, r, status, p, n - 1);
    }
  }

  lemma AgainstAppended(rs: seq<Refund>, more: Refund, p: nat, n: nat)
    requires n <= |rs|
    ensures RefundedAgainst(rs + [more], p, n) == RefundedAgainst(rs, p, n)
  {
  }

  /** Changing a live refund's status keeps the refunds sound. */
  lemma StatusKeepsRefunds(b: Books, r: nat, status: RefundStatus)
    requires RefundsInv(b) && r < |b.refunds| && b.refunds[r].status != Rejected
    ensures RefundsInv(WithRefundStatus(b, r, status))
  {
    var after := WithRefundStatus(b, r, status);
    forall q: nat | q < |after.refunds| ensures RefundSound(after, q) {
      assert RefundSound(b, q);
    }
    assert RefundSound(b, r);
    forall p: nat | p < |after.payments| ensures PaymentCovers(after, p) {
      assert PaymentCovers(b, p);
      AgainstAfterStatus(b.refunds, r, status, p, |b.refunds|);
    }
  }

  lemma RequestKeepsRefunds(b: Books, folio: nat, payment: Option<nat>, amount: int, selfApproved: bool)
    requires RefundsInv(b)
    ensures RefundsInv(RequestRefund(b, folio, payment, amount, selfApproved))
  {
    var after := RequestRefund(b, folio, payment, amount, selfApproved);
    if CanRefund(b, folio, payment, amount) {
      forall r: nat | r < |after.refunds| ensures RefundSound(after, r) {
        if r < |b.refunds| {
          assert RefundSound(b, r);
        }
      }
      forall p: nat | p < |after.payments| ensures PaymentCovers(after, p) {
        assert PaymentCovers(b, p);
        AgainstAppended(b.refunds, after.refunds[|b.refunds|], p, |b.refunds|);
      }
    }
  }

  lemma PayOutKeepsInv(b: Books, r: nat, drawerOpen: bool, stayEnded: bool)
    requires Inv(b)
    ensures Inv(PayOutRefund(b, r, drawerOpen, stayEnded))
  {
    var after := PayOutRefund(b, r, drawerOpen, stayEnded);
    if CanPayOut(b, r) && drawerOpen {
      var claimed := WithRefundStatus(b, r, Processed);
      StatusKeepsRefunds(b, r, Processed);
      var pay := Payment(b.refunds[r].folio, -b.refunds[r].amount, false, false, true);
      PaymentAdded(claimed, pay);
      assert HandOver(b, r) == claimed.(payments := claimed.payments + [pay]);
      RefundsFrame(HandOver(b, r), after);
      InvFrame(b, after);
    }
  }

  lemma StepKeepsInv(b: Books, op: Op)
    requires Inv(b)
    ensures Inv(Apply(b, op))
  {
    match op
    case Post(charge, taxes) => ChargeKeepsInv(b, charge, taxes);
    case PostBySystem(charge, taxes) => ChargeKeepsInv(b, charge, taxes);
    case PostAtOutlet(charge, taxes) => ChargeKeepsInv(b, charge, taxes);
    case Correct(x) => ReversalKeepsInv(b, x);
    case Waive(x) => ReversalKeepsInv(b, x);
    case Move(s, t, sel, within, now) => MoveKeepsInv(b, s, t, sel, within, now);
    case UndoMove(t, now) => UndoMoveKeepsInv(b, t, now);
    case PayOut(r, drawer, ended) => PayOutKeepsInv(b, r, drawer, ended);
    case _ => OtherStepKeepsInv(b, op);
  }

  lemma OtherStepKeepsInv(b: Books, op: Op)
    requires Inv(b)
    requires op.OpenBill? || op.Pay? || op.PayPoints? || op.Void? || op.Close? || op.Reopen? || op.AskRefund? ||
      op.Approve? || op.Reject?
    ensures Inv(Apply(b, op))
  {
    var after := Apply(b, op);
    match op {
      case Pay(f, a, d) => if after != b { PaymentAdded(b, Payment(f, a, d, false, false)); }
      case PayPoints(f, a) => if after != b { PaymentAdded(b, Payment(f, a, false, false, false)); }
      case Void(p, closed) => VoidKeepsRefunds(b, p, closed);
      case AskRefund(f, p, a, self) => RequestKeepsRefunds(b, f, p, a, self);
      case Approve(r) => if after != b { StatusKeepsRefunds(b, r, RefundStatus.Approved); }
      case Reject(r) => if after != b { StatusKeepsRefunds(b, r, Rejected); }
      case _ => RefundsFrame(b, after);
    }
    InvFrame(b, after);
  }

  /**
   * Every ledger that any run of operations reaches is sound: each line sits on the bill of the
   * lines it belongs to, corrected at most once.
   */
  lemma {:induction false} RunKeepsInv(ops: seq<Op>)
    ensures Inv(Run(EMPTY, ops))
    decreases |ops|
  {
    if ops != [] {
      RunKeepsInv(ops[..|ops| - 1]);
      StepKeepsInv(Run(EMPTY, ops[..|ops| - 1]), ops[|ops| - 1]);
    }
  }

  /** In every reachable ledger each line sits on the bill of its parent and of the line it corrects. */
  lemma EveryRunKeepsFamiliesTogether(ops: seq<Op>, i: nat)
    requires i < |Run(EMPTY, ops).lines|
    ensures var ls := Run(EMPTY, ops).lines;
      && (ls[i].parent.Some? ==> ls[i].parent.value < i && ls[ls[i].parent.value].folio == ls[i].folio)
      && (ls[i].corrects.Some? ==> ls[i].corrects.value < i && ls[ls[i].corrects.value].folio == ls[i].folio)
      && (forall j: nat :: j < |ls| && ls[i].corrects.Some? && ls[j].corrects == ls[i].corrects ==> j == i)
  {
    var ls := Run(EMPTY, ops).lines;
    RunKeepsInv(ops);
    assert SoundAt(ls, i);
    forall j: nat | j < |ls| && ls[i].corrects.Some? && ls[j].corrects == ls[i].corrects ensures j == i {
      assert NotBoth(ls, i, j);
    }
  }

  /** Against every payment, refunds asked for, approved or paid never exceed it, and a void payment has none. */
  lemma EveryRunCoversRefunds(ops: seq<Op>, p: nat)
    requires p < |Run(EMPTY, ops).payments|
    ensures var b := Run(EMPTY, ops);
      && (b.payments[p].amount > 0 ==> RefundedAgainst(b.refunds, p, |b.refunds|) <= b.payments[p].amount)
      && (b.payments[p].isVoid ==> RefundedAgainst(b.refunds, p, |b.refunds|) == 0)
  {
    var b := Run(EMPTY, ops);
    RunKeepsInv(ops);
    assert PaymentCovers(b, p);
    if b.payments[p].isVoid {
      forall r: nat | r < |b.refunds| && b.refunds[r].payment == Some(p) ensures b.refunds[r].status == Rejected {
        assert RefundSound(b, r);
      }
      NoneLive(b.refunds, p, |b.refunds|);
    }
  }

  lemma NoneLive(rs: seq<Refund>, p: nat, n: nat)
    requires n <= |rs| && forall r :: 0 <= r < |rs| && rs[r].payment == Some(p) ==> rs[r].status == Rejected
    ensures RefundedAgainst(rs, p, n) == 0
  {
  }
}
