/**
 * What each operation on the books comes to: when it is refused, and what it changes, line by line
 * and cent by cent.
 */
module Outcomes {
  import opened Wrappers
  import opened Lines
  import opened Ledger
  import opened LedgerProof
  import opened Settlement
  import Desk

  // ----- sums over appended lines -----

  lemma OnBillMore(ls: seq<Line>, more: seq<Line>, folio: nat, n: nat)
    requires n <= |more|
    ensures OnBill(ls + more, folio, |ls| + n) == OnBill(ls, folio, |ls|) + OnBill(more, folio, n)
  {
    if n == 0 {
      OnBillExtends(ls, more, folio, |ls|);
    } else {
      OnBillMore(ls, more, folio, n - 1);
    }
  }

  // ----- charges -----

  function TaxSum(taxes: seq<TaxPart>): int {
    if taxes == [] then 0 else TaxSum(taxes[..|taxes| - 1]) + taxes[|taxes| - 1].amount
  }

  lemma {:induction false} TaxLinesSum(charge: Line, parent: nat, taxes: seq<TaxPart>, folio: nat, n: nat)
    requires n <= |taxes|
    ensures OnBill(TaxLines(charge, parent, taxes), folio, n) == if folio == charge.folio then TaxSum(taxes[..n]) else 0
  {
    if n > 0 {
      TaxLinesSum(charge, parent, taxes, folio, n - 1);
      assert taxes[..n][..n - 1] == taxes[..n - 1];
      assert TaxLines(charge, parent, taxes)[n - 1] == TaxLine(charge, parent, taxes[n - 1]);
    }
  }

  /** The lines a charge leaves: itself, then one line for each tax, which names it. */
  lemma ChargeAppends(b: Books, charge: Line, taxes: seq<TaxPart>)
    requires charge.folio in b.folios && IsCharge(charge, taxes)
    ensures var after, n := Apply(b, PostBySystem(charge, taxes)).lines, |b.lines|;
      && |after| == n + 1 + |taxes| && after[..n] == b.lines && after[n] == charge
      && forall k :: 0 <= k < |taxes| ==>
           after[n + 1 + k] ==
             Line(charge.folio, taxes[k].amount, Tax, Some(n), None, Some(taxes[k].rule), charge.date, None, false)
  {
    var after := Charged(b.lines, charge, taxes);
    assert after[..|b.lines|] == b.lines;
  }

  /** A charge raises what its bill owes by its amount and its taxes, and changes no other bill. */
  lemma ChargeRaises(b: Books, charge: Line, taxes: seq<TaxPart>, folio: nat)
    requires charge.folio in b.folios && IsCharge(charge, taxes)
    ensures Balance(Apply(b, PostBySystem(charge, taxes)), folio) ==
      Balance(b, folio) + (if folio == charge.folio then charge.amount + TaxSum(taxes) else 0)
  {
    var more := TaxLines(charge, |b.lines|, taxes);
    OnBillMore(b.lines + [charge], more, folio, |more|);
    OnBillMore(b.lines, [charge], folio, 1);
    assert OnBill([charge], folio, 0) == 0;
    TaxLinesSum(charge, |b.lines|, taxes, folio, |taxes|);
    assert taxes[..|taxes|] == taxes;
  }

  /**
   * Charges are refused exactly for a bill there is not, for what is no charge and, from the desk,
   * for a settled bill.
   */
  lemma ChargeRefused(b: Books, charge: Line, taxes: seq<TaxPart>)
    ensures Apply(b, PostBySystem(charge, taxes)) != b <==>
      && charge.folio in b.folios && charge.amount > 0 && charge.kind in {Room, Sale} && charge.parent == None
      && charge.corrects == None && forall k :: 0 <= k < |taxes| ==> taxes[k].amount > 0
    ensures Apply(b, Post(charge, taxes)) ==
      if charge.folio in b.folios && b.folios[charge.folio].status == Settled then b
        else Apply(b, PostBySystem(charge, taxes))
    ensures var posted, sold := Apply(b, PostBySystem(charge, taxes)), Apply(b, PostAtOutlet(charge, taxes));
      if posted == b then sold == b
      else sold == posted.(orders := b.orders + [PosOrder(Some(charge.folio), Some(|b.lines|), false)])
  {
    if charge.folio in b.folios && IsCharge(charge, taxes) {
      ChargeAppends(b, charge, taxes);
      assert |Apply(b, PostBySystem(charge, taxes)).lines| > |b.lines|;
    }
  }

  lemma TaxOnBillMore(ls: seq<Line>, more: seq<Line>, folio: nat, n: nat)
    requires n <= |more|
    ensures Desk.TaxOnBill(ls + more, folio, |ls| + n) ==
      Desk.TaxOnBill(ls, folio, |ls|) + Desk.TaxOnBill(more, folio, n)
  {
    if n == 0 {
      TaxOnBillExtends(ls, more, folio, |ls|);
    } else {
      TaxOnBillMore(ls, more, folio, n - 1);
    }
  }

  lemma TaxOnBillExtends(ls: seq<Line>, more: seq<Line>, folio: nat, n: nat)
    requires n <= |ls|
    ensures Desk.TaxOnBill(ls + more, folio, n) == Desk.TaxOnBill(ls, folio, n)
  {
  }

  lemma {:induction false} AllIsTax(ls: seq<Line>, folio: nat, n: nat)
    requires n <= |ls| && forall k :: 0 <= k < |ls| ==> ls[k].kind == Tax
    ensures Desk.TaxOnBill(ls, folio, n) == OnBill(ls, folio, n)
  {
    if n > 0 {
      AllIsTax(ls, folio, n - 1);
    }
  }

  /** Of what a charge puts on its bill, the taxes are shown as tax and the charge is not. */
  lemma ChargeRaisesTax(b: Books, charge: Line, taxes: seq<TaxPart>, folio: nat)
    requires charge.folio in b.folios && IsCharge(charge, taxes)
    ensures var after := Apply(b, PostBySystem(charge, taxes)).lines;
      Desk.TaxOnBill(after, folio, |after|) ==
        Desk.TaxOnBill(b.lines, folio, |b.lines|) + (if folio == charge.folio then TaxSum(taxes) else 0)
  {
    var more := TaxLines(charge, |b.lines|, taxes);
    TaxOnBillMore(b.lines + [charge], more, folio, |more|);
    TaxOnBillMore(b.lines, [charge], folio, 1);
    assert Desk.TaxOnBill([charge], folio, 0) == 0;
    AllIsTax(more, folio, |more|);
    TaxLinesSum(charge, |b.lines|, taxes, folio, |taxes|);
    assert taxes[..|taxes|] == taxes;
  }

  // ----- corrections -----

  /** No line takes this one back. */
  ghost predicate Stands(ls: seq<Line>, i: nat) {
    forall j :: 0 <= j < |ls| ==> ls[j].corrects != Some(i)
  }

  /** Line `i` is a tax on line `x`, on its bill, and nothing took it back. */
  ghost predicate StandsOn(ls: seq<Line>, x: nat, i: nat)
    requires x < |ls| && i < |ls|
  {
    ls[i].kind == Tax && ls[i].parent == Some(x) && ls[i].folio == ls[x].folio && Stands(ls, i)
  }

  /** Tax on `x` that stands, among the first `n` lines. */
  ghost function StandingTax(ls: seq<Line>, x: nat, n: nat): int
    requires x < |ls| && n <= |ls|
  {
    if n == 0 then 0 else
      StandingTax(ls, x, n - 1) + (if StandsOn(ls, x, n - 1) then ls[n - 1].amount else 0)
  }

  function AmountsOf(ls: seq<Line>, ids: seq<nat>): int {
    if ids == [] then 0 else
      var last := ids[|ids| - 1];
      AmountsOf(ls, ids[..|ids| - 1]) + (if last < |ls| then ls[last].amount else 0)
  }

  lemma AmountsAppend(ls: seq<Line>, ids: seq<nat>, i: nat)
    requires i < |ls|
    ensures AmountsOf(ls, ids + [i]) == AmountsOf(ls, ids) + ls[i].amount
  {
    assert (ids + [i])[..|ids|] == ids;
  }

  /** The `n`-th line is among the taxes taken back exactly when it is a tax on `x` that stands. */
  lemma StandingStep(ls: seq<Line>, x: nat, n: nat)
    requires x < |ls| && 0 < n <= |ls|
    ensures StandingTaxes(ls, x, n) == StandingTaxes(ls, x, n - 1) + (if StandsOn(ls, x, n - 1) then [n - 1] else [])
  {
    assert Stands(ls, n - 1) <==> !Corrected(ls, n - 1);
  }

  ghost function StandingOn(ls: seq<Line>, x: nat, n: nat): seq<nat>
    requires x < |ls| && n <= |ls|
  {
    if n == 0 then [] else StandingOn(ls, x, n - 1) + (if StandsOn(ls, x, n - 1) then [n - 1] else [])
  }

  lemma {:induction false} StandingTaxesStand(ls: seq<Line>, x: nat, n: nat)
    requires x < |ls| && n <= |ls|
    ensures StandingTaxes(ls, x, n) == StandingOn(ls, x, n)
  {
    if n > 0 {
      StandingTaxesStand(ls, x, n - 1);
      StandingStep(ls, x, n);
    }
  }

  lemma {:induction false} StandingSum(ls: seq<Line>, x: nat, n: nat)
    requires x < |ls| && n <= |ls|
    ensures AmountsOf(ls, StandingOn(ls, x, n)) == StandingTax(ls, x, n)
  {
    if n > 0 {
      StandingSum(ls, x, n - 1);
      var earlier := StandingOn(ls, x, n - 1);
      AmountsAppend(ls, earlier, n - 1);
      assert earlier + [] == earlier;
    }
  }

  lemma {:induction false} ReversalsSum(ls: seq<Line>, ts: seq<nat>, home: nat, folio: nat, n: nat)
    requires (forall k :: 0 <= k < |ts| ==> ts[k] < |ls| && ls[ts[k]].folio == home) && n <= |ts|
    ensures OnBill(TaxReversals(ls, ts), folio, n) == if folio == home then -AmountsOf(ls, ts[..n]) else 0
  {
    if n > 0 {
      ReversalsSum(ls, ts, home, folio, n - 1);
      assert ts[..n][..n - 1] == ts[..n - 1];
      assert TaxReversals(ls, ts)[n - 1] == TaxReversal(ls, |ls|, ts[n - 1]);
    }
  }

  /** What taking back line `x` takes off its bill: the line, and for a charge the tax on it that stands. */
  ghost function TakenBack(ls: seq<Line>, x: nat): int
    requires x < |ls|
  {
    ls[x].amount + (if ls[x].kind == Tax then 0 else StandingTax(ls, x, |ls|))
  }

  lemma ReversedSum(ls: seq<Line>, x: nat, folio: nat)
    requires x < |ls|
    ensures OnBill(Reversed(ls, x), folio, |Reversed(ls, x)|) ==
      OnBill(ls, folio, |ls|) - (if folio == ls[x].folio then TakenBack(ls, x) else 0)
  {
    var ts := TaxesToReverse(ls, x);
    forall k | 0 <= k < |ts| ensures ts[k] < |ls| && ls[ts[k]].folio == ls[x].folio {
      assert ts[k] in ts;
    }
    StandingTaxesStand(ls, x, |ls|);
    StandingSum(ls, x, |ls|);
    AppendedSum(ls, CorrectionOf(ls, x), ts, folio);
  }

  lemma AppendedSum(ls: seq<Line>, correction: Line, ts: seq<nat>, folio: nat)
    requires forall k :: 0 <= k < |ts| ==> ts[k] < |ls| && ls[ts[k]].folio == correction.folio
    ensures var after := ls + [correction] + TaxReversals(ls, ts);
      OnBill(after, folio, |after|) ==
        OnBill(ls, folio, |ls|) + (if folio == correction.folio then correction.amount - AmountsOf(ls, ts) else 0)
  {
    var more := TaxReversals(ls, ts);
    OnBillMore(ls + [correction], more, folio, |more|);
    OnBillMore(ls, [correction], folio, 1);
    assert OnBill([correction], folio, 0) == 0;
    ReversalsSum(ls, ts, correction.folio, folio, |ts|);
    assert ts[..|ts|] == ts;
  }

  /** The line can be taken back at all: it is there, and nothing took it back before. */
  ghost predicate CanTakeBack(b: Books, x: nat) {
    x < |b.lines| && b.lines[x].folio in b.folios && Stands(b.lines, x)
  }

  lemma TakenBackIff(b: Books, x: nat)
    ensures CanReverse(b, x) <==> CanTakeBack(b, x)
  {
    if x < |b.lines| {
      assert Stands(b.lines, x) <==> !Corrected(b.lines, x);
    }
  }

  /**
   * Correcting and waiving take the line and its standing tax off the bill and off no other; a
   * settled bill refuses the first.
   */
  lemma CorrectionOutcome(b: Books, x: nat, folio: nat)
    ensures var waived := Apply(b, Waive(x));
      if CanTakeBack(b, x) then
        Balance(waived, folio) == Balance(b, folio) - (if folio == b.lines[x].folio then TakenBack(b.lines, x) else 0)
      else waived == b
    ensures var corrected := Apply(b, Correct(x));
      if CanTakeBack(b, x) && b.folios[b.lines[x].folio].status != Settled then
        && corrected.lines == Apply(b, Waive(x)).lines &&
          Balance(corrected, folio) == Balance(Apply(b, Waive(x)), folio)
        && |corrected.orders| == |b.orders|
        && forall k :: 0 <= k < |b.orders| ==>
             corrected.orders[k] == if b.orders[k].line == Some(x) then b.orders[k].(isVoid := true) else b.orders[k]
      else corrected == b
  {
    TakenBackIff(b, x);
    if CanTakeBack(b, x) {
      ReversedSum(b.lines, x, folio);
    }
  }

  /** The first line a correction leaves: the negation, naming what it takes back. */
  lemma CorrectionAppends(b: Books, x: nat)
    requires CanTakeBack(b, x)
    ensures var after, n, line := Apply(b, Waive(x)).lines, |b.lines|, b.lines[x];
      && n < |after| && after[..n] == b.lines
      && after[n].folio == line.folio && after[n].amount == -line.amount && after[n].corrects == Some(x)
      && after[n].parent == None && after[n].date == line.date
      && (if line.kind == Tax then after[n].kind == Tax && after[n].rule == line.rule else after[n].kind == Correction)
      && forall i :: n < i < |after| ==>
           && after[i].kind == Tax && after[i].parent == Some(n) && after[i].corrects.Some?
           && var t := after[i].corrects.value;
              t < n && b.lines[t].kind == Tax && b.lines[t].parent == Some(x) && after[i].amount == -b.lines[t].amount
              && after[i].rule == b.lines[t].rule && after[i].date == b.lines[t].date && after[i].folio == line.folio
  {
    TakenBackIff(b, x);
    var ls := b.lines;
    var after, ts := Reversed(ls, x), TaxesToReverse(ls, x);
    assert after[..|ls|] == ls;
    forall i | |ls| < i < |after|
      ensures after[i] == TaxReversal(ls, |ls|, ts[i - |ls| - 1]) && ts[i - |ls| - 1] in ts {}
  }

  // ----- payments -----

  /** A payment is taken on an open bill, in points up to what it owes, and lowers the balance by its amount. */
  lemma PaymentOutcome(b: Books, f: nat, amount: int, deposit: bool, folio: nat)
    ensures var open := f in b.folios && b.folios[f].status != Settled;
      && (Apply(b, Pay(f, amount, deposit)) != b <==> open && amount > 0)
      && (Apply(b, PayPoints(f, amount)) != b <==> open && 0 < amount <= Balance(b, f))
    ensures Apply(b, Pay(f, amount, deposit)) != b ==>
      && Apply(b, Pay(f, amount, deposit)).payments == b.payments + [Payment(f, amount, deposit, false, false)]
      && Balance(Apply(b, Pay(f, amount, deposit)), folio) == Balance(b, folio) - (if folio == f then amount else 0)
    ensures Apply(b, PayPoints(f, amount)) != b ==>
      Balance(Apply(b, PayPoints(f, amount)), folio) == Balance(b, folio) - (if folio == f then amount else 0)
  {
    PaidExtends(b.payments, Payment(f, amount, deposit, false, false), folio, |b.payments|);
    PaidExtends(b.payments, Payment(f, amount, false, false, false), folio, |b.payments|);
    assert |b.payments + [Payment(f, amount, deposit, false, false)]| > |b.payments|;
    assert |b.payments + [Payment(f, amount, false, false, false)]| > |b.payments|;
  }

  lemma DepositsExtend(ps: seq<Payment>, more: Payment, folio: nat, n: nat)
    requires n <= |ps|
    ensures Desk.DepositsOn(ps + [more], folio, n) == Desk.DepositsOn(ps, folio, n)
  {
  }

  /** Only a payment taken as a deposit counts as one. */
  lemma DepositOutcome(b: Books, f: nat, amount: int, deposit: bool, folio: nat)
    requires f in b.folios && b.folios[f].status != Settled && amount > 0
    ensures var after := Apply(b, Pay(f, amount, deposit)).payments;
      Desk.DepositsOn(after, folio, |after|) ==
        Desk.DepositsOn(b.payments, folio, |b.payments|) + (if deposit && folio == f then amount else 0)
  {
    DepositsExtend(b.payments, Payment(f, amount, deposit, false, false), folio, |b.payments|);
  }

  /** When a payment may be voided. */
  ghost predicate MayVoid(b: Books, p: nat, drawerClosed: bool) {
    && p < |b.payments| && !b.payments[p].isVoid && !b.payments[p].payout && b.payments[p].amount > 0 && !drawerClosed
    && b.payments[p].folio in b.folios && b.folios[b.payments[p].folio].status != Settled
    && forall r :: 0 <= r < |b.refunds| && b.refunds[r].payment == Some(p) ==> b.refunds[r].status == Rejected
  }

  /** Voiding a payment puts its amount back on the bill, once. */
  lemma VoidOutcome(b: Books, p: nat, drawerClosed: bool, folio: nat)
    ensures Apply(b, Void(p, drawerClosed)) != b <==> MayVoid(b, p, drawerClosed)
    ensures MayVoid(b, p, drawerClosed) ==>
      var after := Apply(b, Void(p, drawerClosed));
      && Balance(after, folio) == Balance(b, folio) + (if folio == b.payments[p].folio then b.payments[p].amount else 0)
      && Apply(after, Void(p, drawerClosed)) == after
  {
    if MayVoid(b, p, drawerClosed) {
      PaidAfterVoid(b.payments, p, folio, |b.payments|);
      assert Apply(b, Void(p, drawerClosed)).payments[p].isVoid;
    }
  }

  lemma {:induction false} DepositsAfterVoid(ps: seq<Payment>, p: nat, folio: nat, n: nat)
    requires p < |ps| && n <= |ps| && !ps[p].isVoid
    ensures Desk.DepositsOn(ps[p := ps[p].(isVoid := true)], folio, n) == Desk.DepositsOn(ps, folio, n)
      - (if p < n && ps[p].folio == folio && ps[p].deposit then ps[p].amount else 0)
  {
    if n > 0 {
      DepositsAfterVoid(ps, p, folio, n - 1);
    }
  }

  /** And none once it is voided. */
  lemma VoidedDepositOutcome(b: Books, p: nat, folio: nat)
    requires MayVoid(b, p, false)
    ensures var after := Apply(b, Void(p, false)).payments;
      Desk.DepositsOn(after, folio, |after|) == Desk.DepositsOn(b.payments, folio, |b.payments|)
        - (if b.payments[p].deposit && b.payments[p].folio == folio then b.payments[p].amount else 0)
  {
    VoidOutcome(b, p, false, folio);
    DepositsAfterVoid(b.payments, p, folio, |b.payments|);
  }

  // ----- the status of a bill -----

  /** Only the bill named changes, and of it only the status. */
  ghost predicate OnlyStatus(b: Books, after: Books, folio: nat, status: FolioStatus) {
    folio in b.folios &&
      after == b.(folios := b.folios[folio := Folio(b.folios[folio].branch, b.folios[folio].reservation, status)])
  }

  /** Closing settles exactly a bill that stands at zero; reopening opens exactly a settled one. */
  lemma ClosingOutcome(b: Books, folio: nat)
    ensures if folio in b.folios && Balance(b, folio) == 0 then OnlyStatus(b, Apply(b, Close(folio)), folio, Settled)
      else Apply(b, Close(folio)) == b
    ensures if folio in b.folios && b.folios[folio].status == Settled then
      OnlyStatus(b, Apply(b, Reopen(folio)), folio, Open)
      else Apply(b, Reopen(folio)) == b
  {
  }

  /** A bill is opened once, pending until arrival. */
  lemma OpeningOutcome(b: Books, folio: nat, branch: nat, reservation: Option<nat>, arrived: bool)
    ensures var after := Apply(b, OpenBill(folio, branch, reservation, arrived));
      if folio !in b.folios then
        after == b.(folios := b.folios[folio := Folio(branch, reservation, if arrived then Open else Pending)])
      else if arrived && b.folios[folio].status == Pending then OnlyStatus(b, after, folio, Open)
      else after == b
  {
  }

  // ----- refunds -----

  /** Refunds of a bill asked for or approved, and neither paid out nor rejected, among the first `n`. */
  function Promised(rs: seq<Refund>, folio: nat, n: nat): int
    requires n <= |rs|
  {
    if n == 0 then 0 else
      var rf := rs[n - 1];
      Promised(rs, folio, n - 1) + (if rf.folio == folio && rf.status in {Requested, Approved} then rf.amount else 0)
  }

  /** Refunds against one payment, rejected ones apart, among the first `n`. */
  function Against(rs: seq<Refund>, payment: nat, n: nat): int
    requires n <= |rs|
  {
    if n == 0 then 0 else
      var rf := rs[n - 1];
      Against(rs, payment, n - 1)
        + (if rf.payment == Some(payment) && rf.status in {Requested, Approved, Processed} then rf.amount else 0)
  }

  lemma OnTheWayIsPromised(rs: seq<Refund>, folio: nat, except: Option<nat>, n: nat)
    requires n <= |rs|
    ensures OnTheWay(rs, folio, except, n) == Promised(rs, folio, n)
      - (if except.Some? && except.value < n && rs[except.value].folio == folio && Outstanding(rs[except.value])
         then rs[except.value].amount else 0)
  {
  }

  lemma RefundedIsAgainst(rs: seq<Refund>, payment: nat, n: nat)
    requires n <= |rs|
    ensures RefundedAgainst(rs, payment, n) == Against(rs, payment, n)
  {
  }

  /** The bill's credit covers the refund with those promised before, and a payment it is against covers it too. */
  ghost predicate MayAsk(b: Books, folio: nat, against: Option<nat>, amount: int) {
    && folio in b.folios && amount > 0 && Balance(b, folio) + Promised(b.refunds, folio, |b.refunds|) + amount <= 0
    && (against.Some? ==>
          var p := against.value;
          && p < |b.payments| && b.payments[p].folio == folio && !b.payments[p].isVoid && b.payments[p].amount > 0
          && Against(b.refunds, p, |b.refunds|) + amount <= b.payments[p].amount)
  }

  /** A refund is entered exactly while there is credit for it, already approved if the one asking may approve. */
  lemma AskingOutcome(b: Books, folio: nat, against: Option<nat>, amount: int, selfApproved: bool)
    ensures var after := Apply(b, AskRefund(folio, against, amount, selfApproved));
      if MayAsk(b, folio, against, amount)
      then after ==
        b.(refunds := b.refunds + [Refund(folio, against, amount, if selfApproved then Approved else Requested)])
      else after == b
  {
    OnTheWayIsPromised(b.refunds, folio, None, |b.refunds|);
    if against.Some? {
      RefundedIsAgainst(b.refunds, against.value, |b.refunds|);
    }
  }

  /** Only the status of one refund changes. */
  ghost predicate OnlyRefund(b: Books, after: Books, r: nat, status: RefundStatus) {
    && r < |b.refunds|
    && after ==
      b.(refunds := b.refunds[r := Refund(b.refunds[r].folio, b.refunds[r].payment, b.refunds[r].amount, status)])
  }

  /**
   * Approval wants a request all the promised refunds still have credit for; a rejection wants one
   * not yet decided for good.
   */
  lemma DecisionOutcome(b: Books, r: nat)
    requires RefundsInv(b)
    ensures if r < |b.refunds| && b.refunds[r].status == Requested
        && Balance(b, b.refunds[r].folio) + Promised(b.refunds, b.refunds[r].folio, |b.refunds|) <= 0
      then OnlyRefund(b, Apply(b, Approve(r)), r, Approved) else Apply(b, Approve(r)) == b
    ensures if r < |b.refunds| && b.refunds[r].status in {Requested, Approved}
      then OnlyRefund(b, Apply(b, Reject(r)), r, Rejected) else Apply(b, Reject(r)) == b
  {
    if r < |b.refunds| {
      assert RefundSound(b, r);
      OnTheWayIsPromised(b.refunds, b.refunds[r].folio, Some(r), |b.refunds|);
    }
  }

  /** When a refund is handed over: approved, no more than the bill's credit, and cash only from an open drawer. */
  ghost predicate MayHandOver(b: Books, r: nat, drawerOpen: bool) {
    r < |b.refunds| && b.refunds[r].status == Approved && Balance(b, b.refunds[r].folio) + b.refunds[r].amount <= 0 &&
      drawerOpen
  }

  /**
   * A pay-out processes the refund, enters the money given back and settles the bill of an ended
   * stay that comes to zero.
   */
  lemma PayOutOutcome(b: Books, r: nat, drawerOpen: bool, stayEnded: bool)
    ensures var after := Apply(b, PayOut(r, drawerOpen, stayEnded));
      if MayHandOver(b, r, drawerOpen) then
        var rf := b.refunds[r];
        && after.refunds == b.refunds[r := Refund(rf.folio, rf.payment, rf.amount, Processed)]
        && after.payments == b.payments + [Payment(rf.folio, -rf.amount, false, false, true)]
        && after.lines == b.lines && after.orders == b.orders && after.transfers == b.transfers
        && after.folios ==
             (if stayEnded && rf.folio in b.folios && Balance(b, rf.folio) + rf.amount == 0
              then b.folios[rf.folio := Folio(b.folios[rf.folio].branch, b.folios[rf.folio].reservation, Settled)]
              else b.folios)
      else after == b
  {
    if MayHandOver(b, r, drawerOpen) {
      BalanceAfterHandOver(b, r, b.refunds[r].folio);
      var rf := b.refunds[r];
      if rf.folio in b.folios && b.folios[rf.folio].status == Settled {
        assert b.folios[rf.folio := b.folios[rf.folio]] == b.folios;
      }
    }
  }
}
