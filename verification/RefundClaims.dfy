/**
 * Approving, turning down and paying out refunds from several desks at once: each first reads the
 * refund, then changes it only while it still stands where it should.
 */
module RefundClaims {
  import opened Wrappers
  import opened Ledger

  datatype Kind = Approving | Rejecting | PayingOut

  /** A refund, and the payment it was paid out with. */
  datatype Row = Row(amount: int, status: RefundStatus, paidBy: Option<nat>)
  datatype Payout = Payout(refund: nat, amount: int)

  /** What a request read, carried to its update. */
  datatype InHand = InHand(kind: Kind, refund: nat, amount: int)

  datatype Desks = Desks(refunds: seq<Row>, payouts: seq<Payout>, inHand: map<nat, InHand>)

  const CLOSED := Desks([], [], map[])

  /** Where a refund must stand for a change of this kind. */
  predicate Admits(status: RefundStatus, kind: Kind) {
    match kind
    case Approving => status == Requested
    case Rejecting => status == Requested || status == Approved
    case PayingOut => status == Approved
  }

  function Outcome(kind: Kind): RefundStatus {
    match kind
    case Approving => Approved
    case Rejecting => Rejected
    case PayingOut => Processed
  }

  datatype Step =
    | Ask(amount: int, selfApproved: bool)
    // a request reads the refund; the bill then shows `credit` free for it
    | Read(request: nat, refund: nat, kind: Kind, credit: int)
    // the conditional update, and with it the payment
    | Claim(request: nat)

  function Apply(d: Desks, step: Step): Desks {
    match step
    case Ask(amount, selfApproved) =>
      if amount <= 0 then d
        else d.(refunds := d.refunds + [Row(amount, if selfApproved then Approved else Requested, None)])
    case Read(q, r, kind, credit) =>
      if r < |d.refunds| && Admits(d.refunds[r].status, kind) && (kind.Rejecting? || d.refunds[r].amount <= credit)
      then d.(inHand := d.inHand[q := InHand(kind, r, d.refunds[r].amount)]) else d.(inHand := d.inHand - {q})
    case Claim(q) =>
      if q !in d.inHand then d else
        var p := d.inHand[q];
        var rest := d.(inHand := d.inHand - {q});
        if p.refund < |d.refunds| && Admits(d.refunds[p.refund].status, p.kind) then Changed(rest, p) else rest
  }

  /** The refund moves on; paid out, the money leaves with it. */
  function Changed(d: Desks, p: InHand): Desks
    requires p.refund < |d.refunds|
  {
    var row := d.refunds[p.refund].(status := Outcome(p.kind));
    if p.kind.PayingOut?
    then d.(refunds := d.refunds[p.refund := row.(paidBy := Some(|d.payouts|))], payouts := d.payouts
      + [Payout(p.refund, -p.amount)])
    else d.(refunds := d.refunds[p.refund := row])
  }

  function Run(steps: seq<Step>): Desks
    decreases |steps|
  {
    if steps == [] then CLOSED else Apply(Run(steps[..|steps| - 1]), steps[|steps| - 1])
  }

  /** Payments made for one refund. */
  function PayoutsFor(ps: seq<Payout>, r: nat): seq<int> {
    if ps == [] then []
    else
      var before, last := PayoutsFor(ps[..|ps| - 1], r), ps[|ps| - 1];
      if last.refund == r then before + [last.amount] else before
  }

  lemma PayoutAdded(ps: seq<Payout>, p: Payout, r: nat)
    ensures PayoutsFor(ps + [p], r) == if p.refund == r then PayoutsFor(ps, r) + [p.amount] else PayoutsFor(ps, r)
  {
    assert (ps + [p])[..|ps|] == ps;
  }

  /** The refund was paid out once, for its amount, by the payment it names; or not at all. */
  ghost predicate PaidRight(d: Desks, r: nat)
    requires r < |d.refunds|
  {
    var row := d.refunds[r];
    && row.amount > 0
    && PayoutsFor(d.payouts, r) == (if row.status == Processed then [-row.amount] else [])
    && (row.status == Processed <==> row.paidBy.Some?)
    && (row.paidBy.Some? ==> row.paidBy.value < |d.payouts| && d.payouts[row.paidBy.value] == Payout(r, -row.amount))
  }

  ghost predicate Inv(d: Desks) {
    Linked(d) && forall r: nat {:trigger PaidRight(d, r)} :: r < |d.refunds| ==> PaidRight(d, r)
  }

  lemma NoPayoutsYet(ps: seq<Payout>, r: nat)
    requires forall k :: 0 <= k < |ps| ==> ps[k].refund != r
    ensures PayoutsFor(ps, r) == []
  {
  }

  lemma ChangedKeepsPaidRight(d: Desks, p: InHand, r: nat)
    requires r < |d.refunds| && PaidRight(d, r)
    requires p.refund < |d.refunds| && p.amount == d.refunds[p.refund].amount &&
      Admits(d.refunds[p.refund].status, p.kind)
    ensures PaidRight(Changed(d, p), r)
  {
    PayoutAdded(d.payouts, Payout(p.refund, -p.amount), r);
  }

  ghost predicate Linked(d: Desks) {
    && (forall q ::
      q in d.inHand ==> d.inHand[q].refund < |d.refunds| && d.inHand[q].amount == d.refunds[d.inHand[q].refund].amount)
    && (forall k :: 0 <= k < |d.payouts| ==> d.payouts[k].refund < |d.refunds|)
  }

  lemma StepKeepsLinked(d: Desks, step: Step)
    requires Linked(d)
    ensures Linked(Apply(d, step))
  {
  }

  lemma ClaimKeepsPaidRight(d: Desks, q: nat, r: nat)
    requires Linked(d) && q in d.inHand && r < |d.refunds| && PaidRight(d, r)
    ensures PaidRight(Apply(d, Claim(q)), r)
  {
    var p, rest := d.inHand[q], d.(inHand := d.inHand - {q});
    assert PaidRight(rest, r);
    if Admits(d.refunds[p.refund].status, p.kind) {
      ChangedKeepsPaidRight(rest, p, r);
    }
  }

  lemma StepKeepsPaidRight(d: Desks, step: Step, r: nat)
    requires Linked(d) && r < |Apply(d, step).refunds| && (r < |d.refunds| ==> PaidRight(d, r))
    ensures PaidRight(Apply(d, step), r)
  {
    match step
    case Ask(_, _) => if r >= |d.refunds| { NoPayoutsYet(d.payouts, r); }
    case Read(_, _, _, _) =>
    case Claim(q) => if q in d.inHand { ClaimKeepsPaidRight(d, q, r); }
  }

  lemma StepKeepsInv(d: Desks, step: Step)
    requires Inv(d)
    ensures Inv(Apply(d, step))
  {
    StepKeepsLinked(d, step);
    forall r: nat | r < |Apply(d, step).refunds| ensures PaidRight(Apply(d, step), r) {
      if r < |d.refunds| {
        assert PaidRight(d, r);
      }
      StepKeepsPaidRight(d, step, r);
    }
  }

  lemma {:induction false} RunKeepsInv(steps: seq<Step>)
    ensures Inv(Run(steps))
    decreases |steps|
  {
    if steps != [] {
      RunKeepsInv(steps[..|steps| - 1]);
      StepKeepsInv(Run(steps[..|steps| - 1]), steps[|steps| - 1]);
    }
  }

  /**
   * However approvals, rejections and pay-outs interleave, a processed refund has exactly one
   * payment, its amount negated, and any other has none.
   */
  lemma PaidOutExactlyOnce(steps: seq<Step>, r: nat)
    requires r < |Run(steps).refunds|
    ensures var d := Run(steps);
      PayoutsFor(d.payouts, r) == if d.refunds[r].status == Processed then [-d.refunds[r].amount] else []
  {
    RunKeepsInv(steps);
    assert PaidRight(Run(steps), r);
  }

  lemma FinalForOneStep(d: Desks, step: Step, r: nat)
    requires r < |d.refunds| && d.refunds[r].status in {Processed, Rejected}
    ensures r < |Apply(d, step).refunds| && Apply(d, step).refunds[r] == d.refunds[r]
  {
  }

  lemma ProcessedFromApproved(d: Desks, step: Step, r: nat)
    requires r < |Apply(d, step).refunds| && Apply(d, step).refunds[r].status == Processed &&
      !(r < |d.refunds| && d.refunds[r].status == Processed)
    ensures r < |d.refunds| && d.refunds[r].status == Approved
  {
  }

  /** A refund processed or rejected stays as it is, whatever requests are still on their way. */
  lemma {:induction false} ProcessedAndRejectedAreFinal(steps: seq<Step>, n: nat, r: nat)
    requires n <= |steps| && r < |Run(steps[..n]).refunds|
    requires Run(steps[..n]).refunds[r].status in {Processed, Rejected}
    ensures r < |Run(steps).refunds| && Run(steps).refunds[r] == Run(steps[..n]).refunds[r]
    decreases |steps|
  {
    if n == |steps| {
      assert steps[..n] == steps;
    } else {
      var front := steps[..|steps| - 1];
      assert front[..n] == steps[..n];
      ProcessedAndRejectedAreFinal(front, n, r);
      FinalForOneStep(Run(front), steps[|steps| - 1], r);
    }
  }

  /** Nothing is paid out that was not approved first: two moves lead to `processed`, and no step makes both. */
  lemma {:induction false} PaidOutAfterApproval(steps: seq<Step>, r: nat) returns (n: nat)
    requires r < |Run(steps).refunds| && Run(steps).refunds[r].status == Processed
    ensures n < |steps| && r < |Run(steps[..n]).refunds| && Run(steps[..n]).refunds[r].status == Approved
    decreases |steps|
  {
    var front := steps[..|steps| - 1];
    if r < |Run(front).refunds| && Run(front).refunds[r].status == Processed {
      n := PaidOutAfterApproval(front, r);
      assert front[..n] == steps[..n];
    } else {
      n := |steps| - 1;
      ProcessedFromApproved(Run(front), steps[n], r);
    }
  }

  // ----- what a request comes to -----

  /** When a change of this kind is due, as a plain rule. */
  ghost predicate Due(d: Desks, r: nat, kind: Kind, credit: int) {
    && r < |d.refunds|
    && match kind
       case Approving => d.refunds[r].status == Requested && d.refunds[r].amount <= credit
       case Rejecting => d.refunds[r].status == Requested || d.refunds[r].status == Approved
       case PayingOut => d.refunds[r].status == Approved && d.refunds[r].amount <= credit
  }

  /** One refund moved on as its kind says, with a payment if and only if it was paid out; nothing else changed. */
  ghost predicate MovedOn(d: Desks, after: Desks, r: nat, kind: Kind) {
    && r < |d.refunds|
    && match kind
       case Approving =>
         after.refunds == d.refunds[r := Row(d.refunds[r].amount, Approved, d.refunds[r].paidBy)] &&
           after.payouts == d.payouts
       case Rejecting =>
         after.refunds == d.refunds[r := Row(d.refunds[r].amount, Rejected, d.refunds[r].paidBy)] &&
           after.payouts == d.payouts
       case PayingOut =>
         && after.refunds == d.refunds[r := Row(d.refunds[r].amount, Processed, Some(|d.payouts|))]
         && after.payouts == d.payouts + [Payout(r, -d.refunds[r].amount)]
  }

  /** Read and changed with nothing in between, a refund moves on exactly when that is due. */
  lemma UndisturbedOutcome(d: Desks, q: nat, r: nat, kind: Kind, credit: int)
    ensures var after := Apply(Apply(d, Read(q, r, kind, credit)), Claim(q));
      && q !in after.inHand
      && if Due(d, r, kind, credit) then MovedOn(d, after, r, kind)
         else after.refunds == d.refunds && after.payouts == d.payouts
  {
    var read := Apply(d, Read(q, r, kind, credit));
    if Due(d, r, kind, credit) {
      assert read.inHand[q] == InHand(kind, r, d.refunds[r].amount);
    }
  }

  /** A refund asked for waits for approval, unless whoever asks may approve; one for nothing is refused. */
  lemma AskOutcome(d: Desks, amount: int, selfApproved: bool)
    ensures Apply(d, Ask(amount, selfApproved)) ==
      if amount <= 0 then d
      else if selfApproved then d.(refunds := d.refunds + [Row(amount, Approved, None)])
      else d.(refunds := d.refunds + [Row(amount, Requested, None)])
  {
  }
}
