/** Every refund on its way out of a covered bill gets there, in whatever order they are dealt with. */
module PayOuts {
  import opened Wrappers
  import opened Ledger
  import opened LedgerProof
  import opened Settlement

  /** A refund of the bill asked for or approved, and neither paid out nor turned down. */
  predicate Waiting(b: Books, r: nat, folio: nat) {
    r < |b.refunds| && b.refunds[r].folio == folio && Outstanding(b.refunds[r])
  }

  lemma OnTheWaySplits(rs: seq<Refund>, folio: nat, r: nat, n: nat)
    requires r < |rs| && n <= |rs|
    ensures OnTheWay(rs, folio, None, n) ==
      OnTheWay(rs, folio, Some(r), n)
        + (if r < n && rs[r].folio == folio && Outstanding(rs[r]) then rs[r].amount else 0)
  {
  }

  /** A refund asked for on a covered bill is not refused approval. */
  lemma CoveredCanApprove(b: Books, r: nat)
    requires r < |b.refunds| && b.refunds[r].status == Requested && Covered(b, b.refunds[r].folio)
    ensures CanApprove(b, r)
  {
    OnTheWaySplits(b.refunds, b.refunds[r].folio, r, |b.refunds|);
  }

  // ----- what may happen meanwhile -----

  /** Dealing with payments and refunds, or anything else that does not raise what this bill owes. */
  ghost predicate Harmless(b: Books, op: Op, folio: nat) {
    Quiet(op) || Balance(Apply(b, op), folio) <= Balance(b, folio)
  }

  ghost predicate HarmlessRun(b: Books, ops: seq<Op>, folio: nat)
    decreases |ops|
  {
    ops == [] || (HarmlessRun(b, ops[..|ops| - 1], folio) && Harmless(Run(b, ops[..|ops| - 1]), ops[|ops| - 1], folio))
  }

  lemma RefundsUntouched(b: Books, op: Op)
    requires !Quiet(op)
    ensures Apply(b, op).refunds == b.refunds
  {
  }

  lemma HarmlessKeepsCovered(b: Books, op: Op, folio: nat)
    requires Inv(b) && Covered(b, folio) && Harmless(b, op, folio)
    ensures Covered(Apply(b, op), folio)
  {
    if Quiet(op) {
      QuietKeepsCovered(b, op, folio);
    } else {
      RefundsUntouched(b, op);
    }
  }

  /** A bill's credit goes on covering its refunds until something raises what the bill owes. */
  lemma {:induction false} HarmlessRunKeepsCovered(b: Books, ops: seq<Op>, folio: nat)
    requires Inv(b) && Covered(b, folio) && HarmlessRun(b, ops, folio)
    ensures Inv(Run(b, ops)) && Covered(Run(b, ops), folio)
    decreases |ops|
  {
    if ops != [] {
      var front, last := ops[..|ops| - 1], ops[|ops| - 1];
      HarmlessRunKeepsCovered(b, front, folio);
      StepKeepsInv(Run(b, front), last);
      HarmlessKeepsCovered(Run(b, front), last, folio);
    }
  }

  /** After any such run of a covered bill, a refund asked for can be approved and an approved one paid out. */
  lemma NeverRefused(b: Books, ops: seq<Op>, folio: nat, r: nat)
    requires Inv(b) && Covered(b, folio) && HarmlessRun(b, ops, folio) && Waiting(Run(b, ops), r, folio)
    ensures Run(b, ops).refunds[r].status == Requested ==> CanApprove(Run(b, ops), r)
    ensures Run(b, ops).refunds[r].status == RefundStatus.Approved ==> CanPayOut(Run(b, ops), r)
  {
    HarmlessRunKeepsCovered(b, ops, folio);
    var now := Run(b, ops);
    if now.refunds[r].status == Requested {
      CoveredCanApprove(now, r);
    } else {
      CoveredCanPayOut(now, r);
    }
  }

  /** The operation turns down or pays out this refund. */
  predicate Decides(op: Op, r: nat) {
    (op.Reject? || op.PayOut?) && op.refund == r
  }

  lemma QuietKeepsWaiting(b: Books, op: Op, r: nat, folio: nat)
    requires Quiet(op)
    ensures Waiting(b, r, folio) && !Decides(op, r) ==> Waiting(Apply(b, op), r, folio)
    ensures r < |b.refunds| && b.refunds[r].status == Processed ==>
      r < |Apply(b, op).refunds| && Apply(b, op).refunds[r].status == Processed
  {
  }

  lemma StepKeepsWaiting(b: Books, op: Op, r: nat, folio: nat)
    ensures Waiting(b, r, folio) && !Decides(op, r) ==> Waiting(Apply(b, op), r, folio)
    ensures r < |b.refunds| && b.refunds[r].status == Processed ==>
      r < |Apply(b, op).refunds| && Apply(b, op).refunds[r].status == Processed
  {
    if Quiet(op) {
      QuietKeepsWaiting(b, op, r, folio);
    } else {
      RefundsUntouched(b, op);
    }
  }

  lemma {:induction false} RunKeepsWaiting(b: Books, ops: seq<Op>, r: nat, folio: nat)
    ensures Waiting(b, r, folio) && (forall i :: 0 <= i < |ops| ==> !Decides(ops[i], r)) ==>
      Waiting(Run(b, ops), r, folio)
    ensures r < |b.refunds| && b.refunds[r].status == Processed ==>
      r < |Run(b, ops).refunds| && Run(b, ops).refunds[r].status == Processed
    decreases |ops|
  {
    if ops != [] {
      var front, last := ops[..|ops| - 1], ops[|ops| - 1];
      RunKeepsWaiting(b, front, r, folio);
      StepKeepsWaiting(Run(b, front), last, r, folio);
    }
  }

  // ----- one after another -----

  /** Whatever happens first, then approval where it is still wanted, then the money. */
  ghost function DealtWith(b: Books, gap: seq<Op>, r: nat, ended: bool): Books {
    PayOutRefund(ApproveRefund(Run(b, gap), r), r, true, ended)
  }

  /** `states` are the books as the refunds of a list are dealt with one by one, with other operations before each. */
  ghost predicate Trace(states: seq<Books>, order: seq<nat>, gaps: seq<seq<Op>>, ended: bool) {
    && |states| == |order| + 1 && |gaps| == |order|
    && forall k: nat {:trigger TraceAt(states, order, gaps, ended, k)} ::
      k < |order| ==> TraceAt(states, order, gaps, ended, k)
  }

  ghost predicate TraceAt(states: seq<Books>, order: seq<nat>, gaps: seq<seq<Op>>, ended: bool, k: nat) {
    k < |order| && k < |gaps| && k + 1 < |states| && states[k + 1] == DealtWith(states[k], gaps[k], order[k], ended)
  }

  /** The operations decide on none of the refunds listed. */
  ghost predicate Between(gap: seq<Op>, order: seq<nat>) {
    forall i, k :: 0 <= i < |gap| && 0 <= k < |order| ==> !Decides(gap[i], order[k])
  }

  /** The refund is still on its way, and neither step of dealing with it is refused. */
  ghost predicate NotRefused(before: Books, r: nat, folio: nat) {
    && Waiting(before, r, folio)
    && (before.refunds[r].status == Requested ==> CanApprove(before, r))
    && CanPayOut(ApproveRefund(before, r), r)
  }

  lemma ApprovedThenPaid(before: Books, r: nat, ended: bool, folio: nat)
    requires Inv(before) && Covered(before, folio) && Waiting(before, r, folio)
    ensures NotRefused(before, r, folio)
    ensures Inv(ApproveRefund(before, r)) && Covered(ApproveRefund(before, r), folio)
  {
    if before.refunds[r].status == Requested {
      CoveredCanApprove(before, r);
    }
    StepKeepsInv(before, Approve(r));
    DecisionKeepsCovered(before, r, folio);
    CoveredCanPayOut(ApproveRefund(before, r), r);
  }

  lemma PaidIsProcessed(b: Books, r: nat, ended: bool)
    requires CanPayOut(b, r)
    ensures var after := PayOutRefund(b, r, true, ended); r < |after.refunds| && after.refunds[r].status == Processed
  {
  }

  lemma OneDealtWith(b: Books, gap: seq<Op>, r: nat, ended: bool, folio: nat)
    requires Inv(b) && Covered(b, folio) && Waiting(b, r, folio) && HarmlessRun(b, gap, folio) && forall i ::
      0 <= i < |gap| ==> !Decides(gap[i], r)
    ensures NotRefused(Run(b, gap), r, folio)
    ensures var after := DealtWith(b, gap, r, ended);
      Inv(after) && Covered(after, folio) && r < |after.refunds| && after.refunds[r].status == Processed
  {
    var before := Run(b, gap);
    HarmlessRunKeepsCovered(b, gap, folio);
    RunKeepsWaiting(b, gap, r, folio);
    ApprovedThenPaid(before, r, ended, folio);
    var approved := ApproveRefund(before, r);
    PayOutKeepsInv(approved, r, true, ended);
    PayOutKeepsCovered(approved, r, true, ended, folio);
    PaidIsProcessed(approved, r, ended);
  }

  lemma OthersGoOn(b: Books, gap: seq<Op>, r: nat, ended: bool, other: nat, folio: nat)
    requires other != r
    ensures Waiting(b, other, folio) && (forall i :: 0 <= i < |gap| ==> !Decides(gap[i], other)) ==>
      Waiting(DealtWith(b, gap, r, ended), other, folio)
    ensures var after := DealtWith(b, gap, r, ended);
      other < |b.refunds| && b.refunds[other].status == Processed ==>
        other < |after.refunds| && after.refunds[other].status == Processed
  {
    RunKeepsWaiting(b, gap, other, folio);
    StepKeepsWaiting(Run(b, gap), Approve(r), other, folio);
    StepKeepsWaiting(ApproveRefund(Run(b, gap), r), PayOut(r, true, ended), other, folio);
  }

  /** Refund `i` of the list: dealt with if among the first `k`, else still on its way. */
  ghost predicate Stage(now: Books, order: seq<nat>, k: nat, folio: nat, i: nat) {
    i < |order| && if i < k then order[i] < |now.refunds| && now.refunds[order[i]].status == Processed
      else Waiting(now, order[i], folio)
  }

  ghost predicate Progress(now: Books, order: seq<nat>, k: nat, folio: nat) {
    Inv(now) && Covered(now, folio) && forall i: nat {:trigger Stage(now, order, k, folio, i)} ::
      i < |order| ==> Stage(now, order, k, folio, i)
  }

  lemma ProgressOn(b: Books, order: seq<nat>, k: nat, gap: seq<Op>, ended: bool, folio: nat, after: Books, next: nat)
    requires k < |order| && Progress(b, order, k, folio) && Between(gap, order) && HarmlessRun(b, gap, folio)
    requires forall i, j :: 0 <= i < j < |order| ==> order[i] != order[j]
    requires after == DealtWith(b, gap, order[k], ended) && next == k + 1
    ensures NotRefused(Run(b, gap), order[k], folio) && Progress(after, order, next, folio)
  {
    assert Stage(b, order, k, folio, k);
    OneDealtWith(b, gap, order[k], ended, folio);
    forall i: nat | i < |order| ensures Stage(after, order, next, folio, i) {
      assert Stage(b, order, k, folio, i);
      if i != k {
        OthersGoOn(b, gap, order[k], ended, order[i], folio);
      }
    }
  }

  /**
   * The refunds are of this bill and on their way, each listed once; nothing in between decides on
   * one, or raises what the bill owes.
   */
  ghost predicate Listed(states: seq<Books>, order: seq<nat>, gaps: seq<seq<Op>>, folio: nat) {
    && |states| == |order| + 1 && |gaps| == |order| && (forall i, j :: 0 <= i < j < |order| ==> order[i] != order[j])
    && (forall i :: 0 <= i < |order| ==> Waiting(states[0], order[i], folio))
    && (forall i :: 0 <= i < |gaps| ==> Between(gaps[i], order) && HarmlessRun(states[i], gaps[i], folio))
  }

  lemma ProgressAtFirst(b: Books, order: seq<nat>, folio: nat)
    requires Inv(b) && Covered(b, folio) && forall i :: 0 <= i < |order| ==> Waiting(b, order[i], folio)
    ensures Progress(b, order, 0, folio)
  {
    forall i: nat | i < |order| ensures Stage(b, order, 0, folio, i) {}
  }

  lemma {:induction false} ProgressAt(states: seq<Books>, order: seq<nat>, gaps: seq<seq<Op>>, folio: nat, ended: bool,
      k: nat, next: nat)
    requires next == k + 1 && TraceAt(states, order, gaps, ended, k) && Listed(states, order, gaps, folio) &&
      Progress(states[k], order, k, folio)
    ensures NotRefused(Run(states[k], gaps[k]), order[k], folio) && Progress(states[next], order, next, folio)
  {
    ProgressOn(states[k], order, k, gaps[k], ended, folio, states[next], next);
  }

  lemma {:induction false} ProgressSoFar(states: seq<Books>, order: seq<nat>, gaps: seq<seq<Op>>, folio: nat,
      ended: bool, k: nat)
    requires Trace(states, order, gaps, ended) && Listed(states, order, gaps, folio)
    requires Inv(states[0]) && Covered(states[0], folio) && k <= |order|
    ensures Progress(states[k], order, k, folio)
    decreases k
  {
    if k == 0 {
      ProgressAtFirst(states[0], order, folio);
    } else {
      ProgressSoFar(states, order, gaps, folio, ended, k - 1);
      assert TraceAt(states, order, gaps, ended, k - 1);
      ProgressAt(states, order, gaps, folio, ended, k - 1, k);
    }
  }

  lemma AllProcessed(folio: nat, order: seq<nat>, last: Books)
    requires Progress(last, order, |order|, folio)
    ensures forall i :: 0 <= i < |order| ==> order[i] < |last.refunds| && last.refunds[order[i]].status == Processed
  {
    forall i: nat | i < |order| ensures order[i] < |last.refunds| && last.refunds[order[i]].status == Processed {
      assert Stage(last, order, |order|, folio, i);
    }
  }

  /**
   * All refunds on their way out of a covered bill can be approved where they
   * are not yet and paid out, in any order, whatever comes in between that
   * does not raise what the bill owes: none is refused, and in the end all are
   * processed.
   */
  lemma AnyOrderOfPayOuts(states: seq<Books>, order: seq<nat>, gaps: seq<seq<Op>>, folio: nat, ended: bool)
    requires Trace(states, order, gaps, ended) && Listed(states, order, gaps, folio)
    requires Inv(states[0]) && Covered(states[0], folio)
    ensures forall k :: 0 <= k < |order| ==> NotRefused(Run(states[k], gaps[k]), order[k], folio)
    ensures forall i :: 0 <= i < |order| ==>
      order[i] < |states[|order|].refunds| && states[|order|].refunds[order[i]].status == Processed
  {
    forall k | 0 <= k < |order| ensures NotRefused(Run(states[k], gaps[k]), order[k], folio) {
      ProgressSoFar(states, order, gaps, folio, ended, k);
      assert TraceAt(states, order, gaps, ended, k);
      ProgressAt(states, order, gaps, folio, ended, k, k + 1);
    }
    ProgressSoFar(states, order, gaps, folio, ended, |order|);
    AllProcessed(folio, order, states[|order|]);
  }
}
