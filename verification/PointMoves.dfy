/** What each operation on a member's points comes to, in balance, lifetime points, spending and points yet to lapse. */
module PointMoves {
  import opened Wrappers
  import opened LapsedPoints
  import opened Loyalty

  /** The balance, the lifetime points and the spending move by so much. */
  ghost predicate Shift(a: Account, after: Account, balance: int, lifetime: int, spent: int) {
    && after.balance == a.balance + balance && Lifetime(after.rows) == Lifetime(a.rows) + lifetime
    && NetSpent(after.rows) == NetSpent(a.rows) + spent
  }

  /** The earnings that lapse by any date are the same. */
  ghost predicate SameLots(a: Account, after: Account) {
    forall at: int :: UpTo(after.rows, at) == UpTo(a.rows, at)
  }

  lemma RowShifts(a: Account, row: Row, after: Account)
    requires after.rows == a.rows + [row] && after.balance == a.balance + row.points
    ensures Shift(a, after, row.points, LifetimePart()(row), SpentPart()(row))
    ensures row.kind != Earn ==> SameLots(a, after)
  {
    RowAppended(a.rows, row);
    if row.kind != Earn {
      forall at: int ensures UpTo(after.rows, at) == UpTo(a.rows, at) {
        UpToUnchanged(a.rows, row, at);
      }
    }
  }

  /**
   * A stay earns once, and only points there are: they add to the balance and to the lifetime points, and lapse
   * on their date and no earlier.
   */
  lemma EarnOutcome(a: Account, stay: nat, points: int, expiresAt: Option<int>, tiers: Option<seq<Tier>>, at: int)
    ensures var after := Apply(a, EarnForStay(stay, points, expiresAt), tiers);
      if points > 0 && stay !in a.earnedFor then
        && Shift(a, after, points, points, 0)
        && UpTo(after.rows, at) == UpTo(a.rows, at) + (if expiresAt.Some? && expiresAt.value <= at then points else 0)
        && after.earnedFor == a.earnedFor + {stay} && after.payments == a.payments && after.enrolled
      else after == a
  {
    if points > 0 && stay !in a.earnedFor {
      var row := Row(Earn, points, expiresAt);
      RowShifts(a, row, Apply(a, EarnForStay(stay, points, expiresAt), tiers));
      SumByAppend(a.rows, row, UpToPart(at));
    }
  }

  /** A stay that has earned earns nothing more, then or later. */
  lemma EarnedOnce(a: Account, stay: nat, points: int, expiresAt: Option<int>, again: int, until: Option<int>,
      tiers: Option<seq<Tier>>)
    requires points > 0
    ensures var once := Apply(a, EarnForStay(stay, points, expiresAt), tiers);
      Apply(once, EarnForStay(stay, again, until), tiers) == once
  {
  }

  /** Points pay for something while the balance holds them; they count as spent and as nothing else. */
  lemma RedeemOutcome(a: Account, points: int, tiers: Option<seq<Tier>>)
    ensures var after := Apply(a, RedeemPoints(points), tiers);
      if 1 <= points <= a.balance then
        && Shift(a, after, -points, 0, points) && SameLots(a, after)
        && after.payments == a.payments + [PointsPayment(points, false)] && after.earnedFor == a.earnedFor
      else after == a
  {
    if 1 <= points <= a.balance {
      RowShifts(a, Row(Redeem, -points, None), Apply(a, RedeemPoints(points), tiers));
    }
  }

  /** Points given by hand add to the lifetime points and never lapse; points taken by hand count as spent. */
  lemma AdjustOutcome(a: Account, points: int, tiers: Option<seq<Tier>>)
    ensures var after := Apply(a, AdjustPoints(points), tiers);
      if points != 0 && a.balance + points >= 0 then
        && Shift(a, after, points, if points > 0 then points else 0, if points < 0 then -points else 0)
        && SameLots(a, after) && after.payments == a.payments && after.earnedFor == a.earnedFor
      else after == a
  {
    if points != 0 && a.balance + points >= 0 {
      RowShifts(a, Row(Adjust, points, None), Apply(a, AdjustPoints(points), tiers));
    }
  }

  /** A payment voided gives its points back, unspent, and once. */
  lemma VoidOutcome(a: Account, p: nat, tiers: Option<seq<Tier>>)
    ensures var after := Apply(a, VoidPayment(p), tiers);
      if p < |a.payments| && !a.payments[p].isVoid then
        && Shift(a, after, a.payments[p].points, 0, -a.payments[p].points) && SameLots(a, after)
        && after.payments == a.payments[p := PointsPayment(a.payments[p].points, true)]
        && after.earnedFor == a.earnedFor && Apply(after, VoidPayment(p), tiers) == after
      else after == a
  {
    if p < |a.payments| && !a.payments[p].isVoid {
      RowShifts(a, Row(Reversal, a.payments[p].points, None), Apply(a, VoidPayment(p), tiers));
    }
  }

  /** Paying with points and voiding that payment leaves balance, lifetime points, spending and lots as they were. */
  lemma RedeemedAndVoided(a: Account, points: int, tiers: Option<seq<Tier>>)
    requires 1 <= points <= a.balance
    ensures var after := Apply(Apply(a, RedeemPoints(points), tiers), VoidPayment(|a.payments|), tiers);
      Shift(a, after, 0, 0, 0) && SameLots(a, after)
  {
    RedeemOutcome(a, points, tiers);
    VoidOutcome(Apply(a, RedeemPoints(points), tiers), |a.payments|, tiers);
  }

  /** What lapses is what was earned to lapse by now beyond all that was spent; it comes off as spending does. */
  lemma SweepOutcome(a: Account, now: int, tiers: Option<seq<Tier>>)
    requires Inv(a)
    ensures var after, due := Apply(a, ExpireLapsed(now), tiers), UpTo(a.rows, now) - NetSpent(a.rows);
      if due > 0 then
        && Shift(a, after, -due, 0, due) && SameLots(a, after) && after.balance >= 0
        && after.payments == a.payments && after.earnedFor == a.earnedFor
      else after == a
  {
    BalanceNeverBinds(a, now);
    NetSpentNonNegative(a);
    if UpTo(a.rows, now) > NetSpent(a.rows) {
      var due := Due(a.rows, now);
      RowShifts(a, Row(Expire, -due, None), Apply(a, ExpireLapsed(now), tiers));
    }
  }

  /** Points earned and never spent are gone after a sweep on their date, and all there before it. */
  lemma EarnedPointsLapse(stay: nat, points: int, expiresAt: int, now: int, tiers: Option<seq<Tier>>)
    requires points > 0
    ensures var earned := Apply(NEW_MEMBER, EarnForStay(stay, points, Some(expiresAt)), tiers);
      Apply(earned, ExpireLapsed(now), tiers).balance == if now < expiresAt then points else 0
  {
    var earned := Apply(NEW_MEMBER, EarnForStay(stay, points, Some(expiresAt)), tiers);
    StepKeepsInv(NEW_MEMBER, EarnForStay(stay, points, Some(expiresAt)), tiers);
    EarnOutcome(NEW_MEMBER, stay, points, Some(expiresAt), tiers, now);
    SweepOutcome(earned, now, tiers);
  }

  /** Enrolling changes no points. */
  lemma EnrolOutcome(a: Account, active: bool, tiers: Option<seq<Tier>>)
    ensures var after := Apply(a, Enroll(active), tiers);
      && Shift(a, after, 0, 0, 0) && SameLots(a, after) && after.payments == a.payments
      && after.earnedFor == a.earnedFor && (after.enrolled <==> a.enrolled || (active && tiers.Some?))
  {
    assert Apply(a, Enroll(active), tiers).rows == a.rows;
  }

  /** This tier is reached, and no reached one asks for more. */
  ghost predicate HighestReached(tiers: seq<Tier>, lifetime: int, t: Tier) {
    t in tiers && t.threshold <= lifetime && forall u ::
      u in tiers && u.threshold <= lifetime ==> u.threshold <= t.threshold
  }

  /** Along every run a member is shown the name of a highest tier reached, and none exactly where none is reached. */
  lemma {:induction false} TierShown(ops: seq<Op>, tiers: seq<Tier>) returns (t: Option<Tier>)
    requires Run(ops, Some(tiers)).enrolled
    ensures var a := Run(ops, Some(tiers));
      match t
      case None => a.tier == None && forall u :: u in tiers ==> u.threshold > Lifetime(a.rows)
      case Some(u) => a.tier == Some(u.name) && HighestReached(tiers, Lifetime(a.rows), u)
  {
    TierFollowsLifetime(ops, tiers);
    var a := Run(ops, Some(tiers));
    TierIsHighest(tiers, Lifetime(a.rows));
    t := TierFor(tiers, Lifetime(a.rows));
  }
}
