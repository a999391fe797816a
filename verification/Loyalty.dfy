/** Members' points: the ledger, the balance kept beside it, the tier, and the nightly sweep. */
module Loyalty {
  import opened Wrappers
  import opened LapsedPoints

  // ----- tiers -----

  datatype Tier = Tier(name: string, threshold: int)

  ghost predicate Ascending(tiers: seq<Tier>) {
    forall i, j :: 0 <= i < j < |tiers| ==> tiers[i].threshold <= tiers[j].threshold
  }

  function InsertTier(tiers: seq<Tier>, t: Tier): (out: seq<Tier>)
    requires Ascending(tiers)
    ensures Ascending(out) && forall x :: x in out <==> x in tiers || x == t
  {
    if tiers == [] || tiers[|tiers| - 1].threshold <= t.threshold then tiers + [t]
    else
      var front, last := tiers[..|tiers| - 1], tiers[|tiers| - 1];
      assert tiers == front + [last];
      var inner := InsertTier(front, t);
      assert forall i :: 0 <= i < |inner| ==> inner[i] in inner;
      assert forall x :: x in inner ==> x.threshold <= last.threshold;
      inner + [last]
  }

  function SortTiers(tiers: seq<Tier>): (out: seq<Tier>)
    ensures Ascending(out) && forall x :: x in out <==> x in tiers
  {
    if tiers == [] then [] else
      var front, last := tiers[..|tiers| - 1], tiers[|tiers| - 1];
      assert tiers == front + [last];
      InsertTier(SortTiers(front), last)
  }

  /** The last of the sorted tiers that lifetime points reach. */
  function LastReached(tiers: seq<Tier>, lifetime: int): Option<Tier> {
    if tiers == [] then None
    else if tiers[|tiers| - 1].threshold <= lifetime then Some(tiers[|tiers| - 1])
    else LastReached(tiers[..|tiers| - 1], lifetime)
  }

  function TierFor(tiers: seq<Tier>, lifetime: int): Option<Tier> {
    LastReached(SortTiers(tiers), lifetime)
  }

  lemma LastReachedIsHighest(tiers: seq<Tier>, lifetime: int)
    requires Ascending(tiers)
    ensures var r := LastReached(tiers, lifetime);
      && (r.None? ==> forall t :: t in tiers ==> t.threshold > lifetime)
      && (r.Some? ==> r.value in tiers && r.value.threshold <= lifetime && forall t ::
        t in tiers && t.threshold <= lifetime ==> t.threshold <= r.value.threshold)
  {
    if tiers != [] {
      var front := tiers[..|tiers| - 1];
      assert tiers == front + [tiers[|tiers| - 1]];
      LastReachedIsHighest(front, lifetime);
    }
  }

  /** `TierFor` is a tier of greatest threshold not above the points, and `None` only where every threshold is. */
  lemma {:induction false} TierIsHighest(tiers: seq<Tier>, lifetime: int)
    ensures var r := TierFor(tiers, lifetime);
      && (r.None? ==> forall t :: t in tiers ==> t.threshold > lifetime)
      && (r.Some? ==> r.value in tiers && r.value.threshold <= lifetime && forall t ::
        t in tiers && t.threshold <= lifetime ==> t.threshold <= r.value.threshold)
  {
    LastReachedIsHighest(SortTiers(tiers), lifetime);
  }

  /** `b` points reach no lower tier than `a` points. */
  ghost predicate TierNotBelow(tiers: seq<Tier>, a: int, b: int) {
    TierFor(tiers, a).Some? ==>
      TierFor(tiers, b).Some? && TierFor(tiers, a).value.threshold <= TierFor(tiers, b).value.threshold
  }

  lemma {:induction false} MorePointsNeverLowerTier(tiers: seq<Tier>, a: int, b: int)
    requires a <= b
    ensures TierNotBelow(tiers, a, b)
  {
    TierIsHighest(tiers, a);
    TierIsHighest(tiers, b);
  }

  // ----- one member's account -----

  /** A redemption: the points a payment was made with, and whether that payment was voided since. */
  datatype PointsPayment = PointsPayment(points: int, isVoid: bool)

  datatype Account = Account(
    rows: seq<Row>, balance: int, tier: Option<string>, enrolled: bool, earnedFor: set<nat>,
    payments: seq<PointsPayment>)

  const NEW_MEMBER := Account([], 0, None, false, {}, [])

  function LifetimePart(): Row -> int {
    (r: Row) => if r.points > 0 && (r.kind == Earn || r.kind == Adjust) then r.points else 0
  }

  /** The sum of the positive `Earn` and `Adjust` rows. */
  function Lifetime(rows: seq<Row>): int { SumBy(rows, LifetimePart()) }

  function NameOf(t: Option<Tier>): Option<string> {
    if t.Some? then Some(t.value.name) else None
  }

  function NextTier(a: Account, row: Row, tiers: Option<seq<Tier>>): Option<string> {
    if tiers.Some? then NameOf(TierFor(tiers.value, Lifetime(a.rows + [row]))) else a.tier
  }

  /**
   * The account with one row more: `balance` takes in its points and `tier` is computed anew,
   * unless `tiers` is `None`.
   */
  function ApplyPoints(a: Account, row: Row, tiers: Option<seq<Tier>>): Account {
    a.(rows := a.rows + [row], balance := a.balance + row.points, tier := NextTier(a, row, tiers), enrolled := true)
  }

  datatype Op =
    // refused where there is no programme, or it is switched off
    | Enroll(active: bool)
    | EarnForStay(stay: nat, points: int, expiresAt: Option<int>)
    | RedeemPoints(points: int)
    | AdjustPoints(points: int)
    | ExpireLapsed(now: int)
    | VoidPayment(payment: nat)

  function Apply(a: Account, op: Op, tiers: Option<seq<Tier>>): Account {
    match op
    case Enroll(active) =>
      if tiers.None? || !active || a.enrolled then a else
        var reached := NameOf(TierFor(tiers.value, Lifetime(a.rows)));
        a.(enrolled := true, tier := if reached.Some? then reached else a.tier)
    case EarnForStay(stay, points, expiresAt) =>
      if points <= 0 || stay in a.earnedFor then a
      else ApplyPoints(a, Row(Earn, points, expiresAt), tiers).(earnedFor := a.earnedFor + {stay})
    case RedeemPoints(points) =>
      if points < 1 || points > a.balance then a
      else ApplyPoints(a, Row(Redeem, -points, None), tiers).(payments := a.payments + [PointsPayment(points, false)])
    case AdjustPoints(points) =>
      if points == 0 || a.balance + points < 0 then a else ApplyPoints(a, Row(Adjust, points, None), tiers)
    case ExpireLapsed(now) =>
      var due := Due(a.rows, now);
      if due <= 0 then a else ApplyPoints(a, Row(Expire, -due, None), tiers)
    case VoidPayment(p) =>
      if p >= |a.payments| || a.payments[p].isVoid then a
      else ApplyPoints(a, Row(Reversal, a.payments[p].points, None),
        tiers).(payments := a.payments[p := a.payments[p].(isVoid := true)])
  }

  // ----- what every run keeps -----

  /** Points spent by payments that stand. */
  function Standing(ps: seq<PointsPayment>, n: nat): int
    requires n <= |ps|
  {
    if n == 0 then 0 else Standing(ps, n - 1) + (if ps[n - 1].isVoid then 0 else ps[n - 1].points)
  }

  function TakenOffPart(): Row -> int {
    (r: Row) => if r.kind == Expire || (r.kind == Adjust && r.points < 0) then -r.points else 0
  }

  /** Points lapsed or taken off by hand. */
  function TakenOff(rows: seq<Row>): int { SumBy(rows, TakenOffPart()) }

  ghost predicate RowSound(r: Row) {
    && (r.kind == Earn ==> r.points > 0) && (r.kind == Redeem ==> r.points < 0) &&
      (r.kind == Expire ==> r.points < 0) && (r.kind == Reversal ==> r.points > 0)
  }

  ghost predicate Inv(a: Account) {
    && a.balance == Balance(a.rows) && a.balance >= 0
    && (forall i :: 0 <= i < |a.rows| ==> RowSound(a.rows[i]))
    && (forall i :: 0 <= i < |a.payments| ==> a.payments[i].points > 0)
    && NetSpent(a.rows) == Standing(a.payments, |a.payments|) + TakenOff(a.rows)
  }

  lemma SumNonNegative(rows: seq<Row>, f: Row -> int)
    requires forall i :: 0 <= i < |rows| ==> f(rows[i]) >= 0
    ensures SumBy(rows, f) >= 0
  {
  }

  lemma StandingNonNegative(ps: seq<PointsPayment>, n: nat)
    requires n <= |ps| && forall i :: 0 <= i < |ps| ==> ps[i].points > 0
    ensures Standing(ps, n) >= 0
  {
  }

  /** Net spending is never negative. */
  lemma NetSpentNonNegative(a: Account)
    requires Inv(a)
    ensures NetSpent(a.rows) >= 0
  {
    StandingNonNegative(a.payments, |a.payments|);
    SumNonNegative(a.rows, TakenOffPart());
  }

  lemma RowAppended(rows: seq<Row>, r: Row)
    ensures Balance(rows + [r]) == Balance(rows) + r.points
    ensures NetSpent(rows + [r]) == NetSpent(rows) + SpentPart()(r)
    ensures TakenOff(rows + [r]) == TakenOff(rows) + TakenOffPart()(r)
    ensures Lifetime(rows + [r]) == Lifetime(rows) + LifetimePart()(r)
  {
    SumByAppend(rows, r, AllPart());
    SumByAppend(rows, r, SpentPart());
    SumByAppend(rows, r, TakenOffPart());
    SumByAppend(rows, r, LifetimePart());
  }

  lemma StandingExtends(ps: seq<PointsPayment>, more: PointsPayment, n: nat)
    requires n <= |ps|
    ensures Standing(ps + [more], n) == Standing(ps, n)
  {
  }

  lemma StandingAfterVoid(ps: seq<PointsPayment>, p: nat, n: nat)
    requires p < |ps| && n <= |ps| && !ps[p].isVoid
    ensures Standing(ps[p := ps[p].(isVoid := true)], n) == Standing(ps, n) - (if p < n then ps[p].points else 0)
  {
    if n > 0 {
      StandingAfterVoid(ps, p, n - 1);
    }
  }

  /** In a sound account the balance never cuts a lapse short. */
  lemma BalanceNeverBinds(a: Account, now: int)
    requires Inv(a)
    ensures Due(a.rows, now) == Unspent(a.rows, now) <= a.balance
  {
    NetSpentNonNegative(a);
    BalanceFromParts(a.rows, now);
  }

  lemma BalanceFromParts(rows: seq<Row>, now: int)
    requires forall i :: 0 <= i < |rows| ==> RowSound(rows[i])
    ensures Balance(rows) >= UpTo(rows, now) - NetSpent(rows)
  {
    if rows != [] {
      BalanceFromParts(rows[..|rows| - 1], now);
    }
  }

  /** One more row keeps the account sound if it leaves no debt and the payments account for what it spends. */
  lemma RowKeepsInv(a: Account, row: Row, after: Account)
    requires Inv(a) && RowSound(row) && after.rows == a.rows + [row] && after.balance == a.balance + row.points >= 0
    requires forall i :: 0 <= i < |after.payments| ==> after.payments[i].points > 0
    requires Standing(after.payments, |after.payments|) ==
      Standing(a.payments, |a.payments|) + SpentPart()(row) - TakenOffPart()(row)
    ensures Inv(after)
  {
    RowAppended(a.rows, row);
    forall i | 0 <= i < |after.rows| ensures RowSound(after.rows[i]) {}
  }

  lemma EnrollKeepsInv(a: Account, active: bool, tiers: Option<seq<Tier>>)
    requires Inv(a)
    ensures Inv(Apply(a, Enroll(active), tiers))
  {
    var after := Apply(a, Enroll(active), tiers);
    assert after.rows == a.rows && after.balance == a.balance && after.payments == a.payments;
  }

  lemma EarnKeepsInv(a: Account, op: Op, tiers: Option<seq<Tier>>)
    requires Inv(a) && op.EarnForStay?
    ensures Inv(Apply(a, op, tiers))
  {
    if op.points > 0 && op.stay !in a.earnedFor {
      RowKeepsInv(a, Row(Earn, op.points, op.expiresAt), Apply(a, op, tiers));
    }
  }

  lemma AdjustKeepsInv(a: Account, points: int, tiers: Option<seq<Tier>>)
    requires Inv(a)
    ensures Inv(Apply(a, AdjustPoints(points), tiers))
  {
    if points != 0 && a.balance + points >= 0 {
      RowKeepsInv(a, Row(Adjust, points, None), Apply(a, AdjustPoints(points), tiers));
    }
  }

  lemma ExpireKeepsInv(a: Account, now: int, tiers: Option<seq<Tier>>)
    requires Inv(a)
    ensures Inv(Apply(a, ExpireLapsed(now), tiers))
  {
    if Due(a.rows, now) > 0 {
      BalanceNeverBinds(a, now);
      RowKeepsInv(a, Row(Expire, -Due(a.rows, now), None), Apply(a, ExpireLapsed(now), tiers));
    }
  }

  lemma StepKeepsInv(a: Account, op: Op, tiers: Option<seq<Tier>>)
    requires Inv(a)
    ensures Inv(Apply(a, op, tiers))
  {
    match op
    case Enroll(active) => EnrollKeepsInv(a, active, tiers);
    case EarnForStay(_, _, _) => EarnKeepsInv(a, op, tiers);
    case RedeemPoints(points) => RedeemKeepsInv(a, points, tiers);
    case AdjustPoints(points) => AdjustKeepsInv(a, points, tiers);
    case ExpireLapsed(now) => ExpireKeepsInv(a, now, tiers);
    case VoidPayment(p) => VoidKeepsInv(a, p, tiers);
  }

  lemma RedeemKeepsInv(a: Account, points: int, tiers: Option<seq<Tier>>)
    requires Inv(a)
    ensures Inv(Apply(a, RedeemPoints(points), tiers))
  {
    if 1 <= points <= a.balance {
      StandingExtends(a.payments, PointsPayment(points, false), |a.payments|);
      RowKeepsInv(a, Row(Redeem, -points, None), Apply(a, RedeemPoints(points), tiers));
    }
  }

  lemma VoidKeepsInv(a: Account, p: nat, tiers: Option<seq<Tier>>)
    requires Inv(a)
    ensures Inv(Apply(a, VoidPayment(p), tiers))
  {
    if p < |a.payments| && !a.payments[p].isVoid {
      StandingAfterVoid(a.payments, p, |a.payments|);
      RowKeepsInv(a, Row(Reversal, a.payments[p].points, None), Apply(a, VoidPayment(p), tiers));
    }
  }

  function Run(ops: seq<Op>, tiers: Option<seq<Tier>>): Account
    decreases |ops|
  {
    if ops == [] then NEW_MEMBER else Apply(Run(ops[..|ops| - 1], tiers), ops[|ops| - 1], tiers)
  }

  lemma {:induction false} RunKeepsInv(ops: seq<Op>, tiers: Option<seq<Tier>>)
    ensures Inv(Run(ops, tiers))
    decreases |ops|
  {
    if ops != [] {
      RunKeepsInv(ops[..|ops| - 1], tiers);
      StepKeepsInv(Run(ops[..|ops| - 1], tiers), ops[|ops| - 1], tiers);
    }
  }

  /** Over every run the stored balance is the ledger's sum, never negative, and net spending is never negative. */
  lemma BalanceAgreesWithLedger(ops: seq<Op>, tiers: Option<seq<Tier>>)
    ensures var a := Run(ops, tiers); a.balance == Balance(a.rows) >= 0 && NetSpent(a.rows) >= 0
  {
    RunKeepsInv(ops, tiers);
    NetSpentNonNegative(Run(ops, tiers));
  }

  lemma UpToUnchanged(rows: seq<Row>, r: Row, now: int)
    requires r.kind != Earn
    ensures UpTo(rows + [r], now) == UpTo(rows, now)
  {
    SumByAppend(rows, r, UpToPart(now));
  }

  /** A second sweep at the same instant takes nothing. */
  lemma SecondSweepTakesNothing(a: Account, now: int, tiers: Option<seq<Tier>>)
    requires Inv(a)
    ensures var once := Apply(a, ExpireLapsed(now), tiers);
      Due(once.rows, now) == 0 && Apply(once, ExpireLapsed(now), tiers) == once
  {
    var once := Apply(a, ExpireLapsed(now), tiers);
    StepKeepsInv(a, ExpireLapsed(now), tiers);
    BalanceNeverBinds(a, now);
    BalanceNeverBinds(once, now);
    NetSpentNonNegative(a);
    if once != a {
      RowAppended(a.rows, Row(Expire, -Due(a.rows, now), None));
      UpToUnchanged(a.rows, Row(Expire, -Due(a.rows, now), None), now);
    }
  }

  lemma {:induction false} StepNeverLowers(a: Account, op: Op, tiers: Option<seq<Tier>>)
    ensures Lifetime(a.rows) <= Lifetime(Apply(a, op, tiers).rows)
  {
    var after := Apply(a, op, tiers);
    if after.rows != a.rows {
      RowAppended(a.rows, after.rows[|a.rows|]);
      assert after.rows == a.rows + [after.rows[|a.rows|]];
    }
  }

  /** Along every run, lifetime points never fall. */
  lemma {:induction false} LifetimeNeverFalls(ops: seq<Op>, n: nat, tiers: Option<seq<Tier>>)
    requires n <= |ops|
    ensures Lifetime(Run(ops[..n], tiers).rows) <= Lifetime(Run(ops, tiers).rows)
    decreases |ops|
  {
    if n == |ops| {
      assert ops[..n] == ops;
    } else {
      var front := ops[..|ops| - 1];
      LifetimeNeverFalls(front, n, tiers);
      assert front[..n] == ops[..n];
      StepNeverLowers(Run(front, tiers), ops[|ops| - 1], tiers);
    }
  }

  /** Along every run with fixed tiers, the tier reached never falls. */
  lemma {:induction false} TierNeverFalls(ops: seq<Op>, n: nat, tiers: seq<Tier>)
    requires n <= |ops|
    ensures TierNotBelow(tiers, Lifetime(Run(ops[..n], Some(tiers)).rows), Lifetime(Run(ops, Some(tiers)).rows))
  {
    LifetimeNeverFalls(ops, n, Some(tiers));
    MorePointsNeverLowerTier(tiers, Lifetime(Run(ops[..n], Some(tiers)).rows), Lifetime(Run(ops, Some(tiers)).rows));
  }

  /** A member's tier is the one their lifetime points reach; who is no member has neither tier nor points. */
  ghost predicate TierRight(a: Account, tiers: seq<Tier>) {
    if a.enrolled then a.tier == NameOf(TierFor(tiers, Lifetime(a.rows))) else a.rows == [] && a.tier == None
  }

  lemma TierAfterStep(a: Account, op: Op, tiers: seq<Tier>)
    requires TierRight(a, tiers)
    ensures TierRight(Apply(a, op, Some(tiers)), tiers)
  {
  }

  /** Along every run the tier on the profile is the one lifetime points reach, from enrolment or the first row on. */
  lemma {:induction false} TierFollowsLifetime(ops: seq<Op>, tiers: seq<Tier>)
    ensures TierRight(Run(ops, Some(tiers)), tiers)
    decreases |ops|
  {
    if ops != [] {
      TierFollowsLifetime(ops[..|ops| - 1], tiers);
      TierAfterStep(Run(ops[..|ops| - 1], Some(tiers)), ops[|ops| - 1], tiers);
    }
  }

  // ----- the sweep, and saving the programme -----

  predicate HasLapsedLot(rows: seq<Row>, now: int) {
    exists r :: r in rows && IsLot(r) && r.expiresAt.value <= now
  }

  lemma NoLapsedLotNothingDue(rows: seq<Row>, now: int)
    requires !HasLapsedLot(rows, now)
    ensures UpTo(rows, now) == 0
  {
    if rows != [] {
      var front, last := rows[..|rows| - 1], rows[|rows| - 1];
      assert rows == front + [last];
      assert last in rows;
      NoLapsedLotNothingDue(front, now);
    }
  }

  lemma NothingDue(a: Account, now: int)
    requires Inv(a) && !(HasLapsedLot(a.rows, now) && a.balance > 0)
    ensures Due(a.rows, now) == 0
  {
    BalanceNeverBinds(a, now);
    NetSpentNonNegative(a);
    if !HasLapsedLot(a.rows, now) {
      NoLapsedLotNothingDue(a.rows, now);
    }
  }

  lemma NotACandidate(a: Account, now: int, tiers: Option<seq<Tier>>)
    requires Inv(a) && !(HasLapsedLot(a.rows, now) && a.balance > 0)
    ensures Apply(a, ExpireLapsed(now), tiers) == a
  {
    NothingDue(a, now);
  }

  function Expired(a: Account, now: int, tiers: Option<seq<Tier>>): Account {
    Apply(a, ExpireLapsed(now), tiers)
  }

  lemma SoundHasPositiveLots(a: Account)
    requires Inv(a)
    ensures PositiveLots(a.rows)
  {
    forall r | r in a.rows && r.kind == Earn ensures r.points > 0 {
      var i :| 0 <= i < |a.rows| && a.rows[i] == r;
      assert RowSound(a.rows[i]);
    }
  }

  lemma ExpiredIs(a: Account, now: int, tiers: Option<seq<Tier>>, due: int)
    requires due == Due(a.rows, now)
    ensures Expired(a, now, tiers) == if due > 0 then ApplyPoints(a, Row(Expire, -due, None), tiers) else a
  {
  }

  lemma ExpiredDiffers(a: Account, now: int, tiers: Option<seq<Tier>>)
    ensures Due(a.rows, now) > 0 ==> Expired(a, now, tiers) != a
    ensures Due(a.rows, now) <= 0 ==> Expired(a, now, tiers) == a
  {
    if Due(a.rows, now) > 0 {
      assert |Expired(a, now, tiers).rows| == |a.rows| + 1;
    }
  }

  function TierName(tiers: seq<Tier>, a: Account): Option<string> {
    NameOf(TierFor(tiers, Lifetime(a.rows)))
  }

  lemma Swept(a: Account, now: int, tiers: Option<seq<Tier>>)
    requires Inv(a)
    ensures Inv(Expired(a, now, tiers)) && Due(Expired(a, now, tiers).rows, now) == 0
  {
    StepKeepsInv(a, ExpireLapsed(now), tiers);
    SecondSweepTakesNothing(a, now, tiers);
  }

  ghost predicate AllSound(accounts: map<nat, Account>) {
    forall g {:trigger Inv(accounts[g])} :: g in accounts ==> Inv(accounts[g])
  }

  /** Who of `done` moves, and to which tier. */
  ghost predicate Grouped(accounts: map<nat, Account>, tiers: seq<Tier>, done: set<nat>, movingTo: map<Option<string>,
      set<nat>>) {
    && (forall name :: name in movingTo ==> movingTo[name] != {})
    && forall g, name {:trigger MovesTo(accounts, tiers, g, name)} ::
      (name in movingTo && g in movingTo[name]) <==> (g in done && MovesTo(accounts, tiers, g, name))
  }

  ghost predicate MovesTo(accounts: map<nat, Account>, tiers: seq<Tier>, g: nat, name: Option<string>) {
    g in accounts && name == TierName(tiers, accounts[g]) && name != accounts[g].tier
  }

  lemma GroupStep(accounts: map<nat, Account>, tiers: seq<Tier>, done: set<nat>, movingTo: map<Option<string>,
      set<nat>>, g: nat)
    requires Grouped(accounts, tiers, done, movingTo) && g in accounts && g !in done
    ensures var name := TierName(tiers, accounts[g]);
      Grouped(accounts, tiers, done + {g},
        if name == accounts[g].tier then movingTo
          else movingTo[name := (if name in movingTo then movingTo[name] else {}) + {g}])
  {
    var name := TierName(tiers, accounts[g]);
    var after := if name == accounts[g].tier then movingTo
      else movingTo[name := (if name in movingTo then movingTo[name] else {}) + {g}];
    forall h, n ensures (n in after && h in after[n]) <==> (h in done + {g} && MovesTo(accounts, tiers, h, n)) {
      assert MovesTo(accounts, tiers, h, n) ==> h in accounts;
    }
  }

  /** A member whose tier is among `names` is still in the old one; any other is in the new one. */
  ghost predicate MovedAt(before: map<nat, Account>, now: map<nat, Account>, tiers: seq<Tier>,
      names: set<Option<string>>, g: nat) {
    g in before && g in now &&
      now[g] ==
      before[g].(tier := if TierName(tiers, before[g]) in names then before[g].tier else TierName(tiers, before[g]))
  }

  ghost predicate PartlyMoved(before: map<nat, Account>, now: map<nat, Account>, tiers: seq<Tier>,
      names: set<Option<string>>) {
    now.Keys == before.Keys && forall g {:trigger MovedAt(before, now, tiers, names, g)} ::
      g in before ==> MovedAt(before, now, tiers, names, g)
  }

  lemma NobodyMovedYet(before: map<nat, Account>, tiers: seq<Tier>, movingTo: map<Option<string>, set<nat>>)
    requires Grouped(before, tiers, before.Keys, movingTo)
    ensures PartlyMoved(before, before, tiers, movingTo.Keys)
  {
    forall g | g in before ensures MovedAt(before, before, tiers, movingTo.Keys, g) {
      assert MovesTo(before, tiers, g, TierName(tiers, before[g])) || before[g].tier == TierName(tiers, before[g]);
    }
  }

  lemma OneGroupMoved(before: map<nat, Account>, earlier: map<nat, Account>, now: map<nat, Account>, tiers: seq<Tier>,
      names: set<Option<string>>, movingTo: map<Option<string>, set<nat>>, name: Option<string>)
    requires Grouped(before, tiers, before.Keys, movingTo) && PartlyMoved(before, earlier, tiers, names) &&
      name in names && name in movingTo
    requires now.Keys == earlier.Keys && forall g ::
      g in now ==> now[g] == if g in movingTo[name] then earlier[g].(tier := name) else earlier[g]
    ensures PartlyMoved(before, now, tiers, names - {name})
  {
    forall g | g in before ensures MovedAt(before, now, tiers, names - {name}, g) {
      assert MovedAt(before, earlier, tiers, names, g);
      assert g in movingTo[name] <==> MovesTo(before, tiers, g, name);
    }
  }

  /** A member dealt with has been swept; any other is as before. */
  ghost predicate SweptSoFar(before: map<nat, Account>, accounts: map<nat, Account>, now: int, tiers: Option<seq<Tier>>,
      done: set<nat>, g: nat) {
    g in before && g in accounts && accounts[g] == if g in done then Expired(before[g], now, tiers) else before[g]
  }

  lemma OneMoreSwept(before: map<nat, Account>, earlier: map<nat, Account>, accounts: map<nat, Account>, now: int,
      tiers: Option<seq<Tier>>, done: set<nat>, g: nat)
    requires forall h {:trigger SweptSoFar(before, earlier, now, tiers, done, h)} ::
      h in before ==> SweptSoFar(before, earlier, now, tiers, done, h)
    requires g in before && g !in done && accounts == earlier[g := Expired(before[g], now, tiers)]
    ensures forall h {:trigger SweptSoFar(before, accounts, now, tiers, done + {g}, h)} ::
      h in before ==> SweptSoFar(before, accounts, now, tiers, done + {g}, h)
  {
    forall h | h in before ensures SweptSoFar(before, accounts, now, tiers, done + {g}, h) {
      assert SweptSoFar(before, earlier, now, tiers, done, h);
    }
  }

  lemma SweptAll(before: map<nat, Account>, now: int, tiers: Option<seq<Tier>>, candidates: set<nat>, g: nat,
      after: Account)
    requires g in before && Inv(before[g]) &&
      after == (if g in candidates then Expired(before[g], now, tiers) else before[g])
    requires g in candidates <==> HasLapsedLot(before[g].rows, now) && before[g].balance > 0
    ensures after == Expired(before[g], now, tiers) && Inv(after) && Due(after.rows, now) == 0
  {
    if g !in candidates {
      NotACandidate(before[g], now, tiers);
    }
    Swept(before[g], now, tiers);
  }

  /** The points due, together, of the members among `who` numbered below `n`. */
  function DueOf(accounts: map<nat, Account>, now: int, who: set<nat>, n: nat): int {
    if n == 0 then 0 else
      DueOf(accounts, now, who, n - 1)
      + (if n - 1 in who && n - 1 in accounts then Due(accounts[n - 1].rows, now) else 0)
  }

  ghost predicate Beyond(who: set<nat>, n: nat) {
    forall g :: g in who ==> g < n
  }

  lemma DueOfNobody(accounts: map<nat, Account>, now: int, n: nat)
    ensures DueOf(accounts, now, {}, n) == 0
  {
  }

  lemma DueOfOneMore(accounts: map<nat, Account>, now: int, who: set<nat>, g: nat, n: nat)
    requires g in accounts && g !in who
    ensures DueOf(accounts, now, who + {g}, n) ==
      DueOf(accounts, now, who, n) + (if g < n then Due(accounts[g].rows, now) else 0)
  {
  }

  /** Whoever is no candidate has nothing due. */
  lemma DueOfCandidates(accounts: map<nat, Account>, now: int, who: set<nat>, n: nat)
    requires forall g {:trigger g in who} :: g in accounts && g !in who ==> Due(accounts[g].rows, now) == 0
    requires who <= accounts.Keys
    ensures DueOf(accounts, now, who, n) == DueOf(accounts, now, accounts.Keys, n)
  {
  }

  /** Members who reach another tier than they hold, one not in `names`. */
  function Retiered(accounts: map<nat, Account>, tiers: seq<Tier>, names: set<Option<string>>): set<nat> {
    set g | g in accounts && TierName(tiers, accounts[g]) != accounts[g].tier && TierName(tiers, accounts[g]) !in names
  }

  lemma NobodyRetieredYet(accounts: map<nat, Account>, tiers: seq<Tier>, movingTo: map<Option<string>, set<nat>>)
    requires Grouped(accounts, tiers, accounts.Keys, movingTo)
    ensures Retiered(accounts, tiers, movingTo.Keys) == {}
  {
    forall g | g in Retiered(accounts, tiers, movingTo.Keys) ensures false {
      assert MovesTo(accounts, tiers, g, TierName(tiers, accounts[g]));
    }
  }

  lemma GroupRetiered(accounts: map<nat, Account>, tiers: seq<Tier>, names: set<Option<string>>,
      movingTo: map<Option<string>, set<nat>>, name: Option<string>)
    requires Grouped(accounts, tiers, accounts.Keys, movingTo) && name in names && name in movingTo
    ensures |Retiered(accounts, tiers, names - {name})| == |Retiered(accounts, tiers, names)| + |movingTo[name]|
  {
    var before, group := Retiered(accounts, tiers, names), movingTo[name];
    forall g: nat
      ensures g in group <==> g in accounts && TierName(tiers, accounts[g]) == name && name != accounts[g].tier {
      assert MovesTo(accounts, tiers, g, name) <==>
        g in accounts && TierName(tiers, accounts[g]) == name && name != accounts[g].tier;
    }
    assert Retiered(accounts, tiers, names - {name}) == before + group;
    assert before * group == {};
  }

  class Members {
    var accounts: map<nat, Account>
    var tiers: Option<seq<Tier>>

    constructor ()
      ensures accounts == map[] && tiers == None
    {
      accounts, tiers := map[], None;
    }

    /** One member: what is due comes off as an `expire` row. */
    method ExpireOne(g: nat, now: int) returns (due: int)
      requires g in accounts && Inv(accounts[g])
      modifies this`accounts
      ensures accounts == old(accounts)[g := Expired(old(accounts)[g], now, tiers)]
      ensures due == Due(old(accounts)[g].rows, now) >= 0
    {
      var account := accounts[g];
      SoundHasPositiveLots(account);
      var next;
      due, next := Lapsed(account.rows, now);
      ExpiredIs(account, now, tiers, due);
      if due > 0 {
        accounts := accounts[g := ApplyPoints(account, Row(Expire, -due, None), tiers)];
      }
    }

    /**
     * The nightly sweep looks only at members with a lapsed earning and points left, yet leaves
     * every member with nothing due.
     */
    method ExpireLapsedPoints(now: int) returns (lapsed: int)
      requires AllSound(accounts)
      modifies this`accounts
      ensures accounts.Keys == old(accounts).Keys && AllSound(accounts)
      ensures forall g ::
        g in accounts ==> accounts[g] == Expired(old(accounts)[g], now, tiers) && Due(accounts[g].rows, now) == 0
      ensures forall n: nat {:trigger Beyond(accounts.Keys, n)} ::
        Beyond(accounts.Keys, n) ==> lapsed == DueOf(old(accounts), now, old(accounts).Keys, n)
      ensures lapsed >= 0 && (lapsed == 0 <==> accounts == old(accounts))
    {
      ghost var before := accounts;
      var candidates := set g | g in accounts && HasLapsedLot(accounts[g].rows, now) && accounts[g].balance > 0;
      lapsed := SweepThese(candidates, now);
      forall g | g in accounts
        ensures accounts[g] == Expired(before[g], now, tiers) && Inv(accounts[g]) && Due(accounts[g].rows, now) == 0 {
        assert Inv(before[g]) && SweptSoFar(before, accounts, now, tiers, candidates, g);
        SweptAll(before, now, tiers, candidates, g, accounts[g]);
      }
      forall n: nat | Beyond(accounts.Keys, n) ensures lapsed == DueOf(before, now, before.Keys, n) {
        assert Beyond(candidates, n);
        forall g {:trigger g in candidates} | g in before && g !in candidates ensures Due(before[g].rows, now) == 0 {
          assert Inv(before[g]);
          NothingDue(before[g], now);
        }
        DueOfCandidates(before, now, candidates, n);
      }
    }

    /** Sweeps the members picked, one after another. */
    method SweepThese(candidates: set<nat>, now: int) returns (lapsed: int)
      requires candidates <= accounts.Keys && AllSound(accounts)
      modifies this`accounts
      ensures accounts.Keys == old(accounts).Keys
      ensures forall g {:trigger SweptSoFar(old(accounts), accounts, now, tiers, candidates, g)} ::
        g in old(accounts) ==> SweptSoFar(old(accounts), accounts, now, tiers, candidates, g)
      ensures forall n: nat {:trigger Beyond(candidates, n)} ::
        Beyond(candidates, n) ==> lapsed == DueOf(old(accounts), now, candidates, n)
      ensures lapsed >= 0 && (lapsed == 0 <==> accounts == old(accounts))
    {
      ghost var before := accounts;
      ghost var changed := 0;
      lapsed := 0;
      var todo := candidates;
      assert candidates - todo == {};
      forall n: nat { DueOfNobody(before, now, n); }
      while todo != {}
        invariant forall n: nat {:trigger Beyond(candidates, n)} ::
          Beyond(candidates, n) ==> lapsed == DueOf(before, now, candidates - todo, n)
        invariant todo <= candidates && accounts.Keys == before.Keys && lapsed >= 0 &&
          (lapsed == 0 ==> accounts == before)
        invariant forall g {:trigger SweptSoFar(before, accounts, now, tiers, candidates - todo, g)} ::
          g in before ==> SweptSoFar(before, accounts, now, tiers, candidates - todo, g)
        invariant lapsed > 0 ==> changed in candidates - todo && Expired(before[changed], now, tiers) != before[changed]
      {
        var g :| g in todo;
        assert Inv(before[g]) && SweptSoFar(before, accounts, now, tiers, candidates - todo, g);
        ghost var done, earlier := candidates - todo, accounts;
        todo := todo - {g};
        var due := ExpireOne(g, now);
        ExpiredDiffers(before[g], now, tiers);
        lapsed := lapsed + due;
        changed := if due > 0 then g else changed;
        assert candidates - todo == done + {g};
        OneMoreSwept(before, earlier, accounts, now, tiers, done, g);
        forall n: nat | Beyond(candidates, n) ensures lapsed == DueOf(before, now, candidates - todo, n) {
          DueOfOneMore(before, now, done, g, n);
        }
      }
      assert candidates - todo == candidates;
      assert lapsed > 0 ==> SweptSoFar(before, accounts, now, tiers, candidates - todo, changed);
    }

    /** Puts a group of members in one tier. */
    method MoveGroup(ids: set<nat>, name: Option<string>)
      modifies this`accounts
      ensures accounts.Keys == old(accounts).Keys
      ensures forall g ::
        g in accounts ==> accounts[g] == if g in ids then old(accounts)[g].(tier := name) else old(accounts)[g]
    {
      accounts := map g | g in accounts :: if g in ids then accounts[g].(tier := name) else accounts[g];
    }

    /** Replaces the tiers and gives every account the name `TierName` computes, one group of accounts at a time. */
    method SaveProgram(newTiers: seq<Tier>) returns (moved: nat)
      modifies this
      ensures tiers == Some(newTiers) && accounts.Keys == old(accounts).Keys
      ensures forall g ::
        g in accounts ==> accounts[g] == old(accounts)[g].(tier := TierName(newTiers, old(accounts)[g]))
      ensures moved == |Retiered(old(accounts), newTiers, {})|
    {
      ghost var before := accounts;
      tiers := Some(newTiers);
      var movingTo := Regroup(newTiers);
      moved := 0;
      var names := movingTo.Keys;
      NobodyMovedYet(before, newTiers, movingTo);
      NobodyRetieredYet(before, newTiers, movingTo);
      while names != {}
        invariant names <= movingTo.Keys && tiers == Some(newTiers)
        invariant PartlyMoved(before, accounts, newTiers, names)
        invariant moved == |Retiered(before, newTiers, names)|
      {
        var name :| name in names;
        ghost var earlier := accounts;
        GroupRetiered(before, newTiers, names, movingTo, name);
        MoveGroup(movingTo[name], name);
        OneGroupMoved(before, earlier, accounts, newTiers, names, movingTo, name);
        names := names - {name};
        moved := moved + |movingTo[name]|;
      }
      forall g | g in accounts ensures accounts[g] == before[g].(tier := TierName(newTiers, before[g])) {
        assert MovedAt(before, accounts, newTiers, names, g);
      }
    }

    /** The members to move, by the tier they move to. */
    method Regroup(newTiers: seq<Tier>) returns (movingTo: map<Option<string>, set<nat>>)
      ensures Grouped(accounts, newTiers, accounts.Keys, movingTo)
    {
      movingTo := map[];
      var todo := accounts.Keys;
      assert accounts.Keys - todo == {};
      while todo != {}
        invariant todo <= accounts.Keys && Grouped(accounts, newTiers, accounts.Keys - todo, movingTo)
      {
        var g :| g in todo;
        GroupStep(accounts, newTiers, accounts.Keys - todo, movingTo, g);
        assert accounts.Keys - (todo - {g}) == accounts.Keys - todo + {g};
        todo := todo - {g};
        var name := TierName(newTiers, accounts[g]);
        if name != accounts[g].tier {
          movingTo := movingTo[name := (if name in movingTo then movingTo[name] else {}) + {g}];
        }
      }
      assert accounts.Keys - todo == accounts.Keys;
    }
  }
}
