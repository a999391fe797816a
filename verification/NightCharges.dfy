/** What posting a night, and backfilling a stay, puts on the bill. */
module NightCharges {
  import opened Wrappers
  import opened Lines
  import opened Ledger
  import opened Nights
  import opened Outcomes

  /** The bill a stay's room charges go to: the one it is routed to while that is open and of its branch, or its own. */
  ghost predicate GoesTo(b: Books, stay: Stay, folio: nat, bill: nat) {
    if stay.billTo.Some? && stay.billTo.value in b.folios && b.folios[stay.billTo.value].status != Settled
      && b.folios[stay.billTo.value].branch == stay.branch
    then bill == stay.billTo.value else bill == folio
  }

  ghost predicate NightLineOn(ls: seq<Line>, stay: nat, folio: nat, date: int, i: nat) {
    && i < |ls| && ls[i].kind == Room && ls[i].date == date && !ls[i].dayUse
    && (ls[i].stay == Some(stay) || (ls[i].stay == None && ls[i].folio == folio))
  }

  /** The night is on some bill for the stay, or on this bill for no stay in particular. */
  ghost predicate OnABill(ls: seq<Line>, stay: nat, folio: nat, date: int) {
    exists i: nat :: NightLineOn(ls, stay, folio, date, i)
  }

  lemma OnABillIff(ls: seq<Line>, stay: nat, folio: nat, date: int)
    ensures OnABill(ls, stay, folio, date) <==> Billed(ls, stay, date) || BilledByHand(ls, folio, date)
  {
    if i: nat :| NightLineOn(ls, stay, folio, date, i) {
      assert IsRoomNight(ls[i], stay, date) || IsHandPosted(ls[i], folio, date);
    }
    if i :| 0 <= i < |ls| && IsRoomNight(ls[i], stay, date) {
      assert NightLineOn(ls, stay, folio, date, i);
    }
    if i :| 0 <= i < |ls| && IsHandPosted(ls[i], folio, date) {
      assert NightLineOn(ls, stay, folio, date, i);
    }
  }

  /** One charge line and its taxes came to the ledger, on `bill`; what the other bills owe is as before. */
  ghost predicate Came(b: Books, after: Books, bill: nat, q: Quote, date: int, stay: nat, dayUse: bool) {
    && |after.lines| == |b.lines| + 1 + |q.taxes| && after.lines[..|b.lines|] == b.lines
    && after.lines[|b.lines|] == Line(bill, q.net, Room, None, None, None, date, Some(stay), dayUse)
    && (forall f: nat :: Balance(after, f) == Balance(b, f) + (if f == bill then q.net + TaxSum(q.taxes) else 0))
    && after == b.(lines := after.lines)
  }

  lemma CameByCharge(b: Books, bill: nat, q: Quote, date: int, stay: nat, dayUse: bool)
    requires bill in b.folios && q.price > 0 && Priced(q)
    ensures var line := Line(bill, q.net, Room, None, None, None, date, Some(stay), dayUse);
      Came(b, Charge(b, line, q.taxes), bill, q, date, stay, dayUse)
  {
    var line := Line(bill, q.net, Room, None, None, None, date, Some(stay), dayUse);
    assert Apply(b, PostBySystem(line, q.taxes)) == Charge(b, line, q.taxes);
    ChargeAppends(b, line, q.taxes);
    forall f: nat {
      ChargeRaises(b, line, q.taxes, f);
    }
  }

  /** A night of a stay is charged at its price unless it is on a bill or costs nothing. */
  lemma NightOutcome(b: Books, stay: Stay, folio: nat, date: int, t: Tariff, bill: nat)
    requires GoodTariff(t) && folio in b.folios && GoesTo(b, stay, folio, bill) && !stay.isDayUse
    ensures var after, q := Next(b, Night(stay, folio, date), t), t.night(stay.id, date);
      if OnABill(b.lines, stay.id, folio, date) || q.price <= 0 then after == b
      else Came(b, after, bill, q, date, stay.id, false)
  {
    OnABillIff(b.lines, stay.id, folio, date);
    var q := t.night(stay.id, date);
    if q.price > 0 {
      CameByCharge(b, bill, q, date, stay.id, false);
    }
  }

  /** A day-use stay is charged its day first and once; from then on it is charged nights. */
  lemma DayOutcome(b: Books, stay: Stay, folio: nat, date: int, t: Tariff, bill: nat)
    requires GoodTariff(t) && folio in b.folios && GoesTo(b, stay, folio, bill) && stay.isDayUse
    ensures var after, day, night := Next(b, Night(stay, folio, date), t), t.day(stay.id), t.night(stay.id, date);
      if forall i :: 0 <= i < |b.lines| && b.lines[i].stay == Some(stay.id) ==> !b.lines[i].dayUse then
        if day.price <= 0 then after == b else Came(b, after, bill, day, stay.checkIn, stay.id, true)
      else if OnABill(b.lines, stay.id, folio, date) || night.price <= 0 then after == b
      else Came(b, after, bill, night, date, stay.id, false)
  {
    OnABillIff(b.lines, stay.id, folio, date);
    var day, night := t.day(stay.id), t.night(stay.id, date);
    assert DayCharged(b.lines, stay.id) <==>
      !(forall i :: 0 <= i < |b.lines| && b.lines[i].stay == Some(stay.id) ==> !b.lines[i].dayUse);
    if day.price > 0 {
      CameByCharge(b, bill, day, stay.checkIn, stay.id, true);
    }
    if night.price > 0 {
      CameByCharge(b, bill, night, date, stay.id, false);
    }
  }

  // ----- a whole stay -----

  /** What the nights from `from` up to `end` still to be charged come to, with tax. */
  ghost function StillToCharge(ls: seq<Line>, stay: nat, folio: nat, from: int, end: int, t: Tariff): int
    decreases end - from
  {
    if from >= end then 0 else
      var q := t.night(stay, from);
      (if OnABill(ls, stay, folio, from) || q.price <= 0 then 0 else q.net + TaxSum(q.taxes))
      + StillToCharge(ls, stay, folio, from + 1, end, t)
  }

  lemma OtherNightsAsBefore(b: Books, after: Books, bill: nat, q: Quote, date: int, stay: nat, folio: nat, d: int)
    requires Came(b, after, bill, q, date, stay, false) && d != date
    requires forall i :: |b.lines| < i < |after.lines| ==> after.lines[i].kind == Tax
    ensures OnABill(after.lines, stay, folio, d) <==> OnABill(b.lines, stay, folio, d)
  {
    forall i: nat | i < |b.lines| ensures after.lines[i] == b.lines[i] {
      assert after.lines[..|b.lines|][i] == b.lines[i];
    }
    if i: nat :| NightLineOn(b.lines, stay, folio, d, i) {
      assert NightLineOn(after.lines, stay, folio, d, i);
    }
    if i: nat :| NightLineOn(after.lines, stay, folio, d, i) {
      assert NightLineOn(b.lines, stay, folio, d, i);
    }
  }

  lemma {:induction false} SameStillToCharge(ls: seq<Line>, after: seq<Line>, stay: nat, folio: nat, from: int,
      end: int,
      t: Tariff)
    requires forall d :: from <= d < end ==> (OnABill(after, stay, folio, d) <==> OnABill(ls, stay, folio, d))
    ensures StillToCharge(after, stay, folio, from, end, t) == StillToCharge(ls, stay, folio, from, end, t)
    decreases end - from
  {
    if from < end {
      SameStillToCharge(ls, after, stay, folio, from + 1, end, t);
    }
  }

  /** A line a backfill leaves beyond those there were: the night of a date in the range at its price, or a tax. */
  ghost predicate NightOrTax(line: Line, stay: nat, bill: nat, from: int, end: int, t: Tariff) {
    line.kind == Tax || (from <= line.date < end && line ==
      Line(bill, t.night(stay, line.date).net, Room, None, None, None, line.date, Some(stay), false))
  }

  ghost predicate OnlyNights(b: Books, after: Books, stay: nat, bill: nat, from: int, end: int, t: Tariff) {
    && |b.lines| <= |after.lines| && after.lines[..|b.lines|] == b.lines && after == b.(lines := after.lines)
    && forall i {:trigger after.lines[i]} :: |b.lines| <= i < |after.lines| ==>
         NightOrTax(after.lines[i], stay, bill, from, end, t)
  }

  /** After one date: only that night came, the other dates are as they were, and the bill owes that much more. */
  lemma OneDate(b: Books, stay: Stay, folio: nat, bill: nat, from: int, end: int, t: Tariff)
    requires GoodTariff(t) && folio in b.folios && GoesTo(b, stay, folio, bill) && !stay.isDayUse && from < end
    ensures var after := PostForDate(b, stay, folio, from, t);
      && OnlyNights(b, after, stay.id, bill, from, end, t)
      && Balance(b, bill) + StillToCharge(b.lines, stay.id, folio, from, end, t) ==
           Balance(after, bill) + StillToCharge(after.lines, stay.id, folio, from + 1, end, t)
      && forall f: nat :: f != bill ==> Balance(after, f) == Balance(b, f)
  {
    var after, q := PostForDate(b, stay, folio, from, t), t.night(stay.id, from);
    assert after == Next(b, Night(stay, folio, from), t);
    NightOutcome(b, stay, folio, from, t, bill);
    if after != b {
      TaxesBehind(b, stay, folio, from, t, bill);
      forall d | from + 1 <= d < end
        ensures OnABill(after.lines, stay.id, folio, d) <==> OnABill(b.lines, stay.id, folio, d) {
        OtherNightsAsBefore(b, after, bill, q, from, stay.id, folio, d);
      }
      SameStillToCharge(b.lines, after.lines, stay.id, folio, from + 1, end, t);
    }
  }

  lemma TaxesBehind(b: Books, stay: Stay, folio: nat, date: int, t: Tariff, bill: nat)
    requires GoodTariff(t) && folio in b.folios && GoesTo(b, stay, folio, bill) && !stay.isDayUse
    requires !OnABill(b.lines, stay.id, folio, date) && t.night(stay.id, date).price > 0
    ensures var after := PostForDate(b, stay, folio, date, t);
      forall i :: |b.lines| < i < |after.lines| ==> after.lines[i].kind == Tax
  {
    OnABillIff(b.lines, stay.id, folio, date);
    assert Priced(t.night(stay.id, date));
  }

  lemma {:induction false} BackfillSteps(b: Books, stay: Stay, folio: nat, bill: nat, from: int, end: int, t: Tariff)
    requires GoodTariff(t) && folio in b.folios && GoesTo(b, stay, folio, bill) && !stay.isDayUse
    ensures var after := Backfilled(b, stay, folio, from, end, t);
      && OnlyNights(b, after, stay.id, bill, from, end, t)
      && Balance(after, bill) == Balance(b, bill) + StillToCharge(b.lines, stay.id, folio, from, end, t)
      && forall f: nat :: f != bill ==> Balance(after, f) == Balance(b, f)
    decreases end - from
  {
    if from < end {
      var next := PostForDate(b, stay, folio, from, t);
      OneDate(b, stay, folio, bill, from, end, t);
      BackfillSteps(next, stay, folio, bill, from + 1, end, t);
      NightsInTurn(b, next, Backfilled(next, stay, folio, from + 1, end, t), stay.id, bill, from, end, t);
    }
  }

  lemma NightsInTurn(b: Books, next: Books, after: Books, stay: nat, bill: nat, from: int, end: int, t: Tariff)
    requires OnlyNights(b, next, stay, bill, from, end, t) && OnlyNights(next, after, stay, bill, from + 1, end, t)
    ensures OnlyNights(b, after, stay, bill, from, end, t)
  {
    assert after.lines[..|b.lines|] == next.lines[..|b.lines|];
    forall i | |b.lines| <= i < |after.lines| ensures NightOrTax(after.lines[i], stay, bill, from, end, t) {
      if i < |next.lines| {
        assert after.lines[i] == after.lines[..|next.lines|][i] == next.lines[i];
      }
    }
  }

  /**
   * A backfill of an overnight stay adds nothing but nights that have passed before check-out, at their
   * prices, with tax; its bill then owes exactly those not billed before, and no other bill changes.
   */
  lemma BackfillOutcome(b: Books, stay: Stay, folio: nat, today: int, t: Tariff, bill: nat)
    requires GoodTariff(t) && folio in b.folios && GoesTo(b, stay, folio, bill) && !stay.isDayUse
    ensures var after, end := Next(b, Backfill(stay, folio, today), t), if today < stay.checkOut then today
      else stay.checkOut;
      && OnlyNights(b, after, stay.id, bill, stay.checkIn, end, t)
      && Balance(after, bill) == Balance(b, bill) + StillToCharge(b.lines, stay.id, folio, stay.checkIn, end, t)
      && forall f: nat :: f != bill ==> Balance(after, f) == Balance(b, f)
  {
    BackfillSteps(b, stay, folio, bill, stay.checkIn, LastBillable(stay, today), t);
  }
}
