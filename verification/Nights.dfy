/** Room nights: each is billed once, wherever its line has been moved since. */
module Nights {
  import opened Wrappers
  import opened Lines
  import opened Ledger
  import Desk

  datatype Stay = Stay(id: nat, branch: nat, checkIn: int, checkOut: int, isDayUse: bool, billTo: Option<nat>)

  /** A price as charged, and what pricing makes of it: the net amount and the taxes. */
  datatype Quote = Quote(price: int, net: int, taxes: seq<TaxPart>)

  /** The price of one night of a stay, and of a day-use stay's day. Dates count days. */
  datatype Tariff = Tariff(night: (nat, int) -> Quote, day: nat -> Quote)

  ghost predicate Priced(q: Quote) {
    q.price > 0 ==> q.net > 0 && forall k :: 0 <= k < |q.taxes| ==> q.taxes[k].amount > 0
  }

  /** What the pricing of taxes promises for a positive price. */
  ghost predicate GoodTariff(t: Tariff) {
    (forall s, d {:trigger t.night(s, d)} :: Priced(t.night(s, d))) && forall s {:trigger t.day(s)} :: Priced(t.day(s))
  }

  predicate IsRoomNight(line: Line, stay: nat, date: int) {
    line.kind == Room && line.date == date && !line.dayUse && line.stay == Some(stay)
  }

  predicate Billed(ls: seq<Line>, stay: nat, date: int) {
    exists i :: 0 <= i < |ls| && IsRoomNight(ls[i], stay, date)
  }

  /** A room line nobody recorded a stay on, found where it sits. */
  predicate IsHandPosted(line: Line, folio: nat, date: int) {
    line.kind == Room && line.date == date && !line.dayUse && line.stay.None? && line.folio == folio
  }

  predicate BilledByHand(ls: seq<Line>, folio: nat, date: int) {
    exists i :: 0 <= i < |ls| && IsHandPosted(ls[i], folio, date)
  }

  predicate DayCharged(ls: seq<Line>, stay: nat) {
    exists i :: 0 <= i < |ls| && ls[i].stay == Some(stay) && ls[i].dayUse
  }

  /** `billTo`, if it names an open bill of the stay's branch; otherwise `folio`. */
  function RoutedFolio(b: Books, stay: Stay, folio: nat): nat {
    if stay.billTo.Some? && IsOpen(b, stay.billTo.value) && b.folios[stay.billTo.value].branch == stay.branch then
      stay.billTo.value else folio
  }

  function NightLine(folio: nat, q: Quote, stay: nat, date: int): Line {
    Line(folio, q.net, Room, None, None, None, date, Some(stay), false)
  }

  ghost function PostRoomNight(b: Books, stay: Stay, folio: nat, date: int, t: Tariff): Books {
    var q := t.night(stay.id, date);
    if Billed(b.lines, stay.id, date) || BilledByHand(b.lines, folio, date) || q.price <= 0 then b
    else Charge(b, NightLine(RoutedFolio(b, stay, folio), q, stay.id, date), q.taxes)
  }

  ghost function PostDayUse(b: Books, stay: Stay, folio: nat, t: Tariff): Books {
    var q := t.day(stay.id);
    if q.price <= 0 then b
    else Charge(b, Line(RoutedFolio(b, stay, folio), q.net, Room, None, None, None, stay.checkIn, Some(stay.id), true),
      q.taxes)
  }

  ghost function PostForDate(b: Books, stay: Stay, folio: nat, date: int, t: Tariff): Books {
    if stay.isDayUse && !DayCharged(b.lines, stay.id) then PostDayUse(b, stay, folio, t)
      else PostRoomNight(b, stay, folio, date, t)
  }

  function LastBillable(stay: Stay, today: int): int {
    if today < stay.checkOut then today else stay.checkOut
  }

  /** Every date from `from` up to `end`, in turn. */
  ghost function Backfilled(b: Books, stay: Stay, folio: nat, from: int, end: int, t: Tariff): Books
    decreases end - from
  {
    if from >= end then b else Backfilled(PostForDate(b, stay, folio, from, t), stay, folio, from + 1, end, t)
  }

  // ----- each night once -----

  ghost predicate SameNight(ls: seq<Line>, i: nat, j: nat)
    requires i < |ls| && j < |ls|
  {
    ls[i].kind == Room && ls[j].kind == Room && ls[i].stay.Some? && ls[i].stay == ls[j].stay &&
      ls[i].dayUse == ls[j].dayUse
    && (ls[i].dayUse || ls[i].date == ls[j].date)
  }

  /** No two room lines are for the same night of the same stay, nor for the day of the same day-use stay. */
  ghost predicate OncePerNight(ls: seq<Line>) {
    forall i: nat, j: nat {:trigger SameNight(ls, i, j)} :: i < |ls| && j < |ls| && SameNight(ls, i, j) ==> i == j
  }

  /** Lines that are no room line of a stay change nothing. */
  lemma AppendOthers(ls: seq<Line>, more: seq<Line>)
    requires OncePerNight(ls) && forall k :: 0 <= k < |more| ==> more[k].kind != Room || more[k].stay.None?
    ensures OncePerNight(ls + more)
  {
    forall i: nat, j: nat | i < |ls + more| && j < |ls + more| && SameNight(ls + more, i, j) ensures i == j {
      assert SameNight(ls, i, j);
    }
  }

  lemma AppendNight(ls: seq<Line>, line: Line)
    requires OncePerNight(ls) && line.kind == Room && line.stay.Some?
    requires if line.dayUse then !DayCharged(ls, line.stay.value) else !Billed(ls, line.stay.value, line.date)
    ensures OncePerNight(ls + [line])
  {
    forall i: nat, j: nat | i < |ls + [line]| && j < |ls + [line]| && SameNight(ls + [line], i, j) ensures i == j {
      if i < |ls| && j < |ls| {
        assert SameNight(ls, i, j);
      }
    }
  }

  lemma ChargeLines(b: Books, charge: Line, taxes: seq<TaxPart>)
    ensures Charge(b, charge, taxes).lines == b.lines ||
      Charge(b, charge, taxes).lines == (b.lines + [charge]) + TaxLines(charge, |b.lines|, taxes)
  {
  }

  lemma PostForDateKeeps(b: Books, stay: Stay, folio: nat, date: int, t: Tariff)
    requires OncePerNight(b.lines)
    ensures OncePerNight(PostForDate(b, stay, folio, date, t).lines)
  {
    var after := PostForDate(b, stay, folio, date, t);
    if after.lines != b.lines {
      var forDay := stay.isDayUse && !DayCharged(b.lines, stay.id);
      var to := RoutedFolio(b, stay, folio);
      var q := if forDay then t.day(stay.id) else t.night(stay.id, date);
      var line := if forDay then Line(to, q.net, Room, None, None, None, stay.checkIn, Some(stay.id), true)
        else NightLine(to, q, stay.id, date);
      ChargeLines(b, line, q.taxes);
      AppendNight(b.lines, line);
      AppendOthers(b.lines + [line], TaxLines(line, |b.lines|, q.taxes));
    }
  }

  lemma {:induction false} BackfillKeeps(b: Books, stay: Stay, folio: nat, from: int, end: int, t: Tariff)
    requires OncePerNight(b.lines)
    ensures OncePerNight(Backfilled(b, stay, folio, from, end, t).lines)
    decreases end - from
  {
    if from < end {
      PostForDateKeeps(b, stay, folio, from, t);
      BackfillKeeps(PostForDate(b, stay, folio, from, t), stay, folio, from + 1, end, t);
    }
  }

  /** What happens at a hotel: nights posted, stays backfilled, anything else on the books. */
  datatype Event =
    | Night(stay: Stay, folio: nat, date: int)
    | Backfill(stay: Stay, folio: nat, today: int)
    | Other(op: Op)

  /** Any other charge records no stay, or is no room line. */
  predicate Plain(e: Event) {
    e.Other? && (e.op.Post? || e.op.PostBySystem? || e.op.PostAtOutlet?) ==>
      e.op.charge.kind != Room || e.op.charge.stay.None?
  }

  ghost function Next(b: Books, e: Event, t: Tariff): Books {
    match e
    case Night(stay, folio, date) => PostForDate(b, stay, folio, date, t)
    case Backfill(stay, folio, today) => Backfilled(b, stay, folio, stay.checkIn, LastBillable(stay, today), t)
    case Other(op) => Apply(b, op)
  }

  /** `after` is `ls`, with some lines perhaps on another bill, and more lines behind. */
  ghost predicate Extends(ls: seq<Line>, after: seq<Line>) {
    |ls| <= |after| && forall i {:trigger after[i]} :: 0 <= i < |ls| ==> after[i].(folio := 0) == ls[i].(folio := 0)
  }

  /** The lines behind bill no night of any stay. */
  ghost predicate NoNightFrom(after: seq<Line>, n: nat) {
    forall i :: n <= i < |after| ==> after[i].kind != Room || after[i].stay.None?
  }

  lemma ReversalGrows(ls: seq<Line>, x: nat)
    requires x < |ls|
    ensures Extends(ls, Reversed(ls, x)) && NoNightFrom(Reversed(ls, x), |ls|)
  {
  }

  lemma ChargeGrows(ls: seq<Line>, charge: Line, taxes: seq<TaxPart>)
    ensures Extends(ls, Charged(ls, charge, taxes))
    ensures charge.kind != Room || charge.stay.None? ==> NoNightFrom(Charged(ls, charge, taxes), |ls|)
  {
  }

  lemma MoveGrows(ls: seq<Line>, s: set<nat>, target: nat)
    ensures Extends(ls, Moved(ls, s, target)) && |Moved(ls, s, target)| == |ls|
  {
  }

  lemma PostingGrows(b: Books, op: Op)
    requires op.Post? || op.PostBySystem? || op.PostAtOutlet?
    ensures Extends(b.lines, Apply(b, op).lines)
    ensures Plain(Other(op)) ==> NoNightFrom(Apply(b, op).lines, |b.lines|)
  {
    ChargeGrows(b.lines, op.charge, op.taxes);
  }

  lemma MovingGrows(b: Books, op: Op)
    requires op.Move? || op.UndoMove?
    ensures Extends(b.lines, Apply(b, op).lines) && NoNightFrom(Apply(b, op).lines, |b.lines|)
  {
    match op
    case Move(s, t, sel, within, now) =>
      if CanMove(b, s, t, sel, within) {
        MoveGrows(b.lines, Family(b.lines, s, SelectedLines(b, s, sel)), t);
      }
    case UndoMove(t, now) =>
      if CanReverseTransfer(b, t, now) {
        var tr := b.transfers[t];
        MoveGrows(b.lines, Family(b.lines, tr.target, tr.lines), tr.source);
      }
  }

  /** What any operation does to the lines: appends, or moves some to another bill. */
  lemma LinesGrow(b: Books, op: Op)
    ensures Extends(b.lines, Apply(b, op).lines)
    ensures Plain(Other(op)) ==> NoNightFrom(Apply(b, op).lines, |b.lines|)
  {
    if op.Post? || op.PostBySystem? || op.PostAtOutlet? {
      PostingGrows(b, op);
    } else if op.Move? || op.UndoMove? {
      MovingGrows(b, op);
    } else if (op.Correct? || op.Waive?) && op.line < |b.lines| {
      ReversalGrows(b.lines, op.line);
    }
  }

  lemma OtherKeeps(b: Books, op: Op)
    requires OncePerNight(b.lines) && Plain(Other(op))
    ensures OncePerNight(Apply(b, op).lines)
  {
    LinesGrow(b, op);
    var after := Apply(b, op).lines;
    forall i: nat, j: nat | i < |after| && j < |after| && SameNight(after, i, j) ensures i == j {
      assert i < |b.lines| && j < |b.lines|;
      assert after[i].(folio := 0) == b.lines[i].(folio := 0) && after[j].(folio := 0) == b.lines[j].(folio := 0);
      assert SameNight(b.lines, i, j);
    }
  }

  ghost function History(events: seq<Event>, t: Tariff): Books
    decreases |events|
  {
    if events == [] then EMPTY else Next(History(events[..|events| - 1], t), events[|events| - 1], t)
  }

  /**
   * Across check-in, night posting, backfill, routing, moves and corrections in any order, no
   * night is billed twice.
   */
  lemma {:induction false} NoNightTwice(events: seq<Event>, t: Tariff)
    requires forall k :: 0 <= k < |events| ==> Plain(events[k])
    ensures OncePerNight(History(events, t).lines)
    decreases |events|
  {
    if events != [] {
      var before, e := events[..|events| - 1], events[|events| - 1];
      NoNightTwice(before, t);
      match e
      case Night(stay, folio, date) => PostForDateKeeps(History(before, t), stay, folio, date, t);
      case Backfill(stay, folio, today) =>
        BackfillKeeps(History(before, t), stay, folio, stay.checkIn, LastBillable(stay, today), t);
      case Other(op) => OtherKeeps(History(before, t), op);
    }
  }

  // ----- backfill leaves no night out -----

  lemma BilledStays(b: Books, stay: Stay, folio: nat, from: int, end: int, t: Tariff, s: nat, d: int)
    requires Billed(b.lines, s, d)
    ensures Billed(Backfilled(b, stay, folio, from, end, t).lines, s, d)
    decreases end - from
  {
    if from < end {
      PostKeepsBilled(b, stay, folio, from, t, s, d);
      BilledStays(PostForDate(b, stay, folio, from, t), stay, folio, from + 1, end, t, s, d);
    }
  }

  lemma PostKeepsBilled(b: Books, stay: Stay, folio: nat, date: int, t: Tariff, s: nat, d: int)
    requires Billed(b.lines, s, d)
    ensures Billed(PostForDate(b, stay, folio, date, t).lines, s, d)
  {
    var i :| 0 <= i < |b.lines| && IsRoomNight(b.lines[i], s, d);
    assert IsRoomNight(PostForDate(b, stay, folio, date, t).lines[i], s, d);
  }

  lemma PostBills(b: Books, stay: Stay, folio: nat, date: int, t: Tariff)
    requires GoodTariff(t) && !stay.isDayUse && folio in b.folios && t.night(stay.id, date).price > 0
    ensures var after := PostForDate(b, stay, folio, date, t); after.folios == b.folios
    ensures var after := PostForDate(b, stay, folio, date, t);
      Billed(after.lines, stay.id, date) || BilledByHand(b.lines, folio, date)
    ensures var after := PostForDate(b, stay, folio, date, t);
      forall d :: BilledByHand(after.lines, folio, d) <==> BilledByHand(b.lines, folio, d)
  {
    var after, q := PostForDate(b, stay, folio, date, t), t.night(stay.id, date);
    if after.lines != b.lines {
      var line := NightLine(RoutedFolio(b, stay, folio), q, stay.id, date);
      assert Priced(q);
      assert after.lines == Charged(b.lines, line, q.taxes);
      assert after.lines[|b.lines|] == line;
      assert IsRoomNight(after.lines[|b.lines|], stay.id, date);
      forall d ensures BilledByHand(after.lines, folio, d) <==> BilledByHand(b.lines, folio, d) {
        if i :| 0 <= i < |b.lines| && IsHandPosted(b.lines[i], folio, d) {
          assert after.lines[i] == b.lines[i];
        }
        if i :| 0 <= i < |after.lines| && IsHandPosted(after.lines[i], folio, d) {
          assert i < |b.lines| && after.lines[i] == b.lines[i];
        }
      }
    }
  }

  /** After a backfill every date in the range is billed to the stay, unless it was billed by hand on the bill given. */
  lemma {:induction false} BackfillBillsAll(b: Books, stay: Stay, folio: nat, from: int, end: int, t: Tariff, d: int)
    requires GoodTariff(t) && !stay.isDayUse && folio in b.folios && from <= d < end
    requires forall date :: from <= date < end ==> t.night(stay.id, date).price > 0
    ensures Billed(Backfilled(b, stay, folio, from, end, t).lines, stay.id, d) || BilledByHand(b.lines, folio, d)
    decreases end - from
  {
    var next := PostForDate(b, stay, folio, from, t);
    PostBills(b, stay, folio, from, t);
    if d == from {
      if Billed(next.lines, stay.id, d) {
        BilledStays(next, stay, folio, from + 1, end, t, stay.id, d);
      }
    } else {
      BackfillBillsAll(next, stay, folio, from + 1, end, t, d);
    }
  }

  ghost predicate IsNightAt(ls: seq<Line>, stay: nat, date: int, i: nat) {
    i < |ls| && IsRoomNight(ls[i], stay, date)
  }

  /** A night that has passed by today and is before check-out. */
  ghost predicate Elapsed(stay: Stay, today: int, d: int) {
    stay.checkIn <= d < today && d < stay.checkOut
  }

  /**
   * For an overnight stay with positive prices, and where no room line was posted by hand: exactly one line
   * for each night before both today and check-out.
   */
  lemma BackfillBillsEachNightOnce(b: Books, stay: Stay, folio: nat, today: int, t: Tariff, d: int)
    requires OncePerNight(b.lines) && GoodTariff(t) && !stay.isDayUse && folio in b.folios
    requires Elapsed(stay, today, d) && !BilledByHand(b.lines, folio, d)
    requires forall date :: Elapsed(stay, today, date) ==> t.night(stay.id, date).price > 0
    ensures var after := Next(b, Backfill(stay, folio, today), t).lines;
      (exists i: nat :: IsNightAt(after, stay.id, d, i)) && forall i: nat, j: nat ::
        IsNightAt(after, stay.id, d, i) && IsNightAt(after, stay.id, d, j) ==> i == j
  {
    var last := LastBillable(stay, today);
    var after := Backfilled(b, stay, folio, stay.checkIn, last, t).lines;
    assert forall date :: stay.checkIn <= date < last ==> Elapsed(stay, today, date);
    BackfillBillsAll(b, stay, folio, stay.checkIn, last, t, d);
    BackfillKeeps(b, stay, folio, stay.checkIn, last, t);
    var k :| 0 <= k < |after| && IsRoomNight(after[k], stay.id, d);
    assert IsNightAt(after, stay.id, d, k);
    forall i: nat, j: nat | IsNightAt(after, stay.id, d, i) && IsNightAt(after, stay.id, d, j) ensures i == j {
      assert SameNight(after, i, j);
    }
  }

  /** Where every date is billed already, backfilling posts nothing. */
  lemma {:induction false} NothingLeftToPost(b: Books, stay: Stay, folio: nat, from: int, end: int, t: Tariff)
    requires !stay.isDayUse
    requires forall d :: from <= d < end ==> Billed(b.lines, stay.id, d) || BilledByHand(b.lines, folio, d)
    ensures Backfilled(b, stay, folio, from, end, t) == b
    decreases end - from
  {
    if from < end {
      NothingLeftToPost(b, stay, folio, from + 1, end, t);
    }
  }

  lemma BilledThroughEvents(b: Books, e: Event, t: Tariff, s: nat, d: int)
    requires Billed(b.lines, s, d)
    ensures Billed(Next(b, e, t).lines, s, d)
  {
    match e
    case Night(stay, folio, date) => PostKeepsBilled(b, stay, folio, date, t, s, d);
    case Backfill(stay, folio, today) => BilledStays(b, stay, folio, stay.checkIn, LastBillable(stay, today), t, s, d);
    case Other(op) =>
      LinesGrow(b, op);
      var i :| 0 <= i < |b.lines| && IsRoomNight(b.lines[i], s, d);
      assert Apply(b, op).lines[i].(folio := 0) == b.lines[i].(folio := 0);
  }

  ghost function Later(b: Books, events: seq<Event>, t: Tariff): Books
    decreases |events|
  {
    if events == [] then b else Later(Next(b, events[0], t), events[1..], t)
  }

  lemma BilledForGood(b: Books, events: seq<Event>, t: Tariff, s: nat, d: int)
    requires Billed(b.lines, s, d)
    ensures Billed(Later(b, events, t).lines, s, d)
    decreases |events|
  {
    if events != [] {
      BilledThroughEvents(b, events[0], t, s, d);
      BilledForGood(Next(b, events[0], t), events[1..], t, s, d);
    }
  }

  /** Backfilling again, after whatever moves, corrections and postings, posts nothing, even onto another bill. */
  lemma BackfillAgainPostsNothing(b: Books, stay: Stay, folio: nat, today: int, t: Tariff, events: seq<Event>,
      other: nat)
    requires GoodTariff(t) && !stay.isDayUse && folio in b.folios
    requires forall d :: Elapsed(stay, today, d) ==> t.night(stay.id, d).price > 0 && !BilledByHand(b.lines, folio, d)
    ensures
      var now := Later(Next(b, Backfill(stay, folio, today), t), events, t);
      Next(now, Backfill(stay, other, today), t) == now
  {
    var last := LastBillable(stay, today);
    var first := Backfilled(b, stay, folio, stay.checkIn, last, t);
    var now := Later(first, events, t);
    forall d | stay.checkIn <= d < last ensures Billed(now.lines, stay.id, d) {
      assert forall date :: stay.checkIn <= date < last ==> Elapsed(stay, today, date);
      BackfillBillsAll(b, stay, folio, stay.checkIn, last, t, d);
      BilledForGood(first, events, t, stay.id, d);
    }
    NothingLeftToPost(now, stay, other, stay.checkIn, last, t);
  }

  // ----- as it is carried out -----

  /** The room lines among the first `n`. */
  function RoomLines(ls: seq<Line>, n: nat): nat
    requires n <= |ls|
  {
    if n == 0 then 0 else RoomLines(ls, n - 1) + (if ls[n - 1].kind == Room then 1 else 0)
  }

  lemma {:induction false} RoomLinesWithin(ls: seq<Line>, more: seq<Line>, n: nat)
    requires n <= |ls|
    ensures RoomLines(ls + more, n) == RoomLines(ls, n)
  {
    if n > 0 {
      RoomLinesWithin(ls, more, n - 1);
    }
  }

  lemma {:induction false} NoMoreRoomLines(ls: seq<Line>, more: seq<Line>, n: nat)
    requires n <= |more| && forall k :: 0 <= k < |more| ==> more[k].kind != Room
    ensures RoomLines(ls + more, |ls| + n) == RoomLines(ls, |ls|)
  {
    if n == 0 {
      RoomLinesWithin(ls, more, |ls|);
    } else {
      NoMoreRoomLines(ls, more, n - 1);
    }
  }

  lemma OneRoomLineMore(ls: seq<Line>, charge: Line, taxes: seq<TaxPart>)
    requires charge.kind == Room
    ensures var after := Charged(ls, charge, taxes); RoomLines(after, |after|) == RoomLines(ls, |ls|) + 1
  {
    RoomLinesWithin(ls, [charge], |ls|);
    var more := TaxLines(charge, |ls|, taxes);
    NoMoreRoomLines(ls + [charge], more, |more|);
  }

  /**
   * One date of a stay: the day of a day-use stay not yet charged, else the night, unless it is
   * billed or costs nothing.
   */
  method PostRoomChargeForDate(desk: Desk.FolioDesk, stay: Stay, folio: nat, date: int, t: Tariff)
      returns (posted: bool)
    requires GoodTariff(t) && folio in desk.books.folios
    modifies desk
    ensures desk.books == PostForDate(old(desk.books), stay, folio, date, t)
    ensures posted <==> |desk.books.lines| > |old(desk.books).lines|
    ensures !posted ==> desk.books == old(desk.books)
    ensures RoomLines(desk.books.lines, |desk.books.lines|) ==
      RoomLines(old(desk.books).lines, |old(desk.books).lines|) + (if posted then 1 else 0)
  {
    posted := false;
    var billTo := RoutedFolio(desk.books, stay, folio);
    if stay.isDayUse && !DayCharged(desk.books.lines, stay.id) {
      var q := t.day(stay.id);
      assert Priced(q);
      if q.price > 0 {
        var line := Line(billTo, q.net, Room, None, None, None, stay.checkIn, Some(stay.id), true);
        OneRoomLineMore(desk.books.lines, line, q.taxes);
        desk.WriteChargeWithTaxes(line, q.taxes);
        posted := true;
      }
    } else if !Billed(desk.books.lines, stay.id, date) && !BilledByHand(desk.books.lines, folio, date) {
      var q := t.night(stay.id, date);
      assert Priced(q);
      if q.price > 0 {
        OneRoomLineMore(desk.books.lines, NightLine(billTo, q, stay.id, date), q.taxes);
        desk.WriteChargeWithTaxes(NightLine(billTo, q, stay.id, date), q.taxes);
        posted := true;
      }
    }
  }

  /** Posts the dates from check-in up to `LastBillable`, skipping those already posted. */
  method BackfillRoomCharges(desk: Desk.FolioDesk, stay: Stay, folio: nat, today: int, t: Tariff) returns (posted: nat)
    requires GoodTariff(t) && folio in desk.books.folios
    modifies desk
    ensures desk.books == Backfilled(old(desk.books), stay, folio, stay.checkIn, LastBillable(stay, today), t)
    ensures posted == 0 <==> desk.books == old(desk.books)
    ensures RoomLines(desk.books.lines, |desk.books.lines|) ==
      RoomLines(old(desk.books).lines, |old(desk.books).lines|) + posted
  {
    posted := 0;
    var last := LastBillable(stay, today);
    var night := stay.checkIn;
    while night < last
      invariant Backfilled(desk.books, stay, folio, night, last, t) ==
        Backfilled(old(desk.books), stay, folio, stay.checkIn, last, t)
      invariant desk.books.folios == old(desk.books).folios && |desk.books.lines| >= |old(desk.books).lines| + posted
      invariant posted == 0 ==> desk.books == old(desk.books)
      invariant RoomLines(desk.books.lines, |desk.books.lines|) ==
        RoomLines(old(desk.books).lines, |old(desk.books).lines|) + posted
    {
      var result := PostRoomChargeForDate(desk, stay, folio, night, t);
      if result {
        posted := posted + 1;
      }
      night := night + 1;
    }
  }
}
