/** The operations on the books as they are carried out: rows written one by one, sums run up in loops. */
module Desk {
  import opened Wrappers
  import opened Lines
  import opened Ledger

  function Ids(s: seq<nat>): set<nat> {
    set i | i in s
  }

  // ----- finding what hangs off a set of lines -----

  /** The lines of a bill that hang directly off one of `frontier`, in posting order. */
  function HangingOff(ls: seq<Line>, folio: nat, frontier: set<nat>, n: nat): (found: seq<nat>)
    requires n <= |ls|
    ensures forall i :: i in found <==> 0 <= i < n && IsHanging(ls, folio, frontier, i)
    ensures forall a, b :: 0 <= a < b < |found| ==> found[a] != found[b]
  {
    if n == 0 then [] else
      HangingOff(ls, folio, frontier, n - 1) + (if IsHanging(ls, folio, frontier, n - 1) then [n - 1] else [])
  }

  predicate IsHanging(ls: seq<Line>, folio: nat, frontier: set<nat>, i: nat)
    requires i < |ls|
  {
    ls[i].folio == folio &&
      ((ls[i].parent.Some? && ls[i].parent.value in frontier) ||
      (ls[i].corrects.Some? && ls[i].corrects.value in frontier))
  }

  /** Links point backwards. */
  ghost predicate Backwards(ls: seq<Line>) {
    forall i ::
      0 <= i < |ls| ==>
        (ls[i].parent.Some? ==> ls[i].parent.value < i) && (ls[i].corrects.Some? ==> ls[i].corrects.value < i)
  }

  lemma SoundIsBackwards(ls: seq<Line>)
    requires Sound(ls)
    ensures Backwards(ls)
  {
    forall i | 0 <= i < |ls|
      ensures (ls[i].parent.Some? ==> ls[i].parent.value < i) && (ls[i].corrects.Some? ==> ls[i].corrects.value < i) {
      assert SoundAt(ls, i);
    }
  }

  /** What the search has seen so far. */
  ghost predicate Searching(ls: seq<Line>, folio: nat, items: set<nat>, seen: set<nat>, frontier: set<nat>) {
    && items <= seen <= Family(ls, folio, items) && frontier <= seen
    && forall i, k ::
         (0 <= i < |ls| && k in seen && k !in frontier && ls[i].folio == folio
          && (ls[i].parent == Some(k) || ls[i].corrects == Some(k))) ==> i in seen
  }

  /** Widening the search by everything that hangs off its frontier. */
  lemma SearchWidens(ls: seq<Line>, folio: nat, items: set<nat>, seen: set<nat>, frontier: set<nat>, found: seq<nat>)
    requires Backwards(ls) && Searching(ls, folio, items, seen, frontier) &&
      found == HangingOff(ls, folio, frontier, |ls|)
    ensures Searching(ls, folio, items, seen + Ids(found), Ids(found) - seen)
  {
    var more := Ids(found);
    forall i | i in found ensures i in Family(ls, folio, items) {
      assert IsHanging(ls, folio, frontier, i);
      var k := if ls[i].parent.Some? && ls[i].parent.value in frontier then ls[i].parent.value
        else ls[i].corrects.value;
      assert k in Family(ls, folio, items);
      assert MovesWith(ls, folio, items, k) && MovesWith(ls, folio, items, i);
    }
    forall i, k | 0 <= i < |ls| && k in seen + more && k !in more - seen && ls[i].folio == folio &&
      (ls[i].parent == Some(k) || ls[i].corrects == Some(k)) ensures i in seen + more {
      if k in frontier {
        assert IsHanging(ls, folio, frontier, i);
        assert i in found;
      }
    }
  }

  lemma SearchEnds(ls: seq<Line>, folio: nat, items: set<nat>, seen: set<nat>)
    requires Searching(ls, folio, items, seen, {}) && forall i :: i in items ==> i < |ls|
    ensures seen == Family(ls, folio, items)
  {
    FamilyIsLeastClosed(ls, folio, items, seen);
  }

  /** `items` plus every line of the bill hanging off them, in the order found. */
  method WithDependents(ls: seq<Line>, folio: nat, items: seq<nat>) returns (result: seq<nat>)
    requires Sound(ls) && forall i :: i in items ==> i < |ls|
    requires Different(items)
    ensures Ids(result) == Family(ls, folio, Ids(items))
    ensures Different(result) && items <= result
  {
    SoundIsBackwards(ls);
    result := items;
    var seen := Ids(items);
    var frontier := seen;
    while frontier != {}
      invariant Searching(ls, folio, Ids(items), seen, frontier)
      invariant Ids(result) == seen && Different(result) && items <= result
      decreases Family(ls, folio, Ids(items)) - seen, frontier != {}
    {
      var found := HangingOff(ls, folio, frontier, |ls|);
      SearchWidens(ls, folio, Ids(items), seen, frontier, found);
      ghost var before := seen;
      seen, frontier, result := TakeNew(found, seen, result);
      if frontier != {} {
        var i :| i in frontier;
        assert i in Family(ls, folio, Ids(items)) - before;
      }
    }
    SearchEnds(ls, folio, Ids(items), seen);
  }

  predicate Different(s: seq<nat>) {
    forall a, b :: 0 <= a < b < |s| ==> s[a] != s[b]
  }

  /** Adds the lines not met before to those seen, to the next frontier and to the result. */
  method TakeNew(found: seq<nat>, seen0: set<nat>, result0: seq<nat>)
      returns (seen: set<nat>, next: set<nat>, result: seq<nat>)
    requires Ids(result0) == seen0 && Different(result0)
    ensures seen == seen0 + Ids(found) && next == Ids(found) - seen0
    ensures Ids(result) == seen && Different(result) && result0 <= result
  {
    seen, next, result := seen0, {}, result0;
    for k := 0 to |found|
      invariant seen == seen0 + Ids(found[..k]) && next == Ids(found[..k]) - seen0
      invariant Ids(result) == seen && Different(result) && result0 <= result
    {
      var item := found[k];
      IdsStep(found, k);
      if item !in seen {
        IdsAppend(result, item);
        seen, next, result := seen + {item}, next + {item}, result + [item];
      }
    }
    assert found[..|found|] == found;
  }

  lemma IdsStep(s: seq<nat>, k: nat)
    requires k < |s|
    ensures Ids(s[..k + 1]) == Ids(s[..k]) + {s[k]}
  {
    assert s[..k + 1] == s[..k] + [s[k]];
  }

  lemma IdsAppend(s: seq<nat>, x: nat)
    ensures Ids(s + [x]) == Ids(s) + {x}
    ensures Different(s) && x !in Ids(s) ==> Different(s + [x])
  {
  }

  // ----- sums -----

  function TaxOnBill(ls: seq<Line>, folio: nat, n: nat): int
    requires n <= |ls|
  {
    if n == 0 then 0 else
      TaxOnBill(ls, folio, n - 1)
      + (if ls[n - 1].folio == folio && ls[n - 1].kind == Tax then ls[n - 1].amount else 0)
  }

  function DepositsOn(ps: seq<Payment>, folio: nat, n: nat): int
    requires n <= |ps|
  {
    if n == 0 then 0 else
      DepositsOn(ps, folio, n - 1)
      + (if ps[n - 1].folio == folio && !ps[n - 1].isVoid && ps[n - 1].deposit then ps[n - 1].amount else 0)
  }

  datatype Totals = Totals(subTotal: int, taxTotal: int, totalCost: int, paymentsTotal: int, depositsTotal: int,
      balanceDue: int)

  method ComputeTotals(b: Books, folio: nat) returns (t: Totals)
    ensures t.balanceDue == Balance(b, folio) &&
      t.totalCost == OnBill(b.lines, folio, |b.lines|) == t.subTotal + t.taxTotal
    ensures t.taxTotal == TaxOnBill(b.lines, folio, |b.lines|)
    ensures t.paymentsTotal == Paid(b.payments, folio, |b.payments|) &&
      t.depositsTotal == DepositsOn(b.payments, folio, |b.payments|)
  {
    var subTotal, taxTotal := 0, 0;
    for i := 0 to |b.lines|
      invariant subTotal + taxTotal == OnBill(b.lines, folio, i) && taxTotal == TaxOnBill(b.lines, folio, i)
    {
      if b.lines[i].folio == folio {
        if b.lines[i].kind == Tax {
          taxTotal := taxTotal + b.lines[i].amount;
        } else {
          subTotal := subTotal + b.lines[i].amount;
        }
      }
    }
    var paymentsTotal, depositsTotal := 0, 0;
    for i := 0 to |b.payments|
      invariant paymentsTotal == Paid(b.payments, folio, i) && depositsTotal == DepositsOn(b.payments, folio, i)
    {
      if b.payments[i].folio == folio && !b.payments[i].isVoid {
        paymentsTotal := paymentsTotal + b.payments[i].amount;
        if b.payments[i].deposit {
          depositsTotal := depositsTotal + b.payments[i].amount;
        }
      }
    }
    t := Totals(subTotal, taxTotal, subTotal + taxTotal, paymentsTotal, depositsTotal, subTotal + taxTotal
      - paymentsTotal);
  }

  /**
   * Every balance from two passes over the rows, whatever the number of bills: the same figures as
   * the per-bill totals.
   */
  method BalancesFor(b: Books, folios: set<nat>) returns (balances: map<nat, int>)
    ensures balances.Keys == folios && forall f :: f in folios ==> balances[f] == Balance(b, f)
  {
    balances := map f | f in folios :: 0;
    for i := 0 to |b.lines|
      invariant balances.Keys == folios && forall f :: f in folios ==> balances[f] == OnBill(b.lines, f, i)
    {
      var f := b.lines[i].folio;
      if f in folios {
        balances := balances[f := balances[f] + b.lines[i].amount];
      }
    }
    for i := 0 to |b.payments|
      invariant balances.Keys == folios
      invariant forall f :: f in folios ==> balances[f] == OnBill(b.lines, f, |b.lines|) - Paid(b.payments, f, i)
    {
      var f := b.payments[i].folio;
      if f in folios && !b.payments[i].isVoid {
        balances := balances[f := balances[f] - b.payments[i].amount];
      }
    }
  }

  // ----- the desk -----

  class FolioDesk {
    var books: Books

    constructor ()
      ensures books == EMPTY
    {
      books := EMPTY;
    }

    /** Appends a charge, then a tax line for each tax priced on it. */
    method WriteChargeWithTaxes(charge: Line, taxes: seq<TaxPart>)
      requires charge.folio in books.folios && IsCharge(charge, taxes)
      modifies this
      ensures books == Charge(old(books), charge, taxes)
    {
      ghost var ls := books.lines;
      var parent := |books.lines|;
      books := books.(lines := books.lines + [charge]);
      for k := 0 to |taxes|
        invariant books == old(books).(lines := ls + [charge] + TaxLines(charge, |ls|, taxes)[..k])
      {
        books := books.(lines := books.lines + [TaxLine(charge, parent, taxes[k])]);
      }
    }

    method PostCharge(charge: Line, taxes: seq<TaxPart>) returns (posted: bool)
      requires IsCharge(charge, taxes)
      modifies this
      ensures books == Ledger.PostCharge(old(books), charge, taxes) && posted == IsOpen(old(books), charge.folio)
    {
      posted := IsOpen(books, charge.folio);
      if posted {
        WriteChargeWithTaxes(charge, taxes);
      }
    }

    /** Appends the negation of a line, and of every tax still standing on it. */
    method ReverseLineItem(x: nat)
      requires x < |books.lines| && !Corrected(books.lines, x)
      modifies this
      ensures books == old(books).(lines := Reversed(old(books).lines, x))
    {
      ghost var ls := books.lines;
      var rows := books.lines;
      var taxes := TaxesToReverse(rows, x);
      var correction := |rows|;
      books := books.(lines := rows + [CorrectionOf(rows, x)]);
      for k := 0 to |taxes|
        invariant books == old(books).(lines := ls + [CorrectionOf(ls, x)] + TaxReversals(ls, taxes)[..k])
      {
        books := books.(lines := books.lines + [TaxReversal(rows, correction, taxes[k])]);
      }
    }

    method CorrectLineItem(x: nat) returns (done: bool)
      modifies this
      ensures books == CorrectLine(old(books), x) &&
        done == (CanReverse(old(books), x) && IsOpen(old(books), old(books).lines[x].folio))
    {
      done := CanReverse(books, x) && IsOpen(books, books.lines[x].folio);
      if done {
        ReverseLineItem(x);
        books := books.(orders := VoidOrders(books.orders, x));
      }
    }

    method MoveCharges(source: nat, target: nat, sel: Selection, withinStay: bool, now: int) returns (moved: bool)
      requires Sound(books.lines)
      modifies this
      ensures books == Ledger.MoveCharges(old(books), source, target, sel, withinStay, now) &&
        moved == CanMove(old(books), source, target, sel, withinStay)
    {
      moved := false;
      if source == target || !IsOpen(books, source) || !IsOpen(books, target) ||
        books.folios[source].branch != books.folios[target].branch {
        return;
      }
      if withinStay && books.folios[source].reservation != books.folios[target].reservation {
        return;
      }
      if !SelectionFits(books, source, sel) {
        return;
      }
      var items := Ascending(SelectedLines(books, source, sel), |books.lines|);
      assert Ids(items) == SelectedLines(books, source, sel);
      var toMove := WithDependents(books.lines, source, items);
      var moving := Ids(toMove);
      if exists i :: i in items && AnchorOf(books.lines[i]).Some? && AnchorOf(books.lines[i]).value !in moving {
        return;
      }
      forall i | i in toMove ensures i < |books.lines| {
        assert i in moving;
      }
      var amount := SumOver(books.lines, toMove);
      var transfer := Transfer(source, target, moving, amount, now, false);
      books := books.(lines := Moved(books.lines, moving, target), orders := OrdersFollow(books.orders, moving, target),
        transfers := books.transfers + [transfer]);
      moved := true;
    }

    method ReverseTransfer(t: nat, now: int) returns (done: bool)
      requires Sound(books.lines) && t < |books.transfers| && forall i ::
        i in books.transfers[t].lines ==> i < |books.lines|
      modifies this
      ensures books == Ledger.ReverseTransfer(old(books), t, now) && done == CanReverseTransfer(old(books), t, now)
    {
      done := CanReverseTransfer(books, t, now);
      if done {
        var tr := books.transfers[t];
        var items := Ascending(tr.lines, |books.lines|);
        assert Ids(items) == tr.lines;
        var toReturn := WithDependents(books.lines, tr.target, items);
        var returning := Ids(toReturn);
        books := books.(lines := Moved(books.lines, returning, tr.source),
          orders := OrdersFollow(books.orders, returning, tr.source));
        books := books.(transfers := books.transfers[t := tr.(reversed := true)]);
      }
    }

    /** Closes a bill that stands at exactly zero; a balance either way refuses. */
    method CloseFolio(folio: nat) returns (settled: bool)
      modifies this
      ensures books == SettleIfFullyPaid(old(books), folio)
      ensures settled ==
        (folio in old(books).folios && (old(books).folios[folio].status == Settled || Balance(old(books), folio) == 0))
    {
      settled := false;
      if folio in books.folios {
        if books.folios[folio].status == Settled {
          return true;
        }
        var totals := ComputeTotals(books, folio);
        if totals.balanceDue == 0 {
          books := WithStatus(books, folio, Settled);
          settled := true;
        }
      }
    }

    /**
     * Claims an approved refund, then posts the money going out, then closes the bill of an ended
     * stay that this brings to nothing.
     */
    method PayOut(r: nat, drawerOpen: bool, stayEnded: bool) returns (paid: bool)
      modifies this
      ensures books == PayOutRefund(old(books), r, drawerOpen, stayEnded) &&
        paid == (CanPayOut(old(books), r) && drawerOpen)
    {
      paid := false;
      if r >= |books.refunds| || books.refunds[r].status != Approved {
        return;
      }
      var refund := books.refunds[r];
      var totals := ComputeTotals(books, refund.folio);
      if refund.amount > -totals.balanceDue || !drawerOpen {
        return;
      }
      books := WithRefundStatus(books, r, Processed);
      books := books.(payments := books.payments + [Payment(refund.folio, -refund.amount, false, false, true)]);
      paid := true;
      if stayEnded && IsOpen(books, refund.folio) {
        totals := ComputeTotals(books, refund.folio);
        if totals.balanceDue == 0 {
          books := WithStatus(books, refund.folio, Settled);
        }
      }
    }
  }

  /** The members of a set of line ids, in posting order. */
  function Ascending(s: set<nat>, n: nat): (ids: seq<nat>)
    ensures forall i :: i in ids <==> i in s && i < n
    ensures Different(ids)
  {
    if n == 0 then [] else
      var earlier := Ascending(s, n - 1);
      if n - 1 in s then earlier + [n - 1] else earlier
  }

  lemma SumRemoves(ls: seq<Line>, s: set<nat>, x: nat, n: nat)
    requires n <= |ls| && x in s
    ensures SumOf(ls, s, n) == SumOf(ls, s - {x}, n) + (if x < n then ls[x].amount else 0)
  {
  }

  lemma SumOfNothing(ls: seq<Line>, n: nat)
    requires n <= |ls|
    ensures SumOf(ls, {}, n) == 0
  {
  }

  /** Running up the amounts of the lines listed. */
  method SumOver(ls: seq<Line>, ids: seq<nat>) returns (sum: int)
    requires forall i :: i in ids ==> i < |ls|
    requires Different(ids)
    ensures sum == SumOf(ls, Ids(ids), |ls|)
  {
    sum := 0;
    SumOfNothing(ls, |ls|);
    assert Ids(ids[..0]) == {};
    for k := 0 to |ids|
      invariant sum == SumOf(ls, Ids(ids[..k]), |ls|)
    {
      var x := ids[k];
      assert x in ids && x !in ids[..k];
      IdsStep(ids, k);
      SumRemoves(ls, Ids(ids[..k + 1]), x, |ls|);
      assert Ids(ids[..k + 1]) - {x} == Ids(ids[..k]);
      sum := sum + ls[x].amount;
    }
    assert ids[..|ids|] == ids;
  }
}
