/** Moving charges between bills, and putting them back. */
module BillMoves {
  import opened Wrappers
  import opened Lines
  import opened Ledger
  import opened LedgerProof
  import Desk

  /** Moving everything on a bill is never refused for leaving something behind. */
  lemma MovingAllIsNotStranded(b: Books, source: nat, target: nat, withinStay: bool)
    requires Inv(b) && source != target && IsOpen(b, source) && IsOpen(b, target)
    requires b.folios[source].branch == b.folios[target].branch
    requires withinStay ==> b.folios[source].reservation == b.folios[target].reservation
    ensures CanMove(b, source, target, All, withinStay) <==> exists i ::
      0 <= i < |b.lines| && b.lines[i].folio == source
  {
    WholeBillIsNotStranded(b.lines, source);
    assert SelectedLines(b, source, All) == set i | 0 <= i < |b.lines| && b.lines[i].folio == source;
    if i :| 0 <= i < |b.lines| && b.lines[i].folio == source {
      assert i in SelectedLines(b, source, All);
    }
  }

  /** A move takes exactly the recorded amount off the source and puts it on the target; no other bill changes. */
  lemma MoveShiftsTheAmount(b: Books, source: nat, target: nat, sel: Selection, withinStay: bool, now: int, folio: nat)
    requires Inv(b) && CanMove(b, source, target, sel, withinStay)
    ensures var after := MoveCharges(b, source, target, sel, withinStay, now);
      var amount := after.transfers[|b.transfers|].amount;
      Balance(after, folio) ==
        Balance(b, folio) + (if folio == target then amount else 0) - (if folio == source then amount else 0)
  {
    var items := SelectedLines(b, source, sel);
    SelectedOnSource(b, source, sel);
    FamilyUpClosed(b.lines, source, items);
    MoveShiftsExactly(b.lines, source, Family(b.lines, source, items), target, folio, |b.lines|);
  }

  function TotalOf(b: Books, folios: seq<nat>): int {
    if folios == [] then 0 else Balance(b, folios[0]) + TotalOf(b, folios[1..])
  }

  lemma TotalShifts(b: Books, after: Books, folios: seq<nat>, source: nat, target: nat, amount: int)
    requires Desk.Different(folios)
    requires forall f: nat ::
      Balance(after, f) == Balance(b, f) + (if f == target then amount else 0) - (if f == source then amount else 0)
    ensures TotalOf(after, folios) ==
      TotalOf(b, folios) + (if target in folios then amount else 0) - (if source in folios then amount else 0)
  {
    if folios != [] {
      TotalShifts(b, after, folios[1..], source, target, amount);
      assert folios == [folios[0]] + folios[1..];
    }
  }

  /** The bills together owe the same before and after a move. */
  lemma MoveConserves(b: Books, source: nat, target: nat, sel: Selection, withinStay: bool, now: int, folios: seq<nat>)
    requires Inv(b) && CanMove(b, source, target, sel, withinStay)
    requires Desk.Different(folios) && source in folios && target in folios
    ensures TotalOf(MoveCharges(b, source, target, sel, withinStay, now), folios) == TotalOf(b, folios)
  {
    var after := MoveCharges(b, source, target, sel, withinStay, now);
    forall f: nat { MoveShiftsTheAmount(b, source, target, sel, withinStay, now, f); }
    TotalShifts(b, after, folios, source, target, after.transfers[|b.transfers|].amount);
  }

  lemma OrdersBack(b: Books, source: nat, s: set<nat>, target: nat)
    requires Inv(b) && OnFolio(b.lines, source, s)
    ensures OrdersFollow(OrdersFollow(b.orders, s, target), s, source) == b.orders
  {
    var r := OrdersFollow(OrdersFollow(b.orders, s, target), s, source);
    forall k: nat | k < |b.orders| ensures r[k] == b.orders[k] {
      assert OrderSound(b, k);
    }
  }

  /**
   * A move followed by its reversal, with nothing in between, puts every line and every outlet
   * order back where it was.
   */
  lemma UndoRestores(b: Books, source: nat, target: nat, sel: Selection, withinStay: bool, now: int, later: int)
    requires Inv(b) && CanMove(b, source, target, sel, withinStay) && later - now <= REVERSAL_WINDOW_MS
    ensures var moved := MoveCharges(b, source, target, sel, withinStay, now);
      var back := ReverseTransfer(moved, |b.transfers|, later);
      && CanReverseTransfer(moved, |b.transfers|, later)
      && back.lines == b.lines && back.orders == b.orders && back.payments == b.payments && back.folios == b.folios
      && back.transfers[|b.transfers|].reversed
  {
    var items := SelectedLines(b, source, sel);
    var s := Family(b.lines, source, items);
    SelectedOnSource(b, source, sel);
    FamilyUpClosed(b.lines, source, items);
    FamilyAfterMove(b.lines, source, items, target);
    MovedBack(b.lines, source, s, target);
    OrdersBack(b, source, s, target);
  }

  /**
   * Whatever was posted in between, a reversal brings back the lines it moved and everything that
   * hangs off them since.
   */
  lemma UndoBringsDependentsBack(b: Books, t: nat, now: int, i: nat, k: nat)
    requires Inv(b) && CanReverseTransfer(b, t, now) && i < |b.lines|
    requires k in Family(b.lines, b.transfers[t].target, b.transfers[t].lines)
    requires i in b.transfers[t].lines || b.lines[i].parent == Some(k) || b.lines[i].corrects == Some(k)
    ensures ReverseTransfer(b, t, now).lines[i].folio == b.transfers[t].source
    ensures Inv(ReverseTransfer(b, t, now))
  {
    UndoMoveKeepsInv(b, t, now);
    assert TransferSound(b, t);
    var tr := b.transfers[t];
    FamilyIsLeastClosed(b.lines, tr.target, tr.lines, {});
    TransferNotStranded(b, t);
    FamilyUpClosed(b.lines, tr.target, tr.lines);
    assert SoundAt(b.lines, i);
  }

  // ----- what a move of picked lines comes to -----

  /** Whatever takes `items` and all that hangs off them on the bill takes line `i`. */
  ghost predicate GoesAlong(ls: seq<Line>, folio: nat, items: set<nat>, i: nat) {
    forall s: set<nat> {:trigger DependencyClosed(ls, folio, s)} ::
      items <= s && DependencyClosed(ls, folio, s) ==> i in s
  }

  lemma GoesAlongIff(ls: seq<Line>, folio: nat, items: set<nat>, i: nat)
    requires forall k :: k in items ==> 0 <= k < |ls|
    ensures GoesAlong(ls, folio, items, i) <==> i in Family(ls, folio, items)
  {
    FamilyIsLeastClosed(ls, folio, items, {});
    if i in Family(ls, folio, items) {
      forall s: set<nat> | items <= s && DependencyClosed(ls, folio, s) ensures i in s {
        FamilyIsLeastClosed(ls, folio, items, s);
      }
    }
  }

  ghost predicate EachOnce(ids: seq<nat>) {
    forall j, k :: 0 <= j < k < |ids| ==> ids[j] != ids[k]
  }

  ghost predicate AllOn(ls: seq<Line>, folio: nat, ids: seq<nat>) {
    forall k :: 0 <= k < |ids| ==> ids[k] < |ls| && ls[ids[k]].folio == folio
  }

  function Found(ls: seq<Line>, folio: nat, ids: seq<nat>): set<nat> {
    set i | i in ids && i < |ls| && ls[i].folio == folio
  }

  /** As many lines are found as were named exactly when each name is a line of the bill and comes once. */
  lemma {:induction false} AllFoundIff(ls: seq<Line>, folio: nat, ids: seq<nat>)
    ensures |Found(ls, folio, ids)| <= |ids|
    ensures |Found(ls, folio, ids)| == |ids| <==> EachOnce(ids) && AllOn(ls, folio, ids)
    decreases |ids|
  {
    if ids != [] {
      var before, last := ids[..|ids| - 1], ids[|ids| - 1];
      AllFoundIff(ls, folio, before);
      assert ids == before + [last];
      if last < |ls| && ls[last].folio == folio {
        assert Found(ls, folio, ids) == Found(ls, folio, before) + {last};
      } else {
        assert Found(ls, folio, ids) == Found(ls, folio, before);
      }
      OneMore(ls, folio, before, last);
    } else {
      assert Found(ls, folio, ids) == {};
    }
  }

  lemma OneMore(ls: seq<Line>, folio: nat, before: seq<nat>, last: nat)
    ensures EachOnce(before + [last]) <==> EachOnce(before) && last !in before
    ensures AllOn(ls, folio, before + [last]) <==> AllOn(ls, folio, before) && last < |ls| && ls[last].folio == folio
  {
    var ids := before + [last];
    assert forall k :: 0 <= k < |before| ==> ids[k] == before[k];
    assert ids[|before|] == last;
  }

  function SetOf(ids: seq<nat>): set<nat> {
    set i | i in ids
  }

  ghost predicate LinksGoAlong(ls: seq<Line>, folio: nat, items: set<nat>, i: nat) {
    i < |ls| ==>
      && (ls[i].parent.Some? ==> GoesAlong(ls, folio, items, ls[i].parent.value))
      && (ls[i].corrects.Some? ==> GoesAlong(ls, folio, items, ls[i].corrects.value))
  }

  /** Two different open bills of one branch and, for a move within a stay, of one reservation. */
  ghost predicate BillsFit(b: Books, source: nat, target: nat, withinStay: bool) {
    && source != target && source in b.folios && target in b.folios
    && b.folios[source].status != Settled && b.folios[target].status != Settled
    && b.folios[source].branch == b.folios[target].branch
    && (withinStay ==> b.folios[source].reservation == b.folios[target].reservation)
  }

  /** The lines named are some lines of the bill, each named once, and what they hang off goes along. */
  ghost predicate PickFits(ls: seq<Line>, source: nat, ids: seq<nat>) {
    && ids != [] && EachOnce(ids) && AllOn(ls, source, ids)
    && forall i :: i in ids ==> LinksGoAlong(ls, source, SetOf(ids), i)
  }

  lemma StrandedIff(ls: seq<Line>, folio: nat, items: set<nat>)
    requires Sound(ls) && OnFolio(ls, folio, items)
    ensures NoneStranded(ls, folio, items) <==> forall i :: i in items ==> LinksGoAlong(ls, folio, items, i)
  {
    forall i { GoesAlongIff(ls, folio, items, i); }
    if NoneStranded(ls, folio, items) {
      FamilyUpClosed(ls, folio, items);
      FamilyIsLeastClosed(ls, folio, items, {});
    } else {
      var i :| i in items && AnchorOf(ls[i]).Some? && AnchorOf(ls[i]).value !in Family(ls, folio, items);
      assert !LinksGoAlong(ls, folio, items, i);
    }
  }

  lemma PickFitsIff(b: Books, source: nat, ids: seq<nat>)
    requires Inv(b)
    ensures var items := SelectedLines(b, source, Picked(ids));
      SelectionFits(b, source, Picked(ids)) && NoneStranded(b.lines, source, items) <==> PickFits(b.lines, source, ids)
    ensures PickFits(b.lines, source, ids) ==> SelectedLines(b, source, Picked(ids)) == SetOf(ids)
  {
    var items := SelectedLines(b, source, Picked(ids));
    AllFoundIff(b.lines, source, ids);
    assert items == Found(b.lines, source, ids);
    if ids != [] && EachOnce(ids) && AllOn(b.lines, source, ids) {
      assert items == SetOf(ids);
      StrandedIff(b.lines, source, items);
    }
  }

  /** Line `i` after the lines that go along with `items` went to `target`. */
  ghost predicate Went(ls: seq<Line>, after: seq<Line>, source: nat, items: set<nat>, target: nat, i: nat)
    requires i < |ls| && i < |after|
  {
    after[i] == if GoesAlong(ls, source, items, i) then ls[i].(folio := target) else ls[i]
  }

  ghost predicate OrderWent(b: Books, after: Books, source: nat, items: set<nat>, target: nat, k: nat)
    requires k < |b.orders| && k < |after.orders|
  {
    var order := b.orders[k];
    after.orders[k] ==
      if order.line.Some? && GoesAlong(b.lines, source, items, order.line.value)
      then PosOrder(Some(target), order.line, order.isVoid) else order
  }

  /**
   * What goes along with `items` is now on `target`, its outlet orders too; nothing else changed
   * about lines or orders.
   */
  ghost predicate OnlyThoseWent(b: Books, after: Books, source: nat, items: set<nat>, target: nat) {
    && |after.lines| == |b.lines| && |after.orders| == |b.orders|
    && (forall i: nat {:trigger Went(b.lines, after.lines, source, items, target, i)} ::
          i < |b.lines| ==> Went(b.lines, after.lines, source, items, target, i))
    && (forall k: nat {:trigger OrderWent(b, after, source, items, target, k)} ::
          k < |b.orders| ==> OrderWent(b, after, source, items, target, k))
    && after.folios == b.folios && after.payments == b.payments && after.refunds == b.refunds
  }

  lemma RelocateTakesThose(b: Books, source: nat, items: set<nat>, target: nat)
    requires OnFolio(b.lines, source, items)
    ensures OnlyThoseWent(b, Relocate(b, Family(b.lines, source, items), target), source, items, target)
  {
    forall i { GoesAlongIff(b.lines, source, items, i); }
  }

  /** The record of a move: where from and to, the lines that went, when. */
  ghost predicate Recorded(b: Books, after: Books, source: nat, items: set<nat>, target: nat, now: int) {
    && |after.transfers| == |b.transfers| + 1 && after.transfers[..|b.transfers|] == b.transfers
    && var tr := after.transfers[|b.transfers|];
       && tr.source == source && tr.target == target && tr.createdAt == now && !tr.reversed
       && forall i: nat :: i in tr.lines <==> GoesAlong(b.lines, source, items, i)
  }

  lemma CanMoveIff(b: Books, source: nat, target: nat, ids: seq<nat>, withinStay: bool)
    requires Inv(b)
    ensures CanMove(b, source, target, Picked(ids), withinStay) <==>
      BillsFit(b, source, target, withinStay) && PickFits(b.lines, source, ids)
  {
    PickFitsIff(b, source, ids);
  }

  /** The lines picked, and what goes along, went and were recorded. */
  ghost predicate PickWent(b: Books, after: Books, source: nat, target: nat, ids: seq<nat>, now: int) {
    && OnlyThoseWent(b, after, source, SetOf(ids), target) && Recorded(b, after, source, SetOf(ids), target, now)
    && forall i :: i in ids ==> i < |after.lines| && after.lines[i].folio == target
  }

  lemma PickMoves(b: Books, source: nat, target: nat, ids: seq<nat>, withinStay: bool, now: int)
    requires Inv(b) && CanMove(b, source, target, Picked(ids), withinStay) && PickFits(b.lines, source, ids)
    ensures PickWent(b, MoveCharges(b, source, target, Picked(ids), withinStay, now), source, target, ids, now)
  {
    PickFitsIff(b, source, ids);
    MovedTo(b, source, target, Picked(ids), withinStay, now, SetOf(ids));
    forall i | i in ids ensures i in SetOf(ids) {}
  }

  /** Lines picked to move go exactly when the bills and the pick fit, with what hangs off them and nothing else. */
  lemma PickedMove(b: Books, source: nat, target: nat, ids: seq<nat>, withinStay: bool, now: int)
    requires Inv(b)
    ensures var after := Apply(b, Move(source, target, Picked(ids), withinStay, now));
      if BillsFit(b, source, target, withinStay) && PickFits(b.lines, source, ids)
      then PickWent(b, after, source, target, ids, now) else after == b
  {
    CanMoveIff(b, source, target, ids, withinStay);
    if CanMove(b, source, target, Picked(ids), withinStay) {
      PickMoves(b, source, target, ids, withinStay, now);
    }
  }

  lemma MovedTo(b: Books, source: nat, target: nat, sel: Selection, withinStay: bool, now: int, items: set<nat>)
    requires CanMove(b, source, target, sel, withinStay) && SelectedLines(b, source, sel) == items
    ensures var after := MoveCharges(b, source, target, sel, withinStay, now);
      && OnlyThoseWent(b, after, source, items, target) && Recorded(b, after, source, items, target, now)
      && forall i :: i in items ==> i < |after.lines| && after.lines[i].folio == target
  {
    SelectedOnSource(b, source, sel);
    RelocateTakesThose(b, source, items, target);
    var after, moved := MoveCharges(b, source, target, sel, withinStay, now),
      Relocate(b, Family(b.lines, source, items), target);
    assert after.lines == moved.lines && after.orders == moved.orders;
    forall k: nat | k < |b.orders| ensures OrderWent(b, after, source, items, target, k) {
      assert OrderWent(b, moved, source, items, target, k);
    }
    forall i { GoesAlongIff(b.lines, source, items, i); }
    FamilyIsLeastClosed(b.lines, source, items, {});
  }

  /** A bill moved whole leaves no line behind and disturbs no other bill; an empty one is refused. */
  lemma WholeMove(b: Books, source: nat, target: nat, withinStay: bool, now: int)
    requires Inv(b)
    ensures var after := Apply(b, Move(source, target, All, withinStay, now));
      if BillsFit(b, source, target, withinStay) && (exists i :: 0 <= i < |b.lines| && b.lines[i].folio == source) then
        && |after.lines| == |b.lines| && |after.transfers| == |b.transfers| + 1
        && forall i :: 0 <= i < |b.lines| ==>
             after.lines[i] == if b.lines[i].folio == source then b.lines[i].(folio := target) else b.lines[i]
      else after == b
  {
    if BillsFit(b, source, target, withinStay) {
      MovingAllIsNotStranded(b, source, target, withinStay);
      SelectedOnSource(b, source, All);
      if CanMove(b, source, target, All, withinStay) {
        FamilyUpClosed(b.lines, source, SelectedLines(b, source, All));
        FamilyIsLeastClosed(b.lines, source, SelectedLines(b, source, All), {});
      }
    }
  }

  /** Up to a day later and between open bills, while all its lines are still where they went. */
  ghost predicate MayPutBack(b: Books, t: nat, now: int) {
    && t < |b.transfers| && !b.transfers[t].reversed && now - b.transfers[t].createdAt <= 86_400_000
    && b.transfers[t].source in b.folios && b.folios[b.transfers[t].source].status != Settled
    && b.transfers[t].target in b.folios && b.folios[b.transfers[t].target].status != Settled
    && forall i :: i in b.transfers[t].lines ==> i < |b.lines| && b.lines[i].folio == b.transfers[t].target
  }

  /** Putting a transfer back takes its lines, with what has come to hang off them and nothing else, and only once. */
  lemma PuttingBack(b: Books, t: nat, now: int)
    requires Inv(b)
    ensures var after := Apply(b, UndoMove(t, now));
      if MayPutBack(b, t, now) then
        var tr := b.transfers[t];
        && OnlyThoseWent(b, after, tr.target, tr.lines, tr.source)
        && (forall i :: i in tr.lines ==> i < |after.lines| && after.lines[i].folio == tr.source)
        && after.transfers == b.transfers[t := Transfer(tr.source, tr.target, tr.lines, tr.amount, tr.createdAt, true)]
        && Apply(after, UndoMove(t, now)) == after
      else after == b
  {
    if t < |b.transfers| {
      assert TransferSound(b, t);
      assert CanReverseTransfer(b, t, now) <==> MayPutBack(b, t, now);
    }
    if MayPutBack(b, t, now) {
      var tr := b.transfers[t];
      RelocateTakesThose(b, tr.target, tr.lines, tr.source);
      var after, moved := ReverseTransfer(b, t, now), Relocate(b, Family(b.lines, tr.target, tr.lines), tr.source);
      assert after.lines == moved.lines && after.orders == moved.orders;
      forall k: nat | k < |b.orders| ensures OrderWent(b, after, tr.target, tr.lines, tr.source, k) {
        assert OrderWent(b, moved, tr.target, tr.lines, tr.source, k);
      }
      FamilyIsLeastClosed(b.lines, tr.target, tr.lines, {});
    }
  }
}
