/**
 * The lines of guest bills. The ledger is append-only: a line is named by its
 * position, a tax line's `parent` is its charge, a correction's `corrects` is
 * the line it takes back, and nothing but a line's `folio` ever changes.
 */
module Lines {

  import opened Wrappers

  datatype Kind = Room | Sale | Tax | Correction

  datatype Line = Line(
    folio: nat, amount: int, kind: Kind, parent: Option<nat>, corrects: Option<nat>,
    rule: Option<nat>, date: int, stay: Option<nat>, dayUse: bool)

  datatype TaxPart = TaxPart(rule: nat, amount: int)

  // ----- the shape every reachable ledger has -----

  /** A tax line hangs off an earlier line that is no tax line and has the same sign. */
  ghost predicate ParentSound(ls: seq<Line>, i: nat)
    requires i < |ls|
  {
    ls[i].parent.Some? ==>
      var p := ls[i].parent.value;
      && p < i && ls[i].kind == Tax && ls[p].kind != Tax && ls[p].folio == ls[i].folio
      && (ls[p].amount > 0 <==> ls[i].amount > 0)
      && (ls[p].corrects.Some? ==> ls[i].corrects.Some?)
  }

  /**
   * A correction negates an earlier line on the same bill; taken back with its charge, a tax hangs
   * off the charge's correction.
   */
  ghost predicate CorrectsSound(ls: seq<Line>, i: nat)
    requires i < |ls|
  {
    ls[i].corrects.Some? ==>
      var k := ls[i].corrects.value;
      && k < i && ls[k].folio == ls[i].folio && ls[i].amount == -ls[k].amount &&
        (ls[i].kind == Tax <==> ls[k].kind == Tax)
      && (ls[i].parent.Some? && ls[i].parent.value < i ==>
        ls[k].parent.Some? && ls[ls[i].parent.value].corrects == ls[k].parent)
  }

  ghost predicate SoundAt(ls: seq<Line>, i: nat)
    requires i < |ls|
  {
    && ls[i].amount != 0
    && ParentSound(ls, i) && CorrectsSound(ls, i)
    && (ls[i].kind == Correction <==> ls[i].corrects.Some? && ls[i].kind != Tax)
  }

  ghost predicate NotBoth(ls: seq<Line>, i: nat, j: nat)
    requires i < |ls| && j < |ls|
  {
    ls[i].corrects.Some? && ls[i].corrects == ls[j].corrects ==> i == j
  }

  /** A line is corrected at most once. */
  ghost predicate CorrectedOnce(ls: seq<Line>) {
    forall i: nat, j: nat {:trigger NotBoth(ls, i, j)} :: i < |ls| && j < |ls| ==> NotBoth(ls, i, j)
  }

  predicate Corrected(ls: seq<Line>, i: nat) {
    exists j :: 0 <= j < |ls| && ls[j].corrects == Some(i)
  }

  ghost predicate TaxFollows(ls: seq<Line>, i: nat)
    requires i < |ls|
  {
    ls[i].parent.Some? && Corrected(ls, ls[i].parent.value) ==> Corrected(ls, i)
  }

  /** No tax is left uncorrected on a charge that was taken back. */
  ghost predicate TaxesFollow(ls: seq<Line>) {
    forall i: nat {:trigger TaxFollows(ls, i)} :: i < |ls| ==> TaxFollows(ls, i)
  }

  ghost predicate Sound(ls: seq<Line>) {
    (forall i {:trigger SoundAt(ls, i)} :: 0 <= i < |ls| ==> SoundAt(ls, i)) && CorrectedOnce(ls) && TaxesFollow(ls)
  }

  // ----- posting a charge -----

  function TaxLine(base: Line, parent: nat, tax: TaxPart): Line {
    Line(base.folio, tax.amount, Tax, Some(parent), None, Some(tax.rule), base.date, None, false)
  }

  function TaxLines(base: Line, parent: nat, taxes: seq<TaxPart>): seq<Line> {
    seq(|taxes|, k requires 0 <= k < |taxes| => TaxLine(base, parent, taxes[k]))
  }

  /** A charge and its tax lines at the end of the ledger. */
  function Charged(ls: seq<Line>, charge: Line, taxes: seq<TaxPart>): seq<Line> {
    ls + [charge] + TaxLines(charge, |ls|, taxes)
  }

  /** What a charge must look like: a positive net amount, positive taxes, no links. */
  ghost predicate IsCharge(charge: Line, taxes: seq<TaxPart>) {
    && charge.amount > 0 && (charge.kind == Room || charge.kind == Sale) && charge.parent.None? && charge.corrects.None?
    && forall k :: 0 <= k < |taxes| ==> taxes[k].amount > 0
  }

  lemma ChargeKeepsSound(ls: seq<Line>, charge: Line, taxes: seq<TaxPart>)
    requires Sound(ls) && IsCharge(charge, taxes)
    ensures Sound(Charged(ls, charge, taxes))
  {
    var after := Charged(ls, charge, taxes);
    forall i | 0 <= i < |after| ensures SoundAt(after, i) {
      if i < |ls| {
        assert SoundAt(ls, i);
      } else if i > |ls| {
        assert after[i] == TaxLine(charge, |ls|, taxes[i - |ls| - 1]);
      }
    }
    forall i: nat, j: nat | i < |after| && j < |after| ensures NotBoth(after, i, j) {
      if i < |ls| && j < |ls| {
        assert NotBoth(ls, i, j);
      }
    }
    forall i: nat | i < |after| ensures TaxFollows(after, i) {
      if after[i].parent.Some? && Corrected(after, after[i].parent.value) {
        var j :| 0 <= j < |after| && after[j].corrects == Some(after[i].parent.value);
        assert j < |ls| && SoundAt(ls, j);
        assert i < |ls| && TaxFollows(ls, i);
        assert Corrected(ls, ls[i].parent.value);
        var k :| 0 <= k < |ls| && ls[k].corrects == Some(i);
        assert after[k].corrects == Some(i);
      }
    }
  }

  // ----- taking a line back -----

  /** The tax lines of `x` not yet taken back, on its own bill, among the first `n` lines. */
  function StandingTaxes(ls: seq<Line>, x: nat, n: nat): (ids: seq<nat>)
    requires x < |ls| && n <= |ls|
    ensures forall i ::
      i in ids <==>
        0 <= i < n && ls[i].parent == Some(x) && ls[i].folio == ls[x].folio && ls[i].kind == Tax && !Corrected(ls, i)
    ensures forall a, b :: 0 <= a < b < |ids| ==> ids[a] != ids[b]
  {
    if n == 0 then [] else
      var earlier := StandingTaxes(ls, x, n - 1);
      if ls[n - 1].parent == Some(x) && ls[n - 1].folio == ls[x].folio && ls[n - 1].kind == Tax && !Corrected(ls, n - 1)
      then earlier + [n - 1] else earlier
  }

  function TaxesToReverse(ls: seq<Line>, x: nat): (ids: seq<nat>)
    requires x < |ls|
    ensures forall k :: 0 <= k < |ids| ==> ids[k] in ids && ids[k] < |ls|
  {
    if ls[x].kind == Tax then [] else StandingTaxes(ls, x, |ls|)
  }

  function CorrectionOf(ls: seq<Line>, x: nat): Line
    requires x < |ls|
  {
    Line(ls[x].folio, -ls[x].amount, if ls[x].kind == Tax then Tax else Correction, None, Some(x),
         if ls[x].kind == Tax then ls[x].rule else None, ls[x].date, None, false)
  }

  function TaxReversal(ls: seq<Line>, correction: nat, t: nat): Line
    requires t < |ls|
  {
    Line(ls[t].folio, -ls[t].amount, Tax, Some(correction), Some(t), ls[t].rule, ls[t].date, None, false)
  }

  function TaxReversals(ls: seq<Line>, ts: seq<nat>): seq<Line>
    requires forall k :: 0 <= k < |ts| ==> ts[k] < |ls|
  {
    seq(|ts|, k requires 0 <= k < |ts| => TaxReversal(ls, |ls|, ts[k]))
  }

  /** Taking back `x`: its negation, and for a charge the negation of every tax still standing on it. */
  function Reversed(ls: seq<Line>, x: nat): seq<Line>
    requires x < |ls|
  {
    ls + [CorrectionOf(ls, x)] + TaxReversals(ls, TaxesToReverse(ls, x))
  }

  lemma ReversalKeepsSound(ls: seq<Line>, x: nat)
    requires Sound(ls) && x < |ls| && !Corrected(ls, x)
    ensures Sound(Reversed(ls, x))
  {
    var after, ts := Reversed(ls, x), TaxesToReverse(ls, x);
    assert SoundAt(ls, x);
    forall i | 0 <= i < |after| ensures SoundAt(after, i) {
      if i < |ls| {
        assert SoundAt(ls, i);
      } else if i > |ls| {
        var t := ts[i - |ls| - 1];
        assert t in ts && SoundAt(ls, t);
        assert after[i] == TaxReversal(ls, |ls|, t);
      }
    }
    ReversalCorrectsOnce(ls, x);
    ReversalTaxesFollow(ls, x);
  }

  lemma ReversalCorrectsOnce(ls: seq<Line>, x: nat)
    requires Sound(ls) && x < |ls| && !Corrected(ls, x)
    ensures CorrectedOnce(Reversed(ls, x))
  {
    var after, ts := Reversed(ls, x), TaxesToReverse(ls, x);
    forall i, j | 0 <= i < j < |after| && after[i].corrects.Some? ensures after[i].corrects != after[j].corrects {
      if j < |ls| {
        assert NotBoth(ls, i, j);
      } else {
        NewCorrection(ls, x, j);
        if i > |ls| {
          assert ts[i - |ls| - 1] != ts[j - |ls| - 1];
        } else if i == |ls| {
          assert ts[j - |ls| - 1] in ts;
          assert SoundAt(ls, x);
        }
      }
    }
  }

  /** A line appended by a reversal takes back a line nobody had taken back. */
  lemma NewCorrection(ls: seq<Line>, x: nat, j: nat)
    requires x < |ls| && !Corrected(ls, x) && |ls| <= j < |Reversed(ls, x)|
    ensures var k := Reversed(ls, x)[j].corrects; k.Some? && k.value < |ls| && !Corrected(ls, k.value)
    ensures j > |ls| ==> ls[Reversed(ls, x)[j].corrects.value].kind == Tax
  {
    if j > |ls| {
      assert TaxesToReverse(ls, x)[j - |ls| - 1] in TaxesToReverse(ls, x);
    }
  }

  lemma ReversalTaxesFollow(ls: seq<Line>, x: nat)
    requires Sound(ls) && x < |ls| && !Corrected(ls, x)
    ensures TaxesFollow(Reversed(ls, x))
  {
    var after, ts := Reversed(ls, x), TaxesToReverse(ls, x);
    forall i: nat | i < |after| ensures TaxFollows(after, i) {
      if after[i].parent.Some? && Corrected(after, after[i].parent.value) {
        var j :| 0 <= j < |after| && after[j].corrects == Some(after[i].parent.value);
        ReversalCorrector(ls, x, j);
        assert i < |ls| && SoundAt(ls, i) && TaxFollows(ls, i);
        if Corrected(ls, i) {
          var k :| 0 <= k < |ls| && ls[k].corrects == Some(i);
          assert after[k].corrects == Some(i);
        } else {
          assert j >= |ls| by {
            assert j < |ls| ==> Corrected(ls, ls[i].parent.value);
          }
          NewCorrection(ls, x, j);
          assert j == |ls|;
          assert i in ts;
          var k :| 0 <= k < |ts| && ts[k] == i;
          assert after[|ls| + 1 + k].corrects == Some(i);
        }
      }
    }
  }

  lemma ReversalCorrector(ls: seq<Line>, x: nat, j: nat)
    requires Sound(ls) && x < |ls| && j < |Reversed(ls, x)|
    ensures Reversed(ls, x)[j].corrects.Some? ==> Reversed(ls, x)[j].corrects.value < |ls|
  {
    if j < |ls| {
      assert SoundAt(ls, j);
    }
  }

  // ----- what moves together -----

  /** `i` is one of `items`, or hangs off a line that moves with them, on bill `folio`. */
  predicate MovesWith(ls: seq<Line>, folio: nat, items: set<nat>, i: nat)
    requires i < |ls|
    decreases i
  {
    i in items || (ls[i].folio == folio &&
      (|| (ls[i].parent.Some? && ls[i].parent.value < i && MovesWith(ls, folio, items, ls[i].parent.value))
       || (ls[i].corrects.Some? && ls[i].corrects.value < i && MovesWith(ls, folio, items, ls[i].corrects.value))))
  }

  function Family(ls: seq<Line>, folio: nat, items: set<nat>): set<nat> {
    set i | 0 <= i < |ls| && MovesWith(ls, folio, items, i)
  }

  /** Everything on the bill that hangs off a member is a member. */
  ghost predicate DependencyClosed(ls: seq<Line>, folio: nat, s: set<nat>) {
    forall i, k ::
      (0 <= i < |ls| && k in s && k < i && ls[i].folio == folio
       && (ls[i].parent == Some(k) || ls[i].corrects == Some(k))) ==> i in s
  }

  lemma FamilyIsLeastClosed(ls: seq<Line>, folio: nat, items: set<nat>, s: set<nat>)
    requires forall i :: i in items ==> 0 <= i < |ls|
    ensures items <= Family(ls, folio, items) && DependencyClosed(ls, folio, Family(ls, folio, items))
    ensures items <= s && DependencyClosed(ls, folio, s) ==> Family(ls, folio, items) <= s
  {
    forall i, k | 0 <= i < |ls| && k in Family(ls, folio, items) && k < i && ls[i].folio == folio &&
      (ls[i].parent == Some(k) || ls[i].corrects == Some(k))
      ensures i in Family(ls, folio, items)
    {
      assert MovesWith(ls, folio, items, k);
    }
    if items <= s && DependencyClosed(ls, folio, s) {
      forall i | i in Family(ls, folio, items) ensures i in s {
        FamilyWithin(ls, folio, items, s, i);
      }
    }
  }

  lemma FamilyWithin(ls: seq<Line>, folio: nat, items: set<nat>, s: set<nat>, i: nat)
    requires i < |ls| && items <= s && DependencyClosed(ls, folio, s) && MovesWith(ls, folio, items, i)
    ensures i in s
  {
    if i !in items {
      if ls[i].parent.Some? && ls[i].parent.value < i && MovesWith(ls, folio, items, ls[i].parent.value) {
        FamilyWithin(ls, folio, items, s, ls[i].parent.value);
      } else {
        FamilyWithin(ls, folio, items, s, ls[i].corrects.value);
      }
    }
  }

  /** The line this one hangs off, if any: a move must not part the two. */
  function AnchorOf(line: Line): Option<nat> {
    if line.kind == Tax && line.parent.Some? then line.parent else line.corrects
  }

  ghost predicate UpClosed(ls: seq<Line>, s: set<nat>) {
    forall i :: i in s && 0 <= i < |ls| ==>
      (ls[i].parent.Some? ==> ls[i].parent.value in s) && (ls[i].corrects.Some? ==> ls[i].corrects.value in s)
  }

  ghost predicate OnFolio(ls: seq<Line>, folio: nat, s: set<nat>) {
    forall i :: i in s ==> 0 <= i < |ls| && ls[i].folio == folio
  }

  /** No item is picked without the line it belongs to. */
  predicate NoneStranded(ls: seq<Line>, folio: nat, items: set<nat>)
    requires forall i :: i in items ==> 0 <= i < |ls|
  {
    forall i :: i in items && AnchorOf(ls[i]).Some? ==> AnchorOf(ls[i]).value in Family(ls, folio, items)
  }

  /** What moves takes along every line it hangs off, though only one of its two links was looked at. */
  lemma FamilyUpClosed(ls: seq<Line>, folio: nat, items: set<nat>)
    requires Sound(ls) && OnFolio(ls, folio, items) && NoneStranded(ls, folio, items)
    ensures UpClosed(ls, Family(ls, folio, items)) && OnFolio(ls, folio, Family(ls, folio, items))
  {
    forall i | i in Family(ls, folio, items)
      ensures (ls[i].parent.Some? ==> ls[i].parent.value in Family(ls, folio, items)) &&
        (ls[i].corrects.Some? ==> ls[i].corrects.value in Family(ls, folio, items))
    {
      LinksMoveToo(ls, folio, items, i);
    }
  }

  lemma LinksMoveToo(ls: seq<Line>, folio: nat, items: set<nat>, i: nat)
    requires Sound(ls) && OnFolio(ls, folio, items) && NoneStranded(ls, folio, items)
    requires i in Family(ls, folio, items)
    ensures ls[i].parent.Some? ==> ls[i].parent.value in Family(ls, folio, items)
    ensures ls[i].corrects.Some? ==> ls[i].corrects.value in Family(ls, folio, items)
  {
    assert SoundAt(ls, i);
    FamilyIsLeastClosed(ls, folio, items, {});
    var family := Family(ls, folio, items);
    assert MovesWith(ls, folio, items, i);
    if i in items {
      assert AnchorOf(ls[i]).Some? ==> AnchorOf(ls[i]).value in family;
    }
    if ls[i].parent.Some? && ls[i].corrects.Some? {
      var p, k := ls[i].parent.value, ls[i].corrects.value;
      assert SoundAt(ls, p) && SoundAt(ls, k);
      assert p in family || k in family;
      if k in family {
        LinksMoveToo(ls, folio, items, k);
      }
      LinksMoveToo(ls, folio, items, p);
    }
  }

  /** Moving the whole bill strands nothing. */
  lemma WholeBillIsNotStranded(ls: seq<Line>, folio: nat)
    requires Sound(ls)
    ensures NoneStranded(ls, folio, set i | 0 <= i < |ls| && ls[i].folio == folio)
  {
    var items := set i | 0 <= i < |ls| && ls[i].folio == folio;
    forall i | i in items && AnchorOf(ls[i]).Some? ensures AnchorOf(ls[i]).value in Family(ls, folio, items) {
      assert SoundAt(ls, i);
      assert MovesWith(ls, folio, items, AnchorOf(ls[i]).value);
    }
  }

  function Moved(ls: seq<Line>, s: set<nat>, target: nat): seq<Line> {
    seq(|ls|, i requires 0 <= i < |ls| => if i in s then ls[i].(folio := target) else ls[i])
  }

  lemma MoveKeepsSound(ls: seq<Line>, source: nat, s: set<nat>, target: nat)
    requires Sound(ls) && OnFolio(ls, source, s) && UpClosed(ls, s) && DependencyClosed(ls, source, s)
    ensures Sound(Moved(ls, s, target))
  {
    var after := Moved(ls, s, target);
    forall i | 0 <= i < |after| ensures SoundAt(after, i) {
      assert SoundAt(ls, i);
      if ls[i].parent.Some? {
        assert i in s <==> ls[i].parent.value in s;
      }
      if ls[i].corrects.Some? {
        assert i in s <==> ls[i].corrects.value in s;
      }
    }
    CorrectedUnmoved(ls, s, target);
    forall i: nat | i < |after| ensures TaxFollows(after, i) {
      assert TaxFollows(ls, i);
    }
    forall i: nat, j: nat | i < |after| && j < |after| ensures NotBoth(after, i, j) {
      assert NotBoth(ls, i, j);
    }
  }

  lemma CorrectedUnmoved(ls: seq<Line>, s: set<nat>, target: nat)
    ensures forall i: nat :: Corrected(Moved(ls, s, target), i) <==> Corrected(ls, i)
  {
    var after := Moved(ls, s, target);
    forall i: nat ensures Corrected(after, i) <==> Corrected(ls, i) {
      if Corrected(ls, i) {
        var j :| 0 <= j < |ls| && ls[j].corrects == Some(i);
        assert after[j].corrects == Some(i);
      }
      if Corrected(after, i) {
        var j :| 0 <= j < |after| && after[j].corrects == Some(i);
        assert ls[j].corrects == Some(i);
      }
    }
  }

  // ----- amounts -----

  /** What the first `n` lines put on a bill. */
  function OnBill(ls: seq<Line>, folio: nat, n: nat): int
    requires n <= |ls|
  {
    if n == 0 then 0 else OnBill(ls, folio, n - 1) + (if ls[n - 1].folio == folio then ls[n - 1].amount else 0)
  }

  function SumOf(ls: seq<Line>, s: set<nat>, n: nat): int
    requires n <= |ls|
  {
    if n == 0 then 0 else SumOf(ls, s, n - 1) + (if n - 1 in s then ls[n - 1].amount else 0)
  }

  lemma MoveShiftsExactly(ls: seq<Line>, source: nat, s: set<nat>, target: nat, folio: nat, n: nat)
    requires OnFolio(ls, source, s) && source != target && n <= |ls|
    ensures OnBill(Moved(ls, s, target), folio, n) == OnBill(ls, folio, n)
      + (if folio == target then SumOf(ls, s, n) else 0) - (if folio == source then SumOf(ls, s, n) else 0)
  {
  }

  lemma OnBillExtends(ls: seq<Line>, more: seq<Line>, folio: nat, n: nat)
    requires n <= |ls|
    ensures OnBill(ls + more, folio, n) == OnBill(ls, folio, n)
  {
  }

  /** Moving back exactly what was moved puts every line where it was. */
  lemma MovedBack(ls: seq<Line>, source: nat, s: set<nat>, target: nat)
    requires OnFolio(ls, source, s)
    ensures Moved(Moved(ls, s, target), s, source) == ls
  {
  }

  /** With nothing posted since, what hangs off the lines moved is what was moved. */
  lemma FamilyAfterMove(ls: seq<Line>, source: nat, items: set<nat>, target: nat)
    requires Sound(ls) && OnFolio(ls, source, items) && NoneStranded(ls, source, items)
    ensures var s := Family(ls, source, items); Family(Moved(ls, s, target), target, s) == s
  {
    var s := Family(ls, source, items);
    var after := Moved(ls, s, target);
    FamilyUpClosed(ls, source, items);
    FamilyIsLeastClosed(ls, source, items, {});
    FamilyIsLeastClosed(after, target, s, s);
    forall i, k | 0 <= i < |after| && k in s && k < i && after[i].folio == target &&
      (after[i].parent == Some(k) || after[i].corrects == Some(k)) ensures i in s {
      assert SoundAt(ls, i);
    }
  }
}
