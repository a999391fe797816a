/** What a charge and its tax come to after any number of corrections. */
module Corrections {
  import opened Wrappers
  import opened Lines

  /** The line a chain of corrections started from. */
  ghost function Root(ls: seq<Line>, i: nat): (r: nat)
    requires i < |ls|
    ensures r <= i
  {
    if ls[i].corrects.Some? && ls[i].corrects.value < i then Root(ls, ls[i].corrects.value) else i
  }

  ghost function Depth(ls: seq<Line>, i: nat): nat
    requires i < |ls|
  {
    if ls[i].corrects.Some? && ls[i].corrects.value < i then 1 + Depth(ls, ls[i].corrects.value) else 0
  }

  /** How many of the first `n` lines go back to `r`: itself and the corrections on it. */
  ghost function Count(ls: seq<Line>, r: nat, n: nat): nat
    requires n <= |ls|
  {
    if n == 0 then 0 else Count(ls, r, n - 1) + (if Root(ls, n - 1) == r then 1 else 0)
  }

  /** How often `r` has been corrected, its corrections corrected, and so on. */
  ghost function Times(ls: seq<Line>, r: nat): int {
    Count(ls, r, |ls|) - 1
  }

  /** What the lines that go back to a member of `rs` come to. */
  ghost function Total(ls: seq<Line>, rs: set<nat>, n: nat): int
    requires n <= |ls|
  {
    if n == 0 then 0 else Total(ls, rs, n - 1) + (if Root(ls, n - 1) in rs then ls[n - 1].amount else 0)
  }

  ghost predicate IsMember(ls: seq<Line>, r: nat, d: nat, i: nat) {
    i < |ls| && Root(ls, i) == r && Depth(ls, i) == d
  }

  ghost predicate HasDepth(ls: seq<Line>, r: nat, d: nat, n: nat) {
    exists i: nat :: i < n && IsMember(ls, r, d, i)
  }

  lemma RootFacts(ls: seq<Line>, i: nat)
    requires Sound(ls) && i < |ls|
    ensures var r := Root(ls, i); r <= i && ls[r].corrects.None? && Root(ls, r) == r && Depth(ls, r) == 0
    ensures ls[i].amount == if Depth(ls, i) % 2 == 0 then ls[Root(ls, i)].amount else -ls[Root(ls, i)].amount
    ensures ls[i].kind == Tax <==> ls[Root(ls, i)].kind == Tax
    ensures Depth(ls, i) == 0 <==> ls[i].corrects.None?
  {
    assert SoundAt(ls, i);
    if ls[i].corrects.Some? {
      RootFacts(ls, ls[i].corrects.value);
    }
  }

  lemma SameDepthSameLine(ls: seq<Line>, i: nat, j: nat)
    requires Sound(ls) && i < |ls| && j < |ls| && Root(ls, i) == Root(ls, j) && Depth(ls, i) == Depth(ls, j)
    ensures i == j
    decreases i
  {
    assert SoundAt(ls, i) && SoundAt(ls, j);
    if Depth(ls, i) > 0 {
      SameDepthSameLine(ls, ls[i].corrects.value, ls[j].corrects.value);
      assert NotBoth(ls, i, j);
    }
  }

  /** The lines that go back to `r` have depths 0, 1, 2, ... up to their number. */
  lemma {:induction false} DepthsAreContiguous(ls: seq<Line>, r: nat, n: nat)
    requires Sound(ls) && n <= |ls|
    ensures forall i :: 0 <= i < n && Root(ls, i) == r ==> Depth(ls, i) < Count(ls, r, n)
    ensures forall d: nat :: d < Count(ls, r, n) ==> HasDepth(ls, r, d, n)
    decreases n
  {
    if n > 0 {
      DepthsAreContiguous(ls, r, n - 1);
      var last := n - 1;
      if Root(ls, last) == r {
        NextDepth(ls, r, last);
        assert IsMember(ls, r, Count(ls, r, last), last);
      }
      forall d: nat | d < Count(ls, r, n) ensures HasDepth(ls, r, d, n) {
        if d < Count(ls, r, last) {
          assert HasDepth(ls, r, d, last);
        }
      }
    }
  }

  lemma NextDepth(ls: seq<Line>, r: nat, last: nat)
    requires Sound(ls) && last < |ls| && Root(ls, last) == r
    requires forall i :: 0 <= i < last && Root(ls, i) == r ==> Depth(ls, i) < Count(ls, r, last)
    requires forall d: nat :: d < Count(ls, r, last) ==> HasDepth(ls, r, d, last)
    ensures Depth(ls, last) == Count(ls, r, last)
  {
    assert SoundAt(ls, last);
    if Depth(ls, last) < Count(ls, r, last) {
      assert HasDepth(ls, r, Depth(ls, last), last);
      var i: nat :| i < last && IsMember(ls, r, Depth(ls, last), i);
      SameDepthSameLine(ls, i, last);
    }
    if Depth(ls, last) > 0 {
      assert Depth(ls, ls[last].corrects.value) < Count(ls, r, last);
    }
  }

  lemma DepthOf(ls: seq<Line>, r: nat, d: nat)
    requires Sound(ls)
    ensures d < Count(ls, r, |ls|) <==> HasDepth(ls, r, d, |ls|)
  {
    DepthsAreContiguous(ls, r, |ls|);
  }

  /** A line and its corrections come to the line's amount or to nothing, by parity. */
  lemma {:induction false} ChainTotal(ls: seq<Line>, r: nat, n: nat)
    requires Sound(ls) && n <= |ls| && r < |ls|
    ensures Total(ls, {r}, n) == if Count(ls, r, n) % 2 == 1 then ls[r].amount else 0
    decreases n
  {
    if n > 0 {
      ChainTotal(ls, r, n - 1);
      if Root(ls, n - 1) == r {
        DepthsAreContiguous(ls, r, n - 1);
        NextDepth(ls, r, n - 1);
        RootFacts(ls, n - 1);
      }
    }
  }

  // ----- a charge with its taxes -----

  /** The charge or the stand-alone line that a line goes back to. */
  ghost function Origin(ls: seq<Line>, i: nat): nat
    requires i < |ls|
  {
    var r := Root(ls, i);
    if ls[r].parent.Some? then ls[r].parent.value else r
  }

  /** What a charge, its taxes and every correction of either come to. */
  ghost function Net(ls: seq<Line>, x: nat, n: nat): int
    requires n <= |ls|
  {
    if n == 0 then 0 else Net(ls, x, n - 1) + (if Origin(ls, n - 1) == x then ls[n - 1].amount else 0)
  }

  /** The first `n` lines that are taxes of `x`. */
  function TaxesOf(ls: seq<Line>, x: nat, n: nat): set<nat>
    requires n <= |ls|
  {
    set t | 0 <= t < n && ls[t].parent == Some(x)
  }

  function TaxTotal(ls: seq<Line>, x: nat, n: nat): int
    requires n <= |ls|
  {
    if n == 0 then 0 else TaxTotal(ls, x, n - 1) + (if ls[n - 1].parent == Some(x) then ls[n - 1].amount else 0)
  }

  /** What is left of the taxes of `x`, each by the parity of its own corrections. */
  ghost function TaxLeft(ls: seq<Line>, x: nat, n: nat): int
    requires n <= |ls|
  {
    if n == 0 then 0 else
      TaxLeft(ls, x, n - 1)
      + (if ls[n - 1].parent == Some(x) && Times(ls, n - 1) % 2 == 0 then ls[n - 1].amount else 0)
  }

  ghost predicate IsOriginal(ls: seq<Line>, x: nat) {
    x < |ls| && ls[x].kind != Tax && ls[x].corrects.None?
  }

  lemma TotalAdds(ls: seq<Line>, rs: set<nat>, t: nat, n: nat)
    requires n <= |ls| && t !in rs
    ensures Total(ls, rs + {t}, n) == Total(ls, rs, n) + Total(ls, {t}, n)
  {
  }

  lemma TaxIsRoot(ls: seq<Line>, x: nat, t: nat)
    requires Sound(ls) && IsOriginal(ls, x) && t < |ls| && ls[t].parent == Some(x)
    ensures ls[t].corrects.None? && ls[t].kind == Tax && t != x && Root(ls, t) == t &&
      (ls[t].amount > 0 <==> ls[x].amount > 0) && ls[t].amount != 0
  {
    assert SoundAt(ls, t) && SoundAt(ls, x);
  }

  lemma NetIsTotal(ls: seq<Line>, x: nat, n: nat)
    requires Sound(ls) && IsOriginal(ls, x) && n <= |ls|
    ensures Net(ls, x, n) == Total(ls, {x} + TaxesOf(ls, x, |ls|), n)
  {
    if n > 0 {
      NetIsTotal(ls, x, n - 1);
      RootFacts(ls, n - 1);
      var r := Root(ls, n - 1);
      assert SoundAt(ls, r) && SoundAt(ls, x);
      if ls[r].parent.Some? {
        assert r != x;
      }
    }
  }

  lemma TotalSplits(ls: seq<Line>, x: nat, n: nat)
    requires Sound(ls) && IsOriginal(ls, x) && n <= |ls|
    ensures Total(ls, {x} + TaxesOf(ls, x, n), |ls|) ==
      (if Times(ls, x) % 2 == 0 then ls[x].amount else 0) + TaxLeft(ls, x, n)
  {
    if n == 0 {
      assert {x} + TaxesOf(ls, x, 0) == {x};
      ChainTotal(ls, x, |ls|);
    } else {
      TotalSplits(ls, x, n - 1);
      var t := n - 1;
      if ls[t].parent == Some(x) {
        TaxIsRoot(ls, x, t);
        assert {x} + TaxesOf(ls, x, n) == ({x} + TaxesOf(ls, x, t)) + {t};
        TotalAdds(ls, {x} + TaxesOf(ls, x, t), t, |ls|);
        ChainTotal(ls, t, |ls|);
      } else {
        assert TaxesOf(ls, x, n) == TaxesOf(ls, x, t);
      }
    }
  }

  lemma NetFormula(ls: seq<Line>, x: nat)
    requires Sound(ls) && IsOriginal(ls, x)
    ensures Net(ls, x, |ls|) == (if Times(ls, x) % 2 == 0 then ls[x].amount else 0) + TaxLeft(ls, x, |ls|)
  {
    NetIsTotal(ls, x, |ls|);
    TotalSplits(ls, x, |ls|);
  }

  /** Whether each of the first `n` lines, if a tax of `x`, was corrected as often as `x`, up to parity. */
  ghost predicate InStep(ls: seq<Line>, x: nat, n: nat)
    requires n <= |ls|
  {
    forall t: nat :: t < n && ls[t].parent == Some(x) ==> Times(ls, t) % 2 == Times(ls, x) % 2
  }

  lemma TaxLeftBounds(ls: seq<Line>, x: nat, n: nat)
    requires Sound(ls) && IsOriginal(ls, x) && ls[x].amount > 0 && n <= |ls|
    ensures 0 <= TaxLeft(ls, x, n) <= TaxTotal(ls, x, n)
    ensures Times(ls, x) % 2 == 0 ==> (TaxLeft(ls, x, n) == TaxTotal(ls, x, n) <==> InStep(ls, x, n))
    ensures Times(ls, x) % 2 == 1 ==> (TaxLeft(ls, x, n) == 0 <==> InStep(ls, x, n))
  {
    if n > 0 {
      TaxLeftBounds(ls, x, n - 1);
      if ls[n - 1].parent == Some(x) {
        TaxIsRoot(ls, x, n - 1);
      }
    }
  }

  /**
   * After an even number of corrections a charge stands with all its tax,
   * after an odd number nothing is left of either, exactly when each of its
   * taxes has been corrected as often as it has, up to parity.
   */
  lemma CorrectionsNetOut(ls: seq<Line>, x: nat)
    requires Sound(ls) && IsOriginal(ls, x) && ls[x].amount > 0
    ensures Net(ls, x, |ls|) == (if Times(ls, x) % 2 == 0 then ls[x].amount + TaxTotal(ls, x, |ls|) else 0) <==>
      InStep(ls, x, |ls|)
  {
    NetFormula(ls, x);
    TaxLeftBounds(ls, x, |ls|);
  }

  // ----- taxes nobody corrected on their own -----

  /** No tax of the charge, and no reversal of one, was corrected by itself. */
  ghost predicate NoneSeparately(ls: seq<Line>, x: nat) {
    forall i: nat :: i < |ls| && Origin(ls, i) == x && ls[i].kind == Tax ==> ls[i].parent.Some?
  }

  lemma CorrectorIsDeeper(ls: seq<Line>, i: nat, j: nat)
    requires Sound(ls) && i < |ls| && j < |ls| && ls[j].corrects == Some(i)
    ensures Root(ls, j) == Root(ls, i) && Depth(ls, j) == Depth(ls, i) + 1
  {
    assert SoundAt(ls, j);
  }

  /**
   * The charge's `d`-th correction and the tax's `d`-th reversal exist together, and the second
   * hangs off the first.
   */
  ghost predicate Pace(ls: seq<Line>, x: nat, t: nat, d: nat) {
    && (HasDepth(ls, x, d, |ls|) <==> HasDepth(ls, t, d, |ls|))
    && forall i: nat, c: nat :: IsMember(ls, t, d, i) && IsMember(ls, x, d, c) ==> ls[i].parent == Some(c)
  }

  lemma {:induction false} TaxKeepsPace(ls: seq<Line>, x: nat, t: nat, d: nat)
    requires Sound(ls) && IsOriginal(ls, x) && t < |ls| && ls[t].parent == Some(x) && NoneSeparately(ls, x)
    ensures Pace(ls, x, t, d)
    decreases d
  {
    TaxIsRoot(ls, x, t);
    if d == 0 {
      assert IsMember(ls, x, 0, x) && IsMember(ls, t, 0, t);
      forall i: nat, c: nat | IsMember(ls, t, 0, i) && IsMember(ls, x, 0, c) ensures ls[i].parent == Some(c) {
        SameDepthSameLine(ls, i, t);
        SameDepthSameLine(ls, c, x);
      }
    } else {
      TaxKeepsPace(ls, x, t, d - 1);
      PaceStep(ls, x, t, d);
    }
  }

  lemma PaceStep(ls: seq<Line>, x: nat, t: nat, d: nat)
    requires Sound(ls) && NoneSeparately(ls, x) && d > 0 && Pace(ls, x, t, d - 1)
    requires t < |ls| && ls[t].parent == Some(x) && ls[t].kind == Tax
    ensures Pace(ls, x, t, d)
  {
    if HasDepth(ls, x, d, |ls|) {
      var c: nat :| c < |ls| && IsMember(ls, x, d, c);
      var i := ReversedWithCharge(ls, x, t, d, c);
    }
    if HasDepth(ls, t, d, |ls|) {
      var i: nat :| i < |ls| && IsMember(ls, t, d, i);
      HangsOffCorrection(ls, x, t, d, i);
    }
    forall i: nat, c: nat | IsMember(ls, t, d, i) && IsMember(ls, x, d, c) ensures ls[i].parent == Some(c) {
      HangsOffCorrection(ls, x, t, d, i);
      SameDepthSameLine(ls, ls[i].parent.value, c);
    }
  }

  lemma ReversedWithCharge(ls: seq<Line>, x: nat, t: nat, d: nat, c: nat) returns (i: nat)
    requires Sound(ls) && d > 0 && Pace(ls, x, t, d - 1) && IsMember(ls, x, d, c)
    ensures IsMember(ls, t, d, i)
  {
    assert SoundAt(ls, c);
    var before := ls[c].corrects.value;
    assert IsMember(ls, x, d - 1, before);
    assert HasDepth(ls, t, d - 1, |ls|);
    var k: nat :| k < |ls| && IsMember(ls, t, d - 1, k);
    assert ls[k].parent == Some(before);
    assert Corrected(ls, before) && TaxFollows(ls, k);
    var j :| 0 <= j < |ls| && ls[j].corrects == Some(k);
    CorrectorIsDeeper(ls, k, j);
    i := j;
  }

  lemma HangsOffCorrection(ls: seq<Line>, x: nat, t: nat, d: nat, i: nat)
    requires Sound(ls) && NoneSeparately(ls, x) && d > 0 && Pace(ls, x, t, d - 1) && IsMember(ls, t, d, i)
    requires t < |ls| && ls[t].parent == Some(x) && ls[t].kind == Tax
    ensures ls[i].parent.Some? && IsMember(ls, x, d, ls[i].parent.value)
  {
    assert SoundAt(ls, i);
    RootFacts(ls, i);
    var k := ls[i].corrects.value;
    assert IsMember(ls, t, d - 1, k);
    assert HasDepth(ls, x, d - 1, |ls|);
    var c: nat :| c < |ls| && IsMember(ls, x, d - 1, c);
    assert ls[k].parent == Some(c);
    CorrectorIsDeeper(ls, c, ls[i].parent.value);
  }

  /** Taxes never corrected on their own stay in step with their charge. */
  lemma StaysInStep(ls: seq<Line>, x: nat)
    requires Sound(ls) && IsOriginal(ls, x) && NoneSeparately(ls, x)
    ensures InStep(ls, x, |ls|)
    ensures forall t: nat :: t < |ls| && ls[t].parent == Some(x) ==> Times(ls, t) == Times(ls, x)
  {
    forall t: nat | t < |ls| && ls[t].parent == Some(x) ensures Times(ls, t) == Times(ls, x) {
      var a, b := Count(ls, t, |ls|), Count(ls, x, |ls|);
      TaxKeepsPace(ls, x, t, a);
      DepthOf(ls, t, a);
      DepthOf(ls, x, a);
      TaxKeepsPace(ls, x, t, b);
      DepthOf(ls, t, b);
      DepthOf(ls, x, b);
    }
  }

  // ----- one more correction -----

  lemma RootExtends(ls: seq<Line>, more: seq<Line>, i: nat)
    requires i < |ls|
    ensures Root(ls + more, i) == Root(ls, i)
  {
  }

  lemma CountExtends(ls: seq<Line>, more: seq<Line>, r: nat, n: nat)
    requires n <= |ls|
    ensures Count(ls + more, r, n) == Count(ls, r, n)
  {
    if n > 0 {
      RootExtends(ls, more, n - 1);
    }
  }

  lemma RootAfterReversal(ls: seq<Line>, x: nat, k: nat)
    requires Sound(ls) && IsOriginal(ls, x) && k <= |TaxesToReverse(ls, x)|
    ensures Root(Reversed(ls, x), |ls| + k) == if k == 0 then x else TaxesToReverse(ls, x)[k - 1]
  {
    var ts, after := TaxesToReverse(ls, x), Reversed(ls, x);
    var more := [CorrectionOf(ls, x)] + TaxReversals(ls, ts);
    assert after == ls + more;
    if k == 0 {
      RootExtends(ls, more, x);
    } else {
      var t := ts[k - 1];
      assert t in ts;
      TaxIsRoot(ls, x, t);
      RootExtends(ls, more, t);
      assert after[|ls| + k].corrects == Some(t);
    }
  }

  /** The lines from `base` on go back to `x`, then to each of `ts` in turn. */
  ghost predicate GoesBack(after: seq<Line>, base: nat, x: nat, ts: seq<nat>, k: nat) {
    base + k < |after| && k <= |ts| && Root(after, base + k) == if k == 0 then x else ts[k - 1]
  }

  lemma {:induction false} CountOnward(after: seq<Line>, base: nat, x: nat, ts: seq<nat>, r: nat, k: nat)
    requires k <= |ts| && base + |ts| < |after| && forall a, b :: 0 <= a < b < |ts| ==> ts[a] != ts[b]
    requires forall j: nat {:trigger GoesBack(after, base, x, ts, j)} :: j <= k ==> GoesBack(after, base, x, ts, j)
    ensures Count(after, r, base + 1 + k) ==
      Count(after, r, base) + (if r == x then 1 else 0) + (if r in ts[..k] then 1 else 0)
    decreases k
  {
    assert GoesBack(after, base, x, ts, k);
    if k > 0 {
      CountOnward(after, base, x, ts, r, k - 1);
      TakeOneMore(ts, k, r);
    }
  }

  lemma {:induction false} ReversalGoesBack(ls: seq<Line>, x: nat)
    requires Sound(ls) && IsOriginal(ls, x)
    ensures forall k: nat {:trigger GoesBack(Reversed(ls, x), |ls|, x, TaxesToReverse(ls, x), k)} ::
      k <= |TaxesToReverse(ls, x)| ==>
      GoesBack(Reversed(ls, x), |ls|, x, TaxesToReverse(ls, x), k)
  {
    forall k: nat | k <= |TaxesToReverse(ls, x)| ensures GoesBack(Reversed(ls, x), |ls|, x, TaxesToReverse(ls, x), k) {
      RootAfterReversal(ls, x, k);
    }
  }

  lemma {:induction false} CountBeforeReversal(ls: seq<Line>, x: nat, r: nat)
    requires x < |ls|
    ensures |Reversed(ls, x)| == |ls| + 1 + |TaxesToReverse(ls, x)| &&
      Count(Reversed(ls, x), r, |ls|) == Count(ls, r, |ls|)
  {
    var more := [CorrectionOf(ls, x)] + TaxReversals(ls, TaxesToReverse(ls, x));
    assert Reversed(ls, x) == ls + more;
    CountExtends(ls, more, r, |ls|);
  }

  lemma {:induction false} CountAfterReversal(ls: seq<Line>, x: nat, r: nat)
    requires Sound(ls) && IsOriginal(ls, x)
    ensures var after := Reversed(ls, x);
      Count(after, r, |after|) ==
        Count(ls, r, |ls|) + (if r == x then 1 else 0) + (if r in TaxesToReverse(ls, x) then 1 else 0)
  {
    CountBeforeReversal(ls, x, r);
    ReversalGoesBack(ls, x);
    CountAll(Reversed(ls, x), |ls|, x, TaxesToReverse(ls, x), r);
  }

  lemma {:induction false} CountAll(after: seq<Line>, base: nat, x: nat, ts: seq<nat>, r: nat)
    requires base + 1 + |ts| == |after| && forall a, b :: 0 <= a < b < |ts| ==> ts[a] != ts[b]
    requires forall j: nat {:trigger GoesBack(after, base, x, ts, j)} :: j <= |ts| ==> GoesBack(after, base, x, ts, j)
    ensures Count(after, r, |after|) == Count(after, r, base) + (if r == x then 1 else 0) + (if r in ts then 1 else 0)
  {
    CountOnward(after, base, x, ts, r, |ts|);
    assert ts[..|ts|] == ts;
  }

  lemma TakeOneMore(ts: seq<nat>, k: nat, r: nat)
    requires 0 < k <= |ts| && forall a, b :: 0 <= a < b < |ts| ==> ts[a] != ts[b]
    ensures (if r in ts[..k] then 1 else 0) == (if r in ts[..k - 1] then 1 else 0) + (if ts[k - 1] == r then 1 else 0)
  {
    assert ts[..k] == ts[..k - 1] + [ts[k - 1]];
  }

  lemma TimesWhenUncorrected(ls: seq<Line>, r: nat)
    requires Sound(ls) && r < |ls| && ls[r].corrects.None? && !Corrected(ls, r)
    ensures Times(ls, r) == 0
  {
    assert IsMember(ls, r, 0, r);
    DepthOf(ls, r, 0);
    DepthOf(ls, r, 1);
    if HasDepth(ls, r, 1, |ls|) {
      var i: nat :| i < |ls| && IsMember(ls, r, 1, i);
      var k := ls[i].corrects.value;
      assert SoundAt(ls, i);
      RootFacts(ls, k);
      SameDepthSameLine(ls, k, r);
    }
  }

  /**
   * Taking a charge back leaves nothing of it and its tax exactly when no tax
   * of it that was already corrected has since been reinstated: such a tax is
   * passed over because it has a correction, though it stands.
   */
  lemma CorrectingClears(ls: seq<Line>, x: nat)
    requires Sound(ls) && IsOriginal(ls, x) && ls[x].amount > 0 && !Corrected(ls, x)
    ensures Net(Reversed(ls, x), x, |Reversed(ls, x)|) == 0 <==>
      forall t: nat :: t < |ls| && ls[t].parent == Some(x) && Corrected(ls, t) ==> Times(ls, t) % 2 == 1
  {
    OnceCorrected(ls, x);
    ClearedWhenInStep(Reversed(ls, x), x);
    InStepAfter(ls, x);
  }

  lemma OnceCorrected(ls: seq<Line>, x: nat)
    requires Sound(ls) && IsOriginal(ls, x) && !Corrected(ls, x)
    ensures Sound(Reversed(ls, x)) && IsOriginal(Reversed(ls, x), x) && Reversed(ls, x)[x] == ls[x]
    ensures Times(Reversed(ls, x), x) == 1
  {
    ReversalKeepsSound(ls, x);
    TimesAfter(ls, x, x);
    TimesWhenUncorrected(ls, x);
  }

  lemma ClearedWhenInStep(ls: seq<Line>, x: nat)
    requires Sound(ls) && IsOriginal(ls, x) && ls[x].amount > 0 && Times(ls, x) == 1
    ensures Net(ls, x, |ls|) == 0 <==> InStep(ls, x, |ls|)
  {
    CorrectionsNetOut(ls, x);
  }

  lemma InStepAfter(ls: seq<Line>, x: nat)
    requires Sound(ls) && IsOriginal(ls, x) && !Corrected(ls, x) && Times(Reversed(ls, x), x) == 1
    ensures InStep(Reversed(ls, x), x, |Reversed(ls, x)|) <==>
      forall t: nat :: t < |ls| && ls[t].parent == Some(x) && Corrected(ls, t) ==> Times(ls, t) % 2 == 1
  {
    forall t: nat | t < |ls| && ls[t].parent == Some(x)
      ensures Times(Reversed(ls, x), t) % 2 == 1 <==> (Corrected(ls, t) ==> Times(ls, t) % 2 == 1) {
      TaxIsRoot(ls, x, t);
      TimesAfter(ls, x, t);
      if !Corrected(ls, t) {
        TimesWhenUncorrected(ls, t);
      }
    }
    SameTaxesAfter(ls, x);
  }

  lemma TimesAfter(ls: seq<Line>, x: nat, r: nat)
    requires Sound(ls) && IsOriginal(ls, x) && !Corrected(ls, x) && r < |ls| && (r == x || ls[r].parent == Some(x))
    ensures Times(Reversed(ls, x), r) == Times(ls, r) + (if r == x || !Corrected(ls, r) then 1 else 0)
  {
    assert SoundAt(ls, x) && SoundAt(ls, r);
    CountAfterReversal(ls, x, r);
  }

  lemma SameTaxesAfter(ls: seq<Line>, x: nat)
    requires x < |ls|
    ensures forall t: nat ::
      (t < |Reversed(ls, x)| && Reversed(ls, x)[t].parent == Some(x)) <==> (t < |ls| && ls[t].parent == Some(x))
  {
  }

  // ----- a tax taken off, put back, and then forgotten -----

  const MINIBAR := Line(7, 5000, Sale, None, None, None, 0, None, false)

  /** The charge with its tax; the tax corrected; that correction corrected. */
  const REINSTATED := Reversed(Reversed(Charged([], MINIBAR, [TaxPart(1, 375)]), 1), 2)

  lemma TaxIsReinstated()
    ensures Sound(REINSTATED) && |REINSTATED| == 4
    ensures REINSTATED[0] == MINIBAR && REINSTATED[1].corrects == None && REINSTATED[1].parent == Some(0)
    ensures REINSTATED[2].corrects == Some(1) && REINSTATED[3].corrects == Some(2)
  {
    var a := Charged([], MINIBAR, [TaxPart(1, 375)]);
    ChargeKeepsSound([], MINIBAR, [TaxPart(1, 375)]);
    assert |a| == 2 && a[0] == MINIBAR && a[1] == TaxLine(MINIBAR, 0, TaxPart(1, 375));
    ReversalKeepsSound(a, 1);
    var b := Reversed(a, 1);
    assert |b| == 3 && b[..2] == a && b[2] == CorrectionOf(a, 1);
    ReversalKeepsSound(b, 2);
    assert REINSTATED[..3] == b && REINSTATED[3] == CorrectionOf(b, 2);
  }

  lemma OneMore(ls: seq<Line>, r: nat, n: nat)
    requires n < |ls|
    ensures Count(ls, r, n + 1) == Count(ls, r, n) + (if Root(ls, n) == r then 1 else 0)
  {
  }

  lemma CorrectedTwice(c: seq<Line>)
    requires |c| == 4 && c[0].corrects == None && c[1].corrects == None && c[2].corrects == Some(1) &&
      c[3].corrects == Some(2)
    ensures Times(c, 1) == 2
  {
    assert Root(c, 0) == 0 && Root(c, 1) == 1;
    assert Root(c, 2) == 1;
    assert Root(c, 3) == 1;
    OneMore(c, 1, 0);
    OneMore(c, 1, 1);
    OneMore(c, 1, 2);
    OneMore(c, 1, 3);
  }

  lemma ReinstatedTaxIsMissed()
    ensures Sound(REINSTATED) && IsOriginal(REINSTATED, 0) && !Corrected(REINSTATED, 0)
    ensures Net(Reversed(REINSTATED, 0), 0, |Reversed(REINSTATED, 0)|) != 0
  {
    TaxIsReinstated();
    NotClearedBy(REINSTATED);
  }

  lemma NotClearedBy(c: seq<Line>)
    requires Sound(c) && |c| == 4 && c[0] == MINIBAR && c[1].corrects == None && c[1].parent == Some(0) &&
      c[2].corrects == Some(1) && c[3].corrects == Some(2)
    ensures IsOriginal(c, 0) && !Corrected(c, 0) && Net(Reversed(c, 0), 0, |Reversed(c, 0)|) != 0
  {
    CorrectedTwice(c);
    assert Corrected(c, 1);
    CorrectingClears(c, 0);
  }
}
