/** The greedy allocation of spending to lots of points, sorted by expiry, and what it leaves to lapse. */
module LapsedPoints {

  import opened Wrappers

  datatype TxType = Earn | Redeem | Adjust | Expire | Reversal
  datatype Row = Row(kind: TxType, points: int, expiresAt: Option<int>)
  datatype Expiry = Expiry(points: int, on: int)

  function Max(a: int, b: int): int { if a > b then a else b }
  function Min(a: int, b: int): int { if a < b then a else b }

  // ----- sums over ledger rows -----

  function SumBy<T>(s: seq<T>, f: T -> int): int {
    if s == [] then 0 else SumBy(s[..|s| - 1], f) + f(s[|s| - 1])
  }

  lemma SumByConcat<T>(a: seq<T>, b: seq<T>, f: T -> int)
    ensures SumBy(a + b, f) == SumBy(a, f) + SumBy(b, f)
  {
    if b == [] {
      assert a + b == a;
    } else {
      SumByConcat(a, b[..|b| - 1], f);
      assert (a + b)[..|a + b| - 1] == a + b[..|b| - 1];
    }
  }

  lemma SumByAppend<T>(a: seq<T>, x: T, f: T -> int)
    ensures SumBy(a + [x], f) == SumBy(a, f) + f(x)
  {
    assert (a + [x])[..|a|] == a;
  }

  lemma {:induction false} SumByRemove<T>(b: seq<T>, k: nat, f: T -> int)
    requires k < |b|
    ensures SumBy(b, f) == SumBy(b[..k] + b[k + 1..], f) + f(b[k])
    ensures multiset(b) == multiset(b[..k] + b[k + 1..]) + multiset{b[k]}
  {
    var before, rest := b[..k], b[k + 1..];
    assert b == (before + [b[k]]) + rest;
    SumByConcat(before + [b[k]], rest, f);
    SumByAppend(before, b[k], f);
    SumByConcat(before, rest, f);
  }

  /** A sum does not depend on the order of what is summed. */
  lemma {:induction false} SumByPermuted<T>(a: seq<T>, b: seq<T>, f: T -> int)
    requires multiset(a) == multiset(b)
    ensures SumBy(a, f) == SumBy(b, f)
    decreases |a|
  {
    if a == [] {
      assert |multiset(b)| == 0;
    } else {
      var n := |a| - 1;
      assert a[n] in multiset(b);
      var k :| 0 <= k < |b| && b[k] == a[n];
      var rest := b[..k] + b[k + 1..];
      SumByRemove(b, k, f);
      SamePermutation(a[..n], a[n], rest, a, b);
      SumByPermuted(a[..n], rest, f);
    }
  }

  lemma SamePermutation<T>(front: seq<T>, x: T, rest: seq<T>, a: seq<T>, b: seq<T>)
    requires a == front + [x] && multiset(a) == multiset(b) == multiset(rest) + multiset{x}
    ensures multiset(front) == multiset(rest)
  {
    assert multiset(a) == multiset(front) + multiset{x};
    assert multiset(front) == multiset(a) - multiset{x};
    assert multiset(rest) == multiset(b) - multiset{x};
  }

  /** What a row counts as spent; a voided redemption's points come back. */
  function SpentPart(): Row -> int {
    (r: Row) => if r.kind == Redeem || r.kind == Expire || (r.kind == Adjust && r.points < 0) || r.kind == Reversal then
      -r.points else 0
  }

  function AllPart(): Row -> int {
    (r: Row) => r.points
  }

  predicate IsLot(r: Row) {
    r.kind == Earn && r.expiresAt.Some?
  }

  function UpToPart(d: int): Row -> int {
    (r: Row) => if IsLot(r) && r.expiresAt.value <= d then r.points else 0
  }

  function NetSpent(rows: seq<Row>): int { SumBy(rows, SpentPart()) }

  function Balance(rows: seq<Row>): int { SumBy(rows, AllPart()) }

  /** Points earned that lapse by `d`, spent or not. */
  function UpTo(rows: seq<Row>, d: int): int { SumBy(rows, UpToPart(d)) }

  // ----- the closed form -----

  /** Lapsed earnings beyond all net spending. */
  function Unspent(rows: seq<Row>, now: int): int {
    Max(0, UpTo(rows, now) - Max(0, NetSpent(rows)))
  }

  /** What lapses now: the unspent, and never more than the balance. */
  function Due(rows: seq<Row>, now: int): int {
    Max(0, Min(Unspent(rows, now), Balance(rows)))
  }

  predicate HasLotOn(rows: seq<Row>, d: int) {
    exists r :: r in rows && IsLot(r) && r.expiresAt.value == d
  }

  /**
   * `next` is the first date after `now` by which the lots add up to more than was spent, with the
   * excess that falls on it.
   */
  ghost predicate IsNext(rows: seq<Row>, now: int, next: Option<Expiry>) {
    var spent := Max(0, NetSpent(rows));
    match next
    case None => forall d :: d > now && HasLotOn(rows, d) ==> UpTo(rows, d) <= spent
    case Some(e) =>
      && e.on > now && HasLotOn(rows, e.on) && UpTo(rows, e.on) > spent
      && (forall d :: now < d < e.on && HasLotOn(rows, d) ==> UpTo(rows, d) <= spent)
      && e.points == UpTo(rows, e.on) - Max(spent, UpTo(rows, e.on - 1))
  }

  /** There is only one such answer. */
  lemma NextIsUnique(rows: seq<Row>, now: int, a: Option<Expiry>, b: Option<Expiry>)
    requires IsNext(rows, now, a) && IsNext(rows, now, b)
    ensures a == b
  {
  }

  ghost predicate PositiveLots(rows: seq<Row>) {
    forall r :: r in rows && r.kind == Earn ==> r.points > 0
  }

  // ----- the lots, soonest first -----

  datatype Lot = Lot(points: int, on: int)

  function LotPart(d: int): Lot -> int {
    (l: Lot) => if l.on <= d then l.points else 0
  }

  function Lots(rows: seq<Row>): (lots: seq<Lot>)
    ensures forall l :: l in lots <==> exists r :: r in rows && IsLot(r) && l == Lot(r.points, r.expiresAt.value)
  {
    if rows == [] then [] else
      var front, last := rows[..|rows| - 1], rows[|rows| - 1];
      assert rows == front + [last];
      if IsLot(last) then Lots(front) + [Lot(last.points, last.expiresAt.value)] else Lots(front)
  }

  ghost predicate Sorted(lots: seq<Lot>) {
    forall i, j :: 0 <= i < j < |lots| ==> lots[i].on <= lots[j].on
  }

  function Insert(lots: seq<Lot>, l: Lot): (out: seq<Lot>)
    requires Sorted(lots)
    ensures Sorted(out) && multiset(out) == multiset(lots) + multiset{l}
    ensures forall x :: x in out <==> x in lots || x == l
  {
    if lots == [] || lots[|lots| - 1].on <= l.on then lots + [l]
    else
      var front, last := lots[..|lots| - 1], lots[|lots| - 1];
      assert lots == front + [last];
      SortedBy(front, l, last, Insert(front, l));
      Insert(front, l) + [last]
  }

  lemma SortedBy(front: seq<Lot>, l: Lot, last: Lot, inner: seq<Lot>)
    requires Sorted(front + [last]) && l.on < last.on && Sorted(inner) && forall x ::
      x in inner <==> x in front || x == l
    ensures Sorted(inner + [last])
  {
    forall i | 0 <= i < |inner| ensures inner[i].on <= last.on {
      assert inner[i] in inner;
      if inner[i] in front {
        var k :| 0 <= k < |front| && front[k] == inner[i];
        assert (front + [last])[k] == front[k] && (front + [last])[|front|] == last;
      }
    }
  }

  /** A stable sort by expiry. */
  function SortByExpiry(lots: seq<Lot>): (out: seq<Lot>)
    ensures Sorted(out) && multiset(out) == multiset(lots) && forall x :: x in out <==> x in lots
  {
    if lots == [] then [] else
      var front, last := lots[..|lots| - 1], lots[|lots| - 1];
      assert lots == front + [last];
      Insert(SortByExpiry(front), last)
  }

  lemma LotsSum(rows: seq<Row>, d: int)
    ensures SumBy(Lots(rows), LotPart(d)) == UpTo(rows, d)
  {
    if rows != [] {
      var front, last := rows[..|rows| - 1], rows[|rows| - 1];
      LotsSum(front, d);
      if IsLot(last) {
        SumByAppend(Lots(front), Lot(last.points, last.expiresAt.value), LotPart(d));
      }
    }
  }

  lemma SortedSum(rows: seq<Row>, d: int)
    ensures SumBy(SortByExpiry(Lots(rows)), LotPart(d)) == UpTo(rows, d)
  {
    SumByPermuted(SortByExpiry(Lots(rows)), Lots(rows), LotPart(d));
    LotsSum(rows, d);
  }

  // ----- cutting the lots at a date -----

  function Prefix(lots: seq<Lot>, k: nat): int
    requires k <= |lots|
  {
    if k == 0 then 0 else Prefix(lots, k - 1) + lots[k - 1].points
  }

  ghost predicate Positive(lots: seq<Lot>) {
    forall i :: 0 <= i < |lots| ==> lots[i].points > 0
  }

  lemma PrefixGrows(lots: seq<Lot>, i: nat, k: nat)
    requires Positive(lots) && i <= k <= |lots|
    ensures Prefix(lots, i) <= Prefix(lots, k) && (i < k ==> Prefix(lots, i) < Prefix(lots, k))
  {
  }

  /** The lots before `c` lapse by `d`, those from `c` on later. */
  ghost predicate Cut(lots: seq<Lot>, d: int, c: nat) {
    c <= |lots| && (forall i :: 0 <= i < c ==> lots[i].on <= d) && (forall i :: c <= i < |lots| ==> lots[i].on > d)
  }

  lemma CutExists(lots: seq<Lot>, d: int, n: nat) returns (c: nat)
    requires Sorted(lots) && n <= |lots| && forall i :: n <= i < |lots| ==> lots[i].on > d
    ensures Cut(lots, d, c)
  {
    if n == 0 || lots[n - 1].on <= d {
      c := n;
    } else {
      c := CutExists(lots, d, n - 1);
    }
  }

  lemma CutSum(lots: seq<Lot>, d: int, c: nat, n: nat)
    requires Cut(lots, d, c) && n <= |lots|
    ensures SumBy(lots[..n], LotPart(d)) == Prefix(lots, if n < c then n else c)
  {
    if n > 0 {
      CutSum(lots, d, c, n - 1);
      assert lots[..n] == lots[..n - 1] + [lots[n - 1]];
      SumByAppend(lots[..n - 1], lots[n - 1], LotPart(d));
    }
  }

  /** `lots` are the lots of the ledger, soonest first. */
  ghost predicate Represents(lots: seq<Lot>, rows: seq<Row>) {
    Sorted(lots) && Positive(lots) && forall d: int {:trigger RepresentsAt(lots, rows, d)} ::
      RepresentsAt(lots, rows, d)
  }

  ghost predicate RepresentsAt(lots: seq<Lot>, rows: seq<Row>, d: int) {
    SumBy(lots, LotPart(d)) == UpTo(rows, d) && (HasLotOn(rows, d) <==> exists i :: 0 <= i < |lots| && lots[i].on == d)
  }

  lemma SortedLotsRepresent(rows: seq<Row>)
    requires PositiveLots(rows)
    ensures Represents(SortByExpiry(Lots(rows)), rows)
  {
    var lots := SortByExpiry(Lots(rows));
    forall i | 0 <= i < |lots| ensures lots[i].points > 0 {
      assert lots[i] in lots;
    }
    forall d: int ensures RepresentsAt(lots, rows, d) {
      SortedSum(rows, d);
      if HasLotOn(rows, d) {
        var r :| r in rows && IsLot(r) && r.expiresAt.value == d;
        assert Lot(r.points, d) in lots;
      }
      forall i | 0 <= i < |lots| && lots[i].on == d ensures HasLotOn(rows, d) {
        assert lots[i] in lots;
      }
    }
  }

  /** By date `d` the ledger lapses what the lots up to the cut hold. */
  lemma CutAt(lots: seq<Lot>, rows: seq<Row>, d: int, c: nat)
    requires Represents(lots, rows) && Cut(lots, d, c)
    ensures UpTo(rows, d) == Prefix(lots, c)
  {
    assert lots[..|lots|] == lots;
    CutSum(lots, d, c, |lots|);
    assert RepresentsAt(lots, rows, d);
  }

  // ----- the loop -----

  /** What is left to draw from, what has lapsed, and what lapses next. */
  datatype Draw = Draw(spent: int, due: int, next: Option<Expiry>)

  function DrawFrom(s: Draw, lot: Lot, now: int): Draw {
    var used := Min(lot.points, s.spent);
    var unspent := lot.points - used;
    var rest := s.(spent := s.spent - used);
    if unspent <= 0 then rest
    else if lot.on <= now then rest.(due := s.due + unspent)
    else match s.next
      case None => rest.(next := Some(Expiry(unspent, lot.on)))
      case Some(e) => if e.on == lot.on then rest.(next := Some(Expiry(e.points + unspent, e.on))) else rest
  }

  /** Where the loop stands after the first `k` lots. */
  function DrawnSoFar(lots: seq<Lot>, spent: int, now: int, k: nat): Draw
    requires k <= |lots|
  {
    if k == 0 then Draw(spent, 0, None) else DrawFrom(DrawnSoFar(lots, spent, now, k - 1), lots[k - 1], now)
  }

  /** `e` started at lot `j`, the first ahead with something unspent, and covers the lots of its date up to `stop`. */
  ghost predicate Found(lots: seq<Lot>, spent: int, m: nat, k: nat, e: Expiry, j: nat, stop: nat) {
    && m <= j < stop <= k <= |lots| && e.on == lots[j].on
    && Prefix(lots, j + 1) > spent && (j == m || Prefix(lots, j) <= spent)
    && (forall i :: j <= i < stop ==> lots[i].on == e.on) && (stop < k ==> lots[stop].on > e.on)
    && e.points == Prefix(lots, stop) - Max(spent, Prefix(lots, j))
  }

  ghost predicate Drawn(lots: seq<Lot>, spent: int, m: nat, k: nat, s: Draw, j: nat, stop: nat) {
    && k <= |lots| && m <= |lots|
    && s.spent == Max(0, spent - Prefix(lots, k))
    && s.due == Max(0, Prefix(lots, if k < m then k else m) - spent)
    && (s.next.None? ==> k <= m || Prefix(lots, k) <= spent)
    && (s.next.Some? ==> Found(lots, spent, m, k, s.next.value, j, stop))
  }

  lemma DrawOneLot(lots: seq<Lot>, spent: int, now: int, m: nat, k: nat, s: Draw, j: nat, stop: nat)
      returns (j': nat, stop': nat)
    requires Sorted(lots) && Positive(lots) && Cut(lots, now, m) && k < |lots| && spent >= 0 &&
      Drawn(lots, spent, m, k, s, j, stop)
    ensures Drawn(lots, spent, m, k + 1, DrawFrom(s, lots[k], now), j', stop')
  {
    DrawNumbers(lots, spent, now, m, k, s);
    if s.next.Some? {
      j', stop' := DrawAfterFound(lots, spent, now, m, k, s, j, stop);
    } else {
      j', stop' := k, k + 1;
    }
  }

  /** The spending left and the points lapsed, after one lot more. */
  lemma DrawNumbers(lots: seq<Lot>, spent: int, now: int, m: nat, k: nat, s: Draw)
    requires Positive(lots) && Cut(lots, now, m) && k < |lots| && spent >= 0
    requires s.spent == Max(0, spent - Prefix(lots, k)) && s.due == Max(0, Prefix(lots, if k < m then k else m) - spent)
    ensures var s' := DrawFrom(s, lots[k], now);
      s'.spent == Max(0, spent - Prefix(lots, k + 1)) &&
        s'.due == Max(0, Prefix(lots, if k + 1 < m then k + 1 else m) - spent)
  {
    PrefixGrows(lots, 0, k);
    assert lots[k].on <= now <==> k < m;
  }

  lemma DrawAfterFound(lots: seq<Lot>, spent: int, now: int, m: nat, k: nat, s: Draw, j: nat, stop: nat)
      returns (j': nat, stop': nat)
    requires Sorted(lots) && Positive(lots) && Cut(lots, now, m) && k < |lots| && spent >= 0
    requires s.spent == Max(0, spent - Prefix(lots, k)) && s.next.Some? &&
      Found(lots, spent, m, k, s.next.value, j, stop)
    ensures var n := DrawFrom(s, lots[k], now).next; n.Some? && Found(lots, spent, m, k + 1, n.value, j', stop')
  {
    var e := s.next.value;
    PrefixGrows(lots, j + 1, k);
    assert s.spent == 0 && lots[k].on > now;
    j', stop' := j, stop;
    if e.on == lots[k].on {
      RunGoesOn(lots, spent, m, k, e, j, stop);
      stop' := k + 1;
    } else {
      assert lots[j].on <= lots[k].on;
    }
  }

  /** Lots of the date of the next expiry follow it without a break. */
  lemma RunGoesOn(lots: seq<Lot>, spent: int, m: nat, k: nat, e: Expiry, j: nat, stop: nat)
    requires Sorted(lots) && Positive(lots) && Found(lots, spent, m, k, e, j, stop) && k < |lots| && lots[k].on == e.on
    ensures stop == k && Found(lots, spent, m, k + 1, Expiry(e.points + lots[k].points, e.on), j, k + 1)
  {
  }

  /**
   * Draws the spending from the lots soonest to lapse; adds up what is left of the lapsed ones,
   * and of those that lapse next.
   */
  method Lapsed(rows: seq<Row>, now: int) returns (due: int, next: Option<Expiry>)
    requires PositiveLots(rows)
    ensures due == Due(rows, now) && IsNext(rows, now, next)
    ensures var lots := SortByExpiry(Lots(rows)); var drawn := DrawnSoFar(lots, Max(0, NetSpent(rows)), now, |lots|);
      due == Max(0, Min(drawn.due, Balance(rows))) && next == drawn.next
  {
    var net := 0;
    for i := 0 to |rows|
      invariant net == NetSpent(rows[..i])
    {
      assert rows[..i + 1] == rows[..i] + [rows[i]];
      SumByAppend(rows[..i], rows[i], SpentPart());
      var row := rows[i];
      if row.kind == Redeem || row.kind == Expire || (row.kind == Adjust && row.points < 0) {
        net := net + -row.points;
      }
      if row.kind == Reversal {
        net := net - row.points;
      }
    }
    assert rows[..|rows|] == rows;
    var lots := SortByExpiry(Lots(rows));
    SortedLotsRepresent(rows);
    ghost var m := CutExists(lots, now, |lots|);
    ghost var j, stop := 0, 0;
    var s := Draw(Max(0, net), 0, None);
    for k := 0 to |lots|
      invariant Drawn(lots, Max(0, net), m, k, s, j, stop) && s == DrawnSoFar(lots, Max(0, net), now, k)
    {
      j, stop := DrawOneLot(lots, Max(0, net), now, m, k, s, j, stop);
      s := DrawFrom(s, lots[k], now);
    }
    CutAt(lots, rows, now, m);
    NextIsRight(lots, rows, now, m, s, j, stop);
    due, next := Max(0, Min(s.due, Balance(rows))), s.next;
  }

  lemma NextIsRight(lots: seq<Lot>, rows: seq<Row>, now: int, m: nat, s: Draw, j: nat, stop: nat)
    requires Represents(lots, rows) && Cut(lots, now, m) && Drawn(lots, Max(0, NetSpent(rows)), m, |lots|, s, j, stop)
    ensures IsNext(rows, now, s.next)
  {
    forall d | d > now && HasLotOn(rows, d) && (s.next.None? || d < s.next.value.on)
      ensures UpTo(rows, d) <= Max(0, NetSpent(rows)) {
      NotYet(lots, rows, now, m, s, j, stop, d);
    }
    if s.next.Some? {
      FoundIsRight(lots, rows, now, m, s.next.value, j, stop);
    }
  }

  lemma FoundIsRight(lots: seq<Lot>, rows: seq<Row>, now: int, m: nat, e: Expiry, j: nat, stop: nat)
    requires Represents(lots, rows) && Cut(lots, now, m) && Found(lots, Max(0, NetSpent(rows)), m, |lots|, e, j, stop)
    ensures var spent := Max(0, NetSpent(rows));
      e.on > now && HasLotOn(rows, e.on) && UpTo(rows, e.on) > spent &&
        e.points == UpTo(rows, e.on) - Max(spent, UpTo(rows, e.on - 1))
  {
    var spent := Max(0, NetSpent(rows));
    CutAfterRun(lots, spent, m, e, j, stop);
    CutAt(lots, rows, e.on, stop);
    PrefixGrows(lots, j + 1, stop);
    assert RepresentsAt(lots, rows, e.on);
    var c := CutExists(lots, e.on - 1, |lots|);
    CutAt(lots, rows, e.on - 1, c);
    StartOfRun(lots, spent, now, m, e, j, stop, c);
  }

  lemma CutAfterRun(lots: seq<Lot>, spent: int, m: nat, e: Expiry, j: nat, stop: nat)
    requires Sorted(lots) && Found(lots, spent, m, |lots|, e, j, stop)
    ensures Cut(lots, e.on, stop)
  {
  }

  lemma NotYet(lots: seq<Lot>, rows: seq<Row>, now: int, m: nat, s: Draw, j: nat, stop: nat, d: int)
    requires Represents(lots, rows) && Cut(lots, now, m) && Drawn(lots, Max(0, NetSpent(rows)), m, |lots|, s, j, stop)
    requires d > now && HasLotOn(rows, d) && (s.next.None? || d < s.next.value.on)
    ensures UpTo(rows, d) <= Max(0, NetSpent(rows))
  {
    var c := CutExists(lots, d, |lots|);
    CutAt(lots, rows, d, c);
    assert RepresentsAt(lots, rows, d);
    var i :| 0 <= i < |lots| && lots[i].on == d;
    assert m <= i < c;
    if s.next.None? {
      PrefixGrows(lots, c, |lots|);
    } else {
      assert c <= j;
      PrefixGrows(lots, c, j);
    }
  }

  lemma StartOfRun(lots: seq<Lot>, spent: int, now: int, m: nat, e: Expiry, j: nat, stop: nat, c: nat)
    requires Sorted(lots) && Positive(lots) && Cut(lots, now, m) && Found(lots, spent, m, |lots|, e, j, stop) &&
      Cut(lots, e.on - 1, c)
    ensures Max(spent, Prefix(lots, j)) == Max(spent, Prefix(lots, c))
  {
    assert lots[j].on > now;
    assert c <= j;
    assert m == 0 || lots[m - 1].on <= now;
    assert m <= c;
    PrefixGrows(lots, c, j);
  }

  // ----- what the answer does not depend on, and what it is best at -----

  /** The same rows in another order give the same points due and the same next expiry. */
  lemma OrderDoesNotMatter(a: seq<Row>, b: seq<Row>, now: int)
    requires multiset(a) == multiset(b)
    ensures Due(a, now) == Due(b, now)
    ensures forall next :: IsNext(a, now, next) <==> IsNext(b, now, next)
  {
    SumByPermuted(a, b, SpentPart());
    SumByPermuted(a, b, AllPart());
    forall d ensures UpTo(a, d) == UpTo(b, d) && (HasLotOn(a, d) <==> HasLotOn(b, d)) {
      SumByPermuted(a, b, UpToPart(d));
      forall r ensures r in a <==> r in b {
        assert r in multiset(a) <==> r in multiset(b);
      }
    }
  }

  /** A way of taking spending from lots: from each no more than it holds. */
  ghost predicate IsAssignment(lots: seq<Lot>, used: seq<int>) {
    |used| == |lots| && forall i :: 0 <= i < |lots| ==> 0 <= used[i] <= lots[i].points
  }

  function UsedIn(used: seq<int>, n: nat): int
    requires n <= |used|
  {
    if n == 0 then 0 else UsedIn(used, n - 1) + used[n - 1]
  }

  /** What lapses unspent of the first `n` lots under an assignment. */
  function LapsedUnder(lots: seq<Lot>, used: seq<int>, now: int, n: nat): int
    requires n <= |lots| == |used|
  {
    if n == 0 then 0
      else LapsedUnder(lots, used, now, n - 1) + (if lots[n - 1].on <= now then lots[n - 1].points - used[n - 1] else 0)
  }

  lemma LapsedBound(lots: seq<Lot>, used: seq<int>, now: int, n: nat)
    requires IsAssignment(lots, used) && n <= |lots|
    ensures LapsedUnder(lots, used, now, n) >= SumBy(lots[..n], LotPart(now)) - UsedIn(used, n) &&
      LapsedUnder(lots, used, now, n) >= 0
  {
    if n > 0 {
      LapsedBound(lots, used, now, n - 1);
      assert lots[..n] == lots[..n - 1] + [lots[n - 1]];
      SumByAppend(lots[..n - 1], lots[n - 1], LotPart(now));
    }
  }

  /** No way of assigning the same spending to the lots loses a member fewer points. */
  lemma GreedyLosesLeast(rows: seq<Row>, used: seq<int>, now: int)
    requires IsAssignment(SortByExpiry(Lots(rows)), used) && UsedIn(used, |used|) <= Max(0, NetSpent(rows))
    ensures Unspent(rows, now) <= LapsedUnder(SortByExpiry(Lots(rows)), used, now, |used|)
  {
    var lots := SortByExpiry(Lots(rows));
    assert lots[..|lots|] == lots;
    LapsedBound(lots, used, now, |lots|);
    SortedSum(rows, now);
  }

  /** What the loop takes from lot `k`: as much of it as spending is left. */
  function TakenFrom(lots: seq<Lot>, spent: int, k: nat): int
    requires k < |lots|
  {
    Min(lots[k].points, Max(0, spent - Prefix(lots, k)))
  }

  /** What the loop takes from each of the first `n` lots. */
  function GreedyUse(lots: seq<Lot>, spent: int, n: nat): (used: seq<int>)
    requires n <= |lots|
    ensures |used| == n && forall k: nat {:trigger TakenFrom(lots, spent, k)} ::
      k < n ==> used[k] == TakenFrom(lots, spent, k)
  {
    if n == 0 then [] else GreedyUse(lots, spent, n - 1) + [TakenFrom(lots, spent, n - 1)]
  }

  lemma {:induction false} GreedyUseTotals(lots: seq<Lot>, used: seq<int>, spent: int, now: int, m: nat, n: nat)
    requires Positive(lots) && spent >= 0 && Cut(lots, now, m) && n <= |lots| == |used|
    requires forall k: nat {:trigger TakenFrom(lots, spent, k)} :: k < |lots| ==> used[k] == TakenFrom(lots, spent, k)
    ensures UsedIn(used, n) == Min(spent, Prefix(lots, n))
    ensures LapsedUnder(lots, used, now, n) == Max(0, Prefix(lots, if n < m then n else m) - spent)
  {
    PrefixGrows(lots, 0, n);
    if n > 0 {
      GreedyUseTotals(lots, used, spent, now, m, n - 1);
      PrefixGrows(lots, 0, n - 1);
      assert used[n - 1] == TakenFrom(lots, spent, n - 1);
    }
  }

  lemma {:induction false} SpendingLeft(lots: seq<Lot>, spent: int, now: int, k: nat)
    requires Positive(lots) && spent >= 0 && k <= |lots|
    ensures DrawnSoFar(lots, spent, now, k).spent == Max(0, spent - Prefix(lots, k))
  {
    if k > 0 {
      SpendingLeft(lots, spent, now, k - 1);
    }
  }

  /**
   * `GreedyUse` is what the loop draws: from each lot, as much as it holds of the spending left
   * when the loop comes to it.
   */
  lemma LoopDrawsGreedyUse(lots: seq<Lot>, spent: int, now: int, k: nat)
    requires Positive(lots) && spent >= 0 && k < |lots|
    ensures var s := DrawnSoFar(lots, spent, now, k);
      && GreedyUse(lots, spent, |lots|)[k] == Min(lots[k].points, s.spent)
      && DrawnSoFar(lots, spent, now, k + 1).spent == s.spent - GreedyUse(lots, spent, |lots|)[k]
  {
    SpendingLeft(lots, spent, now, k);
    assert GreedyUse(lots, spent, |lots|)[k] == TakenFrom(lots, spent, k);
  }

  /** The loop's own way of assigning the spending loses exactly that. */
  lemma {:induction false} GreedyAttainsIt(rows: seq<Row>, now: int)
    requires PositiveLots(rows)
    ensures var lots := SortByExpiry(Lots(rows)); var used := GreedyUse(lots, Max(0, NetSpent(rows)), |lots|);
      && IsAssignment(lots, used) && UsedIn(used, |used|) <= Max(0, NetSpent(rows))
      && LapsedUnder(lots, used, now, |used|) == Unspent(rows, now)
  {
    SortedLotsRepresent(rows);
    GreedyAttainsOn(SortByExpiry(Lots(rows)), rows, now, Unspent(rows, now));
  }

  lemma GreedyIsAssignment(lots: seq<Lot>, spent: int)
    requires Positive(lots)
    ensures IsAssignment(lots, GreedyUse(lots, spent, |lots|))
  {
    var used := GreedyUse(lots, spent, |lots|);
    forall i: nat | i < |lots| ensures 0 <= used[i] <= lots[i].points {
      assert used[i] == TakenFrom(lots, spent, i);
    }
  }

  lemma {:induction false} UnspentFromLots(lots: seq<Lot>, rows: seq<Row>, now: int, m: nat)
    requires Represents(lots, rows) && Cut(lots, now, m)
    ensures Unspent(rows, now) == Max(0, Prefix(lots, m) - Max(0, NetSpent(rows)))
  {
    CutAt(lots, rows, now, m);
  }

  lemma {:induction false} GreedyTotals(lots: seq<Lot>, spent: int, now: int, m: nat)
    requires Positive(lots) && spent >= 0 && Cut(lots, now, m)
    ensures var used := GreedyUse(lots, spent, |lots|);
      IsAssignment(lots, used) && UsedIn(used, |used|) <= spent &&
        LapsedUnder(lots, used, now, |used|) == Max(0, Prefix(lots, m) - spent)
  {
    GreedyIsAssignment(lots, spent);
    GreedyUseTotals(lots, GreedyUse(lots, spent, |lots|), spent, now, m, |lots|);
  }

  lemma {:induction false} GreedyAttainsOn(lots: seq<Lot>, rows: seq<Row>, now: int, left: int)
    requires Represents(lots, rows) && left == Unspent(rows, now)
    ensures var used := GreedyUse(lots, Max(0, NetSpent(rows)), |lots|);
      IsAssignment(lots, used) && UsedIn(used, |used|) <= Max(0, NetSpent(rows)) &&
        LapsedUnder(lots, used, now, |used|) == left
  {
    var m := CutExists(lots, now, |lots|);
    GreedyTotals(lots, Max(0, NetSpent(rows)), now, m);
    assert left == Max(0, Prefix(lots, m) - Max(0, NetSpent(rows))) by {
      UnspentFromLots(lots, rows, now, m);
    }
  }
}
