/** Working through a list with a few workers that share one counter and take turns whenever one of them waits. */
module Pool {

  datatype Worker = Idle | Working(index: nat) | Finished

  function Weight(w: Worker): nat {
    match w
    case Idle => 1
    case Working(_) => 2
    case Finished => 0
  }

  function TotalWeight(ws: seq<Worker>): nat {
    if ws == [] then 0 else TotalWeight(ws[..|ws| - 1]) + Weight(ws[|ws| - 1])
  }

  lemma WeightAfter(ws: seq<Worker>, k: nat, w: Worker)
    requires k < |ws|
    ensures TotalWeight(ws[k := w]) == TotalWeight(ws) - Weight(ws[k]) + Weight(w)
  {
    var n := |ws| - 1;
    if k < n {
      WeightAfter(ws[..n], k, w);
      assert ws[k := w][..n] == ws[..n][k := w];
    } else {
      assert ws[k := w][..n] == ws[..n];
    }
  }

  /** Every index handed out is either answered or with exactly one worker. */
  ghost predicate Shared<R>(ws: seq<Worker>, next: nat, results: map<nat, R>) {
    && (forall i {:trigger i in results} ::
      i in results ==> i < next && forall k :: 0 <= k < |ws| ==> ws[k] != Working(i))
    && (forall k :: 0 <= k < |ws| && ws[k].Working? ==> ws[k].index < next)
    && (forall j, k :: 0 <= j < k < |ws| && ws[j].Working? ==> ws[j] != ws[k])
    && (forall i {:trigger i in results} ::
      0 <= i < next ==> i in results || exists k :: 0 <= k < |ws| && ws[k] == Working(i))
  }

  /** A worker only stops once the list is used up. */
  ghost predicate StopsLate(ws: seq<Worker>, next: nat, total: nat) {
    next <= total && (next < total ==> forall k :: 0 <= k < |ws| ==> ws[k] != Finished)
  }

  lemma TakeKeepsShared<R>(ws: seq<Worker>, next: nat, results: map<nat, R>, k: nat)
    requires Shared(ws, next, results) && k < |ws| && ws[k] == Idle
    ensures Shared(ws[k := Working(next)], next + 1, results)
  {
    var after := ws[k := Working(next)];
    assert after[k] == Working(next);
    forall i | 0 <= i < next + 1 ensures i in results || exists m :: 0 <= m < |after| && after[m] == Working(i) {
      if i < next && i !in results {
        var m :| 0 <= m < |ws| && ws[m] == Working(i);
        assert after[m] == Working(i);
      }
    }
  }

  lemma AnswerKeepsShared<R>(ws: seq<Worker>, next: nat, results: map<nat, R>, k: nat, r: R)
    requires Shared(ws, next, results) && k < |ws| && ws[k].Working?
    ensures ws[k].index !in results && Shared(ws[k := Idle], next, results[ws[k].index := r])
  {
    var after, answered := ws[k := Idle], results[ws[k].index := r];
    forall i | 0 <= i < next ensures i in answered || exists m :: 0 <= m < |after| && after[m] == Working(i) {
      if i !in answered {
        assert i !in results;
        var m :| 0 <= m < |ws| && ws[m] == Working(i);
        assert after[m] == Working(i);
      }
    }
  }

  /** The workers, the next index to hand out, the answers so far, and the indices handed out. */
  datatype Pool<R> = Pool(workers: seq<Worker>, next: nat, answers: map<nat, R>, started: seq<nat>)

  /** Where the pool stands part-way through. */
  ghost predicate Good<T, R>(items: seq<T>, work: T -> R, p: Pool<R>) {
    && Shared(p.workers, p.next, p.answers) && StopsLate(p.workers, p.next, |items|)
    && (forall i {:trigger i in p.answers} :: i in p.answers ==> i < |items| && p.answers[i] == work(items[i]))
    && |p.started| == p.next && (forall i :: 0 <= i < p.next ==> p.started[i] == i)
    && (p.workers == [] ==> items == [])
  }

  ghost function Left<R>(total: nat, p: Pool<R>): int { 3 * (total - p.next) + TotalWeight(p.workers) }

  /** Worker `k` runs until it next waits: it notes an answer, takes the next index, or stops. */
  function Turn<T, R>(items: seq<T>, work: T -> R, p: Pool<R>, k: nat): Pool<R>
    requires k < |p.workers|
  {
    match p.workers[k]
    case Working(i) =>
      if i < |items| then p.(workers := p.workers[k := Idle], answers := p.answers[i := work(items[i])]) else p
    case Idle =>
      if p.next < |items|
      then p.(workers := p.workers[k := Working(p.next)], next := p.next + 1, started := p.started + [p.next])
      else p.(workers := p.workers[k := Finished])
    case Finished => p
  }

  lemma TakeKeepsGood<T, R>(items: seq<T>, work: T -> R, p: Pool<R>, k: nat)
    requires Good(items, work, p) && k < |p.workers| && p.workers[k] == Idle && p.next < |items|
    ensures Good(items, work, Turn(items, work, p, k))
    ensures Left(|items|, Turn(items, work, p, k)) < Left(|items|, p)
  {
    TakeKeepsShared(p.workers, p.next, p.answers, k);
    WeightAfter(p.workers, k, Working(p.next));
  }

  lemma AnswerKeepsGood<T, R>(items: seq<T>, work: T -> R, p: Pool<R>, k: nat)
    requires Good(items, work, p) && k < |p.workers| && p.workers[k].Working?
    ensures Good(items, work, Turn(items, work, p, k))
    ensures Left(|items|, Turn(items, work, p, k)) < Left(|items|, p)
  {
    AnswerKeepsShared(p.workers, p.next, p.answers, k, work(items[p.workers[k].index]));
    WeightAfter(p.workers, k, Idle);
  }

  lemma StopKeepsShared<R>(ws: seq<Worker>, next: nat, results: map<nat, R>, k: nat)
    requires Shared(ws, next, results) && k < |ws| && ws[k] == Idle
    ensures Shared(ws[k := Finished], next, results)
  {
    var after := ws[k := Finished];
    forall i | 0 <= i < next && i !in results ensures exists m :: 0 <= m < |after| && after[m] == Working(i) {
      var m :| 0 <= m < |ws| && ws[m] == Working(i);
      assert after[m] == Working(i);
    }
  }

  lemma StopKeepsGood<T, R>(items: seq<T>, work: T -> R, p: Pool<R>, k: nat)
    requires Good(items, work, p) && k < |p.workers| && p.workers[k] == Idle && p.next >= |items|
    ensures Good(items, work, Turn(items, work, p, k))
    ensures Left(|items|, Turn(items, work, p, k)) < Left(|items|, p)
  {
    StopKeepsShared(p.workers, p.next, p.answers, k);
    WeightAfter(p.workers, k, Finished);
  }

  lemma TurnKeepsGood<T, R>(items: seq<T>, work: T -> R, p: Pool<R>, k: nat)
    requires Good(items, work, p) && k < |p.workers| && p.workers[k] != Finished
    ensures Good(items, work, Turn(items, work, p, k))
    ensures Left(|items|, Turn(items, work, p, k)) < Left(|items|, p)
  {
    if p.workers[k].Working? {
      AnswerKeepsGood(items, work, p, k);
    } else if p.next < |items| {
      TakeKeepsGood(items, work, p, k);
    } else {
      StopKeepsGood(items, work, p, k);
    }
  }

  /** The workers that have not stopped. */
  function Unfinished(ws: seq<Worker>): (some: set<nat>)
    ensures forall k :: k in some <==> 0 <= k < |ws| && ws[k] != Finished
  {
    set k: nat | k < |ws| && ws[k] != Finished
  }

  lemma Begun<T, R>(items: seq<T>, work: T -> R, p: Pool<R>)
    requires p.next == 0 && p.answers == map[] && p.started == [] && (p.workers == [] ==> items == [])
    requires forall k :: 0 <= k < |p.workers| ==> p.workers[k] == Idle
    ensures Good(items, work, p)
  {
  }

  lemma AllDone<T, R>(items: seq<T>, work: T -> R, p: Pool<R>)
    requires Good(items, work, p) && forall k :: 0 <= k < |p.workers| ==> p.workers[k] == Finished
    ensures p.next == |items| && forall i: nat {:trigger i in p.answers} ::
      i < |items| ==> i in p.answers && p.answers[i] == work(items[i])
  {
    assert p.workers != [] ==> p.workers[0] == Finished;
  }

  /** The answers in the order of the items. */
  function Listed<R>(answers: map<nat, R>, n: nat): (results: seq<R>)
    requires forall i: nat {:trigger i in answers} :: i < n ==> i in answers
    ensures |results| == n && forall i :: 0 <= i < n ==> i in answers && results[i] == answers[i]
  {
    seq(n, i requires 0 <= i < n && i in answers => answers[i])
  }

  /**
   * Whichever worker goes on at each turn, every item is taken exactly once, in
   * list order, and its answer ends up at the item's own place.
   */
  method InPool<T, R>(items: seq<T>, size: nat, work: T -> R) returns (results: seq<R>, started: seq<nat>)
    requires size > 0
    ensures |results| == |items| && forall i :: 0 <= i < |items| ==> results[i] == work(items[i])
    ensures |started| == |items| && forall i :: 0 <= i < |items| ==> started[i] == i
  {
    var count := if size < |items| then size else |items|;
    var p: Pool<R> := Pool(seq(count, _ => Idle), 0, map[], []);
    Begun(items, work, p);
    var going := Unfinished(p.workers);
    while going != {}
      invariant Good(items, work, p) && going == Unfinished(p.workers)
      decreases Left(|items|, p)
    {
      var k :| k in going;
      TurnKeepsGood(items, work, p, k);
      p := Turn(items, work, p, k);
      going := Unfinished(p.workers);
    }
    forall k | 0 <= k < |p.workers| ensures p.workers[k] == Finished {
      assert k !in going;
    }
    AllDone(items, work, p);
    results, started := Listed(p.answers, |items|), p.started;
  }
}
