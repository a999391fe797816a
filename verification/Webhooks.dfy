/**
 * Delivering one webhook event from several servers. A server leases the
 * delivery before it sends, and records what happened after; "Retry" clicks
 * and switching the webhook off and on come in between. Every database
 * statement is a step of its own, and the steps of all servers interleave.
 */
module Webhooks {
  import opened Wrappers

  const MAX_ATTEMPTS: nat := 8
  const RETRY_DELAYS_MS: seq<int> := [60_000, 300_000, 900_000, 3_600_000, 10_800_000, 21_600_000, 43_200_000]
  const CLAIM_MS: int := 60_000

  datatype Status = Pending | Delivered | Failed
  datatype Row = Row(status: Status, attempts: nat, lockedUntil: Option<int>, nextAttemptAt: int)

  /** Where a caller has got to. The clock is read once, before the lease is taken, so it may be stale by then. */
  datatype Phase =
    | Clicked(now: int)
    | Looked(now: int)
    | Reopened
    | Started(now: int)
    | Claimed(since: int, attempts: nat)
    | Sent(since: int, attempts: nat)
    | Closing(since: int)

  /** `dropped` are the attempts under way whose lease was taken away when the webhook was switched off. */
  datatype World = World(
    clock: int, row: Row, isTest: bool, active: bool, callers: map<nat, Phase>, dropped: set<nat>, sends: nat,
      lost: nat)

  datatype Step =
    | Tick(ms: nat)
    | Begin(caller: nat)
    | Claim(caller: nat)
    | Send(caller: nat)
    | Record(caller: nat, ok: bool)
    | Click(caller: nat)
    | Look(caller: nat)
    | Reopen(caller: nat)
    | Die(caller: nat)
    | SwitchOff
    | SwitchOn

  predicate Free(row: Row, now: int) {
    row.lockedUntil.None? || row.lockedUntil.value < now
  }

  function AfterSend(row: Row, attempts: nat, isTest: bool, ok: bool, clock: int): Row
    requires attempts >= 1
  {
    if ok then Row(Delivered, attempts, None, row.nextAttemptAt)
    else if attempts >= MAX_ATTEMPTS || isTest then Row(Failed, attempts, None, row.nextAttemptAt)
    else Row(Pending, attempts, None, clock + RETRY_DELAYS_MS[attempts - 1])
  }

  function Gone(w: World, a: nat): World { w.(callers := w.callers - {a}, dropped := w.dropped - {a}) }
  function Moved(w: World, a: nat, phase: Phase): World { w.(callers := w.callers[a := phase]) }

  function Apply(w: World, step: Step): World {
    match step
    case Tick(ms) => w.(clock := w.clock + ms)
    case Begin(a) => if a !in w.callers || w.callers[a].Reopened? then Moved(w, a, Started(w.clock)) else w
    case Claim(a) => if a in w.callers && w.callers[a].Started? then TryClaim(w, a, w.callers[a].now) else w
    case Send(a) =>
      if a in w.callers && w.callers[a].Claimed?
      then Moved(w, a, Sent(w.callers[a].since, w.callers[a].attempts)).(sends := w.sends + 1) else w
    case Record(a, ok) =>
      if a !in w.callers then w
      else if w.callers[a].Sent? then
        Gone(w, a).(row := AfterSend(w.row, w.callers[a].attempts + 1, w.isTest, ok, w.clock))
      else if w.callers[a].Closing? then Gone(w, a).(row := w.row.(status := Failed, lockedUntil := None))
      else w
    case Click(a) => if a !in w.callers then Moved(w, a, Clicked(w.clock)) else w
    case Look(a) =>
      if a in w.callers && w.callers[a].Clicked? then
        if w.row.status == Delivered then Gone(w, a) else Moved(w, a, Looked(w.callers[a].now))
      else w
    case Reopen(a) =>
      if a in w.callers && w.callers[a].Looked? then
        var row := if w.row.status != Delivered && Free(w.row, w.callers[a].now) then
          w.row.(status := Pending, nextAttemptAt := w.callers[a].now) else w.row;
        Moved(w, a, Reopened).(row := row)
      else w
    case Die(a) =>
      if a in w.callers then Gone(w, a).(lost := w.lost + if w.callers[a].Sent? then 1 else 0) else w
    case SwitchOff => if w.active then DropWaiting(w).(active := false) else w
    case SwitchOn => w.(active := true)
  }

  predicate Holding(p: Phase) { p.Claimed? || p.Sent? || p.Closing? }

  predicate InFlight(w: World, a: nat) { a in w.callers && Holding(w.callers[a]) }

  /** A waiting delivery is given up on and its lease cleared, even while an attempt on it is under way. */
  function DropWaiting(w: World): World {
    if w.row.status != Pending then w else
      w.(row := w.row.(status := Failed, lockedUntil := None), dropped := w.dropped + set a | a in w.callers &&
        InFlight(w, a))
  }

  /** Leases the delivery, if it waits and nobody holds it; then reads it. */
  function TryClaim(w: World, a: nat, now: int): World {
    if w.row.status == Pending && Free(w.row, now) then
      var phase := if w.active then Claimed(now, w.row.attempts) else Closing(now);
      Moved(w, a, phase).(row := w.row.(lockedUntil := Some(now + CLAIM_MS)))
    else Gone(w, a)
  }

  function Queued(clock: int, isTest: bool): World {
    World(clock, Row(Pending, 0, None, clock), isTest, true, map[], {}, 0, 0)
  }

  function Run(clock: int, isTest: bool, steps: seq<Step>): World
    decreases |steps|
  {
    if steps == [] then Queued(clock, isTest) else Apply(Run(clock, isTest, steps[..|steps| - 1]), steps[|steps| - 1])
  }

  // ----- one sender at a time -----

  /** No two attempts on the delivery are under way. */
  ghost predicate Single(w: World) {
    forall a, b {:trigger Alone(w, a, b)} :: Alone(w, a, b)
  }

  ghost predicate Alone(w: World, a: nat, b: nat) {
    InFlight(w, a) && InFlight(w, b) ==> a == b
  }

  /**
   * `b` is about to take the delivery from `a`, which has yet to record: the lease of `a` was
   * dropped and the delivery waits again, or it ran out by the clock of `b`.
   */
  ghost predicate Overtakes(w: World, a: nat, b: nat) {
    && InFlight(w, a) && b in w.callers && w.callers[b].Started?
    && if a in w.dropped then w.row.status == Pending else w.callers[a].since + CLAIM_MS < w.callers[b].now
  }

  /** The step takes the delivery from an attempt that has yet to record. */
  ghost predicate SecondClaim(w: World, step: Step) {
    step.Claim? && exists a :: Overtakes(w, a, step.caller)
  }

  /** No step of the run does. */
  ghost predicate NoSecondClaims(clock: int, isTest: bool, steps: seq<Step>) {
    forall n: nat {:trigger steps[..n]} :: n < |steps| ==> !SecondClaim(Run(clock, isTest, steps[..n]), steps[n])
  }

  /** No caller's reading of the clock is ahead of it. */
  ghost predicate ReadInPast(w: World, a: nat)
    requires a in w.callers
  {
    var p := w.callers[a];
    && (p.Clicked? || p.Looked? || p.Started? ==> p.now <= w.clock)
    && (Holding(p) ==> p.since <= w.clock)
  }

  /**
   * A holder owns the lock on a waiting delivery, or was deprived of it and nobody has it; either
   * way it read the tries right.
   */
  ghost predicate Owns(w: World, a: nat) {
    InFlight(w, a) ==>
      && (w.callers[a].Closing? || w.callers[a].attempts == w.row.attempts)
      && if a in w.dropped then w.row.status != Delivered && w.row.lockedUntil.None?
         else w.row.status == Pending && w.row.lockedUntil == Some(w.callers[a].since + CLAIM_MS)
  }

  /** A try made and not yet recorded. */
  ghost predicate Underway(w: World) {
    exists a :: a in w.callers && w.callers[a].Sent?
  }

  ghost predicate Inv(w: World) {
    && (forall a {:trigger ReadInPast(w, a)} :: a in w.callers ==> ReadInPast(w, a))
    && (forall a {:trigger Owns(w, a)} :: Owns(w, a))
    && (forall a {:trigger InFlight(w, a)} :: a in w.dropped ==> InFlight(w, a))
    && Single(w)
    && w.sends == w.row.attempts + w.lost + (if Underway(w) then 1 else 0)
  }

  lemma StepKeepsReadings(w: World, step: Step, a: nat)
    requires (a in w.callers ==> ReadInPast(w, a)) && a in Apply(w, step).callers
    ensures ReadInPast(Apply(w, step), a)
  {
  }

  predicate ByCaller(step: Step) { !step.Tick? && !step.SwitchOff? && !step.SwitchOn? }

  /** A delivery is taken from under an attempt exactly by a second claim. */
  lemma LeaseTakenIff(w: World, a: nat, b: nat)
    requires Owns(w, a) && InFlight(w, a) && !InFlight(w, b)
    ensures InFlight(Apply(w, Claim(b)), b) <==> Overtakes(w, a, b)
  {
  }

  /**
   * Only its holder, or a second claim, changes whose a delivery is; a click may reopen it, or
   * move the date of its next try.
   */
  lemma OthersLeaveItAlone(w: World, step: Step, a: nat)
    requires Owns(w, a) && InFlight(w, a) && !SecondClaim(w, step)
    requires !step.SwitchOff? && (ByCaller(step) ==> !InFlight(w, step.caller))
    ensures var after := Apply(w, step);
      && Owns(after, a) && InFlight(after, a) && forall b :: InFlight(after, b) ==> InFlight(w, b)
  {
    if step.Claim? {
      LeaseTakenIff(w, a, step.caller);
    }
  }

  /** Switching off takes the lease away and nothing else. */
  lemma SwitchOffKeepsOwnership(w: World, a: nat)
    requires Inv(w)
    ensures var after := Apply(w, SwitchOff);
      Owns(after, a) && (InFlight(after, a) <==> InFlight(w, a)) && (a in after.dropped ==> InFlight(after, a))
  {
    assert Owns(w, a);
    assert a in w.dropped ==> InFlight(w, a);
  }

  lemma ClaimKeepsOwnership(w: World, step: Step, a: nat)
    requires Inv(w) && !SecondClaim(w, step) && !step.SwitchOff? && (ByCaller(step) ==> !InFlight(w, step.caller))
    ensures Owns(Apply(w, step), a)
    ensures InFlight(Apply(w, step), a) ==>
      InFlight(w, a) || (ByCaller(step) && step.caller == a && forall b :: !InFlight(w, b))
  {
    assert Owns(w, a);
    if InFlight(w, a) {
      OthersLeaveItAlone(w, step, a);
    } else if InFlight(Apply(w, step), a) {
      assert a !in w.dropped by {
        assert a in w.dropped ==> InFlight(w, a);
      }
      forall b ensures !InFlight(w, b) {
        if InFlight(w, b) {
          assert Owns(w, b);
          OthersLeaveItAlone(w, step, b);
        }
      }
    }
  }

  lemma StepKeepsOwnership(w: World, step: Step, a: nat, b: nat)
    requires Inv(w) && !SecondClaim(w, step)
    ensures Owns(Apply(w, step), a) && Alone(Apply(w, step), a, b)
  {
    assert Owns(w, a) && Owns(w, b) && Alone(w, a, b);
    if step.SwitchOff? {
      SwitchOffKeepsOwnership(w, a);
      SwitchOffKeepsOwnership(w, b);
    } else if ByCaller(step) && InFlight(w, step.caller) {
      assert Alone(w, a, step.caller) && Alone(w, b, step.caller);
    } else {
      ClaimKeepsOwnership(w, step, a);
      ClaimKeepsOwnership(w, step, b);
    }
  }

  lemma StepKeepsDropped(w: World, step: Step, a: nat)
    requires Inv(w) && a in Apply(w, step).dropped
    ensures InFlight(Apply(w, step), a)
  {
    assert a in w.dropped ==> InFlight(w, a);
    if step.SwitchOff? {
      SwitchOffKeepsOwnership(w, a);
    }
  }

  /** A step that is not a holder's sends nothing and records no try. */
  lemma CountWhenFree(w: World, step: Step)
    requires Inv(w) && (ByCaller(step) ==> !InFlight(w, step.caller))
    ensures var after := Apply(w, step);
      after.sends == w.sends && after.lost == w.lost && after.row.attempts == w.row.attempts &&
        (Underway(after) <==> Underway(w))
  {
    var after := Apply(w, step);
    forall a ensures (a in after.callers && after.callers[a].Sent?) <==> (a in w.callers && w.callers[a].Sent?) {}
  }

  lemma CountWhenHeld(w: World, step: Step)
    requires Inv(w) && ByCaller(step) && InFlight(w, step.caller)
    ensures var after := Apply(w, step);
      after.sends == after.row.attempts + after.lost + (if Underway(after) then 1 else 0)
  {
    var after := Apply(w, step);
    assert Owns(w, step.caller);
    assert Underway(w) <==> w.callers[step.caller].Sent? by {
      forall a | a in w.callers && w.callers[a].Sent? ensures a == step.caller {
        assert Alone(w, a, step.caller);
      }
    }
    assert Underway(after) <==> step.caller in after.callers && after.callers[step.caller].Sent? by {
      forall a | a in after.callers && after.callers[a].Sent? ensures a == step.caller {
        assert Alone(w, a, step.caller);
      }
    }
  }

  lemma StepKeepsInv(w: World, step: Step)
    requires Inv(w) && !SecondClaim(w, step)
    ensures Inv(Apply(w, step))
  {
    var after := Apply(w, step);
    forall a | a in after.callers ensures ReadInPast(after, a) {
      if a in w.callers {
        assert ReadInPast(w, a);
      }
      StepKeepsReadings(w, step, a);
    }
    forall a ensures Owns(after, a) {
      StepKeepsOwnership(w, step, a, a);
    }
    forall a, b ensures Alone(after, a, b) {
      StepKeepsOwnership(w, step, a, b);
    }
    forall a | a in after.dropped ensures InFlight(after, a) {
      StepKeepsDropped(w, step, a);
    }
    if ByCaller(step) && InFlight(w, step.caller) {
      CountWhenHeld(w, step);
    } else {
      CountWhenFree(w, step);
    }
  }

  /** One step keeps attempts apart exactly when it is no second claim. */
  lemma SingleStepIff(w: World, step: Step)
    requires Inv(w)
    ensures Single(Apply(w, step)) <==> !SecondClaim(w, step)
  {
    if SecondClaim(w, step) {
      var a :| Overtakes(w, a, step.caller);
      assert Owns(w, a);
      LeaseTakenIff(w, a, step.caller);
      assert !Alone(Apply(w, step), a, step.caller);
    } else {
      StepKeepsInv(w, step);
    }
  }

  lemma NoSecondClaimsBefore(clock: int, isTest: bool, steps: seq<Step>, k: nat)
    requires NoSecondClaims(clock, isTest, steps) && k <= |steps|
    ensures NoSecondClaims(clock, isTest, steps[..k])
    ensures k < |steps| ==> !SecondClaim(Run(clock, isTest, steps[..k]), steps[k])
  {
    forall n: nat | n < k ensures !SecondClaim(Run(clock, isTest, steps[..k][..n]), steps[..k][n]) {
      assert steps[..k][..n] == steps[..n];
    }
  }

  lemma {:induction false} RunKeepsInv(clock: int, isTest: bool, steps: seq<Step>)
    requires NoSecondClaims(clock, isTest, steps)
    ensures Inv(Run(clock, isTest, steps))
    decreases |steps|
  {
    if steps != [] {
      NoSecondClaimsBefore(clock, isTest, steps, |steps| - 1);
      RunKeepsInv(clock, isTest, steps[..|steps| - 1]);
      StepKeepsInv(Run(clock, isTest, steps[..|steps| - 1]), steps[|steps| - 1]);
    }
  }

  /** At no point of the run are two attempts under way. */
  ghost predicate NeverTwo(clock: int, isTest: bool, steps: seq<Step>) {
    forall n: nat {:trigger steps[..n]} :: n <= |steps| ==> Single(Run(clock, isTest, steps[..n]))
  }

  lemma OneStepOn(clock: int, isTest: bool, steps: seq<Step>, n: nat)
    requires n < |steps|
    ensures Run(clock, isTest, steps[..n + 1]) == Apply(Run(clock, isTest, steps[..n]), steps[n])
  {
    assert steps[..n + 1][..n] == steps[..n];
  }

  lemma {:induction false} OneMoreWithout(clock: int, isTest: bool, steps: seq<Step>)
    requires steps != [] && NoSecondClaims(clock, isTest, steps[..|steps| - 1])
    requires !SecondClaim(Run(clock, isTest, steps[..|steps| - 1]), steps[|steps| - 1])
    ensures NoSecondClaims(clock, isTest, steps)
  {
    var front := steps[..|steps| - 1];
    forall n: nat | n < |steps| ensures !SecondClaim(Run(clock, isTest, steps[..n]), steps[n]) {
      if n < |front| {
        assert front[..n] == steps[..n];
      }
    }
  }

  lemma {:induction false} NeverTwoNoSecondClaims(clock: int, isTest: bool, steps: seq<Step>, k: nat)
    requires NeverTwo(clock, isTest, steps) && k <= |steps|
    ensures NoSecondClaims(clock, isTest, steps[..k])
    decreases k
  {
    if k > 0 {
      NeverTwoNoSecondClaims(clock, isTest, steps, k - 1);
      RunKeepsInv(clock, isTest, steps[..k - 1]);
      OneStepOn(clock, isTest, steps, k - 1);
      assert Single(Run(clock, isTest, steps[..k]));
      SingleStepIff(Run(clock, isTest, steps[..k - 1]), steps[k - 1]);
      assert steps[..k][..k - 1] == steps[..k - 1];
      OneMoreWithout(clock, isTest, steps[..k]);
    }
  }

  /**
   * However many servers and clicks there are, and however often the webhook
   * is switched off and on, two attempts on one delivery never overlap if and
   * only if nobody takes it from an attempt that has yet to record.
   */
  lemma NoTwoAttemptsOverlapIff(clock: int, isTest: bool, steps: seq<Step>)
    ensures NeverTwo(clock, isTest, steps) <==> NoSecondClaims(clock, isTest, steps)
  {
    assert steps[..|steps|] == steps;
    if NeverTwo(clock, isTest, steps) {
      NeverTwoNoSecondClaims(clock, isTest, steps, |steps|);
    }
    if NoSecondClaims(clock, isTest, steps) {
      forall n: nat | n <= |steps| ensures Single(Run(clock, isTest, steps[..n])) {
        NoSecondClaimsBefore(clock, isTest, steps, n);
        RunKeepsInv(clock, isTest, steps[..n]);
      }
    }
  }

  // ----- when there are none -----

  /** Whoever holds the delivery is still within the claim time. */
  ghost predicate Timely(w: World) {
    forall a {:trigger InFlight(w, a)} :: InFlight(w, a) ==> w.clock <= w.callers[a].since + CLAIM_MS
  }

  ghost predicate NoClicks(steps: seq<Step>) {
    forall i :: 0 <= i < |steps| ==> !steps[i].Click?
  }

  ghost predicate StaysOn(steps: seq<Step>) {
    forall i :: 0 <= i < |steps| ==> !steps[i].SwitchOff?
  }

  predicate FromClick(p: Phase) { p.Clicked? || p.Looked? || p.Reopened? }

  ghost predicate Unclicked(w: World) {
    forall a :: a in w.callers ==> !FromClick(w.callers[a])
  }

  /** A delivery dropped under an attempt does not wait again. */
  ghost predicate DroppedNotWaiting(w: World) {
    w.dropped == {} || w.row.status != Pending
  }

  lemma UnclickedStep(w: World, step: Step)
    requires Unclicked(w) && !step.Click?
    ensures Unclicked(Apply(w, step))
  {
  }

  lemma UnclickedNotWaiting(w: World, step: Step)
    requires Inv(w) && Unclicked(w) && DroppedNotWaiting(w) && !step.Click? && !SecondClaim(w, step)
    ensures DroppedNotWaiting(Apply(w, step))
  {
    if ByCaller(step) && InFlight(w, step.caller) {
      forall a | a in w.dropped ensures a == step.caller {
        assert InFlight(w, a) && Alone(w, a, step.caller);
      }
    }
  }

  lemma NothingDropped(w: World, step: Step)
    requires w.dropped == {} && !step.SwitchOff?
    ensures Apply(w, step).dropped == {}
  {
  }

  lemma TimelyIsNotSecond(w: World, step: Step)
    requires Inv(w) && Timely(w) && DroppedNotWaiting(w)
    ensures !SecondClaim(w, step)
  {
    if step.Claim? && step.caller in w.callers {
      assert ReadInPast(w, step.caller);
    }
  }

  lemma {:induction false} TimelyRunSoFar(clock: int, isTest: bool, steps: seq<Step>)
    requires forall n: nat {:trigger steps[..n]} :: n <= |steps| ==> Timely(Run(clock, isTest, steps[..n]))
    requires NoClicks(steps) || StaysOn(steps)
    ensures NoSecondClaims(clock, isTest, steps) && DroppedNotWaiting(Run(clock, isTest, steps))
    ensures NoClicks(steps) ==> Unclicked(Run(clock, isTest, steps))
    ensures StaysOn(steps) ==> Run(clock, isTest, steps).dropped == {}
    decreases |steps|
  {
    if steps != [] {
      var k := |steps| - 1;
      var front, last := steps[..k], steps[k];
      forall n: nat | n <= k ensures Timely(Run(clock, isTest, front[..n])) {
        assert front[..n] == steps[..n];
      }
      TimelyRunSoFar(clock, isTest, front);
      RunKeepsInv(clock, isTest, front);
      var w := Run(clock, isTest, front);
      assert Timely(w) by {
        assert steps[..k] == front;
      }
      TimelyIsNotSecond(w, last);
      OneMoreWithout(clock, isTest, steps);
      if NoClicks(steps) {
        UnclickedStep(w, last);
        UnclickedNotWaiting(w, last);
      } else {
        NothingDropped(w, last);
      }
      if StaysOn(steps) {
        NothingDropped(w, last);
      }
    }
  }

  /**
   * Attempts that record, or die, within the claim time of their start are
   * never overtaken, where the webhook stays on or nobody clicks.
   */
  lemma TimelyRunsHaveNoSecondClaims(clock: int, isTest: bool, steps: seq<Step>)
    requires forall n: nat {:trigger steps[..n]} :: n <= |steps| ==> Timely(Run(clock, isTest, steps[..n]))
    requires NoClicks(steps) || StaysOn(steps)
    ensures NoSecondClaims(clock, isTest, steps)
  {
    TimelyRunSoFar(clock, isTest, steps);
  }

  /** The tries recorded are the requests sent, but for one underway and those whose server died before recording. */
  lemma AttemptsCountSends(clock: int, isTest: bool, steps: seq<Step>)
    requires NoSecondClaims(clock, isTest, steps)
    ensures var w := Run(clock, isTest, steps); w.sends == w.row.attempts + w.lost + (if Underway(w) then 1 else 0)
  {
    RunKeepsInv(clock, isTest, steps);
  }

  // ----- what is final -----

  lemma DeliveredStaysOneStep(w: World, step: Step)
    requires Inv(w) && w.row.status == Delivered
    ensures Apply(w, step).row == w.row && Apply(w, step).sends == w.sends
  {
    if ByCaller(step) {
      assert Owns(w, step.caller);
    }
  }

  /** Once delivered, a delivery never changes and is never sent again: no late record, no click. */
  lemma {:induction false} DeliveredIsFinal(clock: int, isTest: bool, steps: seq<Step>, n: nat)
    requires NoSecondClaims(clock, isTest, steps) && n <= |steps| &&
      Run(clock, isTest, steps[..n]).row.status == Delivered
    ensures Run(clock, isTest, steps).row == Run(clock, isTest, steps[..n]).row
    ensures Run(clock, isTest, steps).sends == Run(clock, isTest, steps[..n]).sends
    decreases |steps|
  {
    if n == |steps| {
      assert steps[..n] == steps;
    } else {
      var front := steps[..|steps| - 1];
      NoSecondClaimsBefore(clock, isTest, steps, |steps| - 1);
      assert front[..n] == steps[..n];
      DeliveredIsFinal(clock, isTest, front, n);
      RunKeepsInv(clock, isTest, front);
      DeliveredStaysOneStep(Run(clock, isTest, front), steps[|steps| - 1]);
    }
  }

  // ----- without clicks -----

  function Limit(isTest: bool): nat { if isTest then 1 else MAX_ATTEMPTS }

  /** Nobody is on the way from a click; a waiting delivery, or one with an attempt under way, has tries left. */
  ghost predicate Bounded(w: World) {
    && Unclicked(w) && w.row.attempts <= Limit(w.isTest) &&
      (w.row.status == Pending ==> w.row.attempts < Limit(w.isTest))
    && forall a {:trigger InFlight(w, a)} :: InFlight(w, a) ==> w.row.attempts < Limit(w.isTest)
  }

  lemma StepKeepsBounded(w: World, step: Step)
    requires Inv(w) && Bounded(w) && !step.Click? && !SecondClaim(w, step)
    ensures Bounded(Apply(w, step)) && Apply(w, step).isTest == w.isTest
  {
    var after := Apply(w, step);
    UnclickedStep(w, step);
    if ByCaller(step) {
      assert Owns(w, step.caller);
      assert InFlight(w, step.caller) ==> w.row.attempts < Limit(w.isTest);
    }
    forall a | InFlight(after, a) ensures after.row.attempts < Limit(w.isTest) {
      assert InFlight(w, a) ==> w.row.attempts < Limit(w.isTest);
      if ByCaller(step) && step.caller != a && InFlight(w, step.caller) && InFlight(w, a) {
        assert Alone(w, a, step.caller);
      }
    }
  }

  lemma {:induction false} RunKeepsBounded(clock: int, isTest: bool, steps: seq<Step>)
    requires NoSecondClaims(clock, isTest, steps) && NoClicks(steps)
    ensures Bounded(Run(clock, isTest, steps)) && Run(clock, isTest, steps).isTest == isTest
    decreases |steps|
  {
    if steps != [] {
      var front := steps[..|steps| - 1];
      NoSecondClaimsBefore(clock, isTest, steps, |steps| - 1);
      RunKeepsBounded(clock, isTest, front);
      RunKeepsInv(clock, isTest, front);
      StepKeepsBounded(Run(clock, isTest, front), steps[|steps| - 1]);
    }
  }

  /** Left to itself a delivery is sent at most eight times, a test once; at the last try it stops waiting. */
  lemma AtMostEightSends(clock: int, isTest: bool, steps: seq<Step>)
    requires NoSecondClaims(clock, isTest, steps) && NoClicks(steps)
    ensures var w := Run(clock, isTest, steps);
      w.sends <= Limit(isTest) + w.lost && (w.row.attempts == Limit(isTest) ==> w.row.status != Pending)
  {
    RunKeepsBounded(clock, isTest, steps);
    RunKeepsInv(clock, isTest, steps);
    var w := Run(clock, isTest, steps);
    if Underway(w) {
      var a :| a in w.callers && w.callers[a].Sent?;
      assert InFlight(w, a) && Owns(w, a);
    }
  }

  // ----- given up on -----

  /** An attempt whose lease was dropped goes on to send, or records a try. */
  ghost predicate GoesOn(w: World, step: Step) {
    ByCaller(step) && step.caller in w.dropped && step.caller in w.callers &&
    ((step.Send? && w.callers[step.caller].Claimed?) || (step.Record? && w.callers[step.caller].Sent?))
  }

  /** Left to itself, a delivery given up on is as it was after a step exactly when no dropped attempt goes on. */
  lemma FailedStepIff(w: World, step: Step)
    requires Inv(w) && Unclicked(w) && w.row.status == Failed && !step.Click?
    ensures Apply(w, step).row == w.row && Apply(w, step).sends == w.sends <==> !GoesOn(w, step)
  {
    if ByCaller(step) {
      assert Owns(w, step.caller);
    }
  }

  ghost predicate SameSince(clock: int, isTest: bool, steps: seq<Step>, n: nat, m: nat)
    requires n <= |steps| && m <= |steps|
  {
    var before, now := Run(clock, isTest, steps[..n]), Run(clock, isTest, steps[..m]);
    now.row == before.row && now.sends == before.sends
  }

  ghost predicate GoesOnAt(clock: int, isTest: bool, steps: seq<Step>, m: nat)
    requires m < |steps|
  {
    GoesOn(Run(clock, isTest, steps[..m]), steps[m])
  }

  lemma {:induction false} SameOneMore(clock: int, isTest: bool, steps: seq<Step>, n: nat, m: nat)
    requires NoSecondClaims(clock, isTest, steps) && NoClicks(steps) && n <= m < |steps|
    requires Run(clock, isTest, steps[..n]).row.status == Failed && SameSince(clock, isTest, steps, n, m)
    ensures SameSince(clock, isTest, steps, n, m + 1) <==> !GoesOnAt(clock, isTest, steps, m)
  {
    NoSecondClaimsBefore(clock, isTest, steps, m);
    RunKeepsInv(clock, isTest, steps[..m]);
    RunKeepsBounded(clock, isTest, steps[..m]);
    OneStepOn(clock, isTest, steps, m);
    FailedStepIff(Run(clock, isTest, steps[..m]), steps[m]);
  }

  lemma {:induction false} SameSoFar(clock: int, isTest: bool, steps: seq<Step>, n: nat, m: nat)
    requires NoSecondClaims(clock, isTest, steps) && NoClicks(steps) && n <= m <= |steps|
    requires Run(clock, isTest, steps[..n]).row.status == Failed
    requires forall k {:trigger GoesOnAt(clock, isTest, steps, k)} :: n <= k < m ==> !GoesOnAt(clock, isTest, steps, k)
    ensures SameSince(clock, isTest, steps, n, m)
    decreases m
  {
    if n < m {
      SameSoFar(clock, isTest, steps, n, m - 1);
      SameOneMore(clock, isTest, steps, n, m - 1);
    }
  }

  /**
   * Left to itself, a delivery given up on stays so and is not sent again, if
   * and only if no attempt on it that was under way when the webhook was
   * switched off goes on to send or to record.
   */
  lemma FailedIsFinalIff(clock: int, isTest: bool, steps: seq<Step>, n: nat)
    requires NoSecondClaims(clock, isTest, steps) && NoClicks(steps) && n <= |steps|
    requires Run(clock, isTest, steps[..n]).row.status == Failed
    ensures (forall m {:trigger SameSince(clock, isTest, steps, n, m)} ::
      n <= m <= |steps| ==> SameSince(clock, isTest, steps, n, m)) <==>
      (forall m {:trigger GoesOnAt(clock, isTest, steps, m)} :: n <= m < |steps| ==> !GoesOnAt(clock, isTest, steps, m))
  {
    if forall m {:trigger GoesOnAt(clock, isTest, steps, m)} ::
      n <= m < |steps| ==> !GoesOnAt(clock, isTest, steps, m) {
      forall m | n <= m <= |steps| ensures SameSince(clock, isTest, steps, n, m) {
        SameSoFar(clock, isTest, steps, n, m);
      }
    }
    if forall m {:trigger SameSince(clock, isTest, steps, n, m)} ::
      n <= m <= |steps| ==> SameSince(clock, isTest, steps, n, m) {
      forall m | n <= m < |steps| ensures !GoesOnAt(clock, isTest, steps, m) {
        var next := m + 1;
        assert SameSince(clock, isTest, steps, n, m) && SameSince(clock, isTest, steps, n, next);
        SameOneMore(clock, isTest, steps, n, m);
      }
    }
  }

  lemma NobodyDropped(w: World, step: Step)
    requires w.dropped == {} && w.row.status != Pending
    ensures Apply(w, step).dropped == {} && !GoesOn(w, step)
  {
  }

  lemma {:induction false} FailedWithNobodyUnderWay(clock: int, isTest: bool, steps: seq<Step>, n: nat, m: nat)
    requires NoSecondClaims(clock, isTest, steps) && NoClicks(steps) && n <= m <= |steps|
    requires Run(clock, isTest, steps[..n]).row.status == Failed && Run(clock, isTest, steps[..n]).dropped == {}
    ensures SameSince(clock, isTest, steps, n, m) && Run(clock, isTest, steps[..m]).dropped == {}
    decreases m
  {
    if n < m {
      FailedWithNobodyUnderWay(clock, isTest, steps, n, m - 1);
      NobodyDropped(Run(clock, isTest, steps[..m - 1]), steps[m - 1]);
      OneStepOn(clock, isTest, steps, m - 1);
      SameOneMore(clock, isTest, steps, n, m - 1);
    }
  }

  /**
   * Left to itself, a delivery given up on with no attempt under way stays so, and is not sent
   * again, however often the webhook is switched.
   */
  lemma FailedIsFinalWithoutClicks(clock: int, isTest: bool, steps: seq<Step>, n: nat)
    requires NoSecondClaims(clock, isTest, steps) && NoClicks(steps) && n <= |steps|
    requires Run(clock, isTest, steps[..n]).row.status == Failed && Run(clock, isTest, steps[..n]).dropped == {}
    ensures Run(clock, isTest, steps).row == Run(clock, isTest, steps[..n]).row
    ensures Run(clock, isTest, steps).sends == Run(clock, isTest, steps[..n]).sends
  {
    FailedWithNobodyUnderWay(clock, isTest, steps, n, |steps|);
    assert steps[..|steps|] == steps;
  }

  // ----- what second claims do -----

  /** The first server's request is out. */
  function FirstSent(): World {
    Apply(Apply(Apply(Queued(0, false), Begin(1)), Claim(1)), Send(1))
  }

  lemma FirstSentIs()
    ensures FirstSent() == World(0, Row(Pending, 0, Some(60_000), 0), false, true, map[1 := Sent(0, 0)], {}, 1, 0)
  {
    var w2 := Apply(Apply(Queued(0, false), Begin(1)), Claim(1));
    assert w2 == World(0, Row(Pending, 0, Some(60_000), 0), false, true, map[1 := Claimed(0, 0)], {}, 0, 0);
  }

  /** Its lease runs out, and a second server begins. */
  function LeaseRunOut(): World { Apply(Apply(FirstSent(), Tick(60_001)), Begin(2)) }

  lemma LeaseRunOutIs()
    ensures LeaseRunOut() ==
      World(60_001, Row(Pending, 0, Some(60_000), 0), false, true, map[1 := Sent(0, 0), 2 := Started(60_001)], {}, 1, 0)
  {
    FirstSentIs();
  }

  /** Or the webhook is switched off and on, and a click reopens the delivery and begins. */
  function ReopenedByClick(w: World): World { Apply(Apply(Apply(Apply(w, Click(2)), Look(2)), Reopen(2)), Begin(2)) }

  function SwitchedOffAndOn(): World { ReopenedByClick(Apply(Apply(FirstSent(), SwitchOff), SwitchOn)) }

  lemma DroppedIs()
    ensures Apply(FirstSent(), SwitchOff) ==
      World(0, Row(Failed, 0, None, 0), false, false, map[1 := Sent(0, 0)], {1}, 1, 0)
  {
    FirstSentIs();
    assert InFlight(FirstSent(), 1);
    assert Apply(FirstSent(), SwitchOff).dropped == {1};
  }

  lemma SwitchedOffAndOnIs()
    ensures SwitchedOffAndOn() ==
      World(0, Row(Pending, 0, None, 0), false, true, map[1 := Sent(0, 0), 2 := Started(0)], {1}, 1, 0)
  {
    DroppedIs();
    ReopenedIs(Apply(Apply(FirstSent(), SwitchOff), SwitchOn));
  }

  lemma ReopenedIs(w: World)
    requires w == World(0, Row(Failed, 0, None, 0), false, true, map[1 := Sent(0, 0)], {1}, 1, 0)
    ensures ReopenedByClick(w) == w.(row := w.row.(status := Pending), callers := map[1 := Sent(0, 0), 2 := Started(0)])
  {
    var looked := Apply(Apply(w, Click(2)), Look(2));
    assert looked == w.(callers := map[1 := Sent(0, 0), 2 := Looked(0)]);
    var reopened := Apply(looked, Reopen(2));
    assert reopened == w.(row := w.row.(status := Pending), callers := map[1 := Sent(0, 0), 2 := Reopened]);
  }

  /** Two requests are out at once, a delivered event goes back to waiting, and one send is not counted. */
  ghost predicate Broken(w: World) {
    var both := Apply(Apply(w, Claim(2)), Send(2));
    var answered := Apply(both, Record(2, true));
    var late := Apply(answered, Record(1, false));
    && SecondClaim(w, Claim(2)) && InFlight(both, 1) && InFlight(both, 2)
    && answered.row.status == Delivered && late.row.status == Pending && late.sends == 2 && late.row.attempts == 1
  }

  lemma OvertakenIsBroken(w: World)
    requires w.callers.Keys == {1, 2} && w.callers[1] == Sent(0, 0) && w.callers[2].Started? && Overtakes(w, 1, 2)
    requires w.row.status == Pending && w.row.attempts == 0 && Free(w.row, w.callers[2].now)
    requires w.active && !w.isTest && w.sends == 1 && w.lost == 0
    ensures Broken(w)
  {
    var both := Apply(Apply(w, Claim(2)), Send(2));
    assert both.callers[2] == Sent(w.callers[2].now, 0) && both.callers[1] == Sent(0, 0);
    var answered := Apply(both, Record(2, true));
    assert 1 in answered.callers && answered.callers[1] == Sent(0, 0);
  }

  /** An answer after the lease ran out. */
  lemma LateAnswersBreakIt()
    ensures Broken(LeaseRunOut())
  {
    LeaseRunOutIs();
    OvertakenIsBroken(LeaseRunOut());
  }

  /** Switching the webhook off and on and clicking while a request is out, all at one instant. */
  lemma SwitchingOffBreaksIt()
    ensures SwitchedOffAndOn().clock == 0 && Broken(SwitchedOffAndOn())
  {
    SwitchedOffAndOnIs();
    OvertakenIsBroken(SwitchedOffAndOn());
  }

  /** Switching off alone: the delivery is given up on, and waits again once the attempt under way records. */
  lemma GivenUpThenWaiting()
    ensures var dropped := Apply(FirstSent(), SwitchOff);
      dropped.row.status == Failed && GoesOn(dropped, Record(1, false)) &&
        Apply(dropped, Record(1, false)).row.status == Pending
  {
    DroppedIs();
  }
}
