/** What one attempt leaves of a webhook delivery, and when a delivery is given up on. */
module Retries {
  import opened Wrappers
  import opened Webhooks

  /** How long a delivery waits after its `n`-th failed try: about a day from the first try to the eighth. */
  function Wait(n: nat): int
    requires 1 <= n <= 7
  {
    if n == 1 then 60_000 else if n == 2 then 300_000 else if n == 3 then 900_000 else if n == 4 then 3_600_000
      else if n == 5 then 10_800_000 else if n == 6 then 21_600_000 else 43_200_000
  }

  /** The `n`-th try as it must be recorded. */
  ghost predicate RecordedAs(before: Row, after: Row, n: nat, isTest: bool, ok: bool, clock: int) {
    && after.attempts == n && after.lockedUntil == None
    && (after.status == Delivered <==> ok)
    && (after.status == Failed <==> !ok && (isTest || n >= 8))
    && (after.status == Pending ==> 1 <= n <= 7 && after.nextAttemptAt == clock + Wait(n))
    && (after.status != Pending ==> after.nextAttemptAt == before.nextAttemptAt)
  }

  lemma TryRecorded(w: World, a: nat, ok: bool)
    requires Inv(w) && a in w.callers && w.callers[a].Sent?
    ensures var after := Apply(w, Record(a, ok));
      && RecordedAs(w.row, after.row, w.row.attempts + 1, w.isTest, ok, w.clock) && a !in after.callers
      && after.sends == w.sends && after.lost == w.lost && after.clock == w.clock && after.active == w.active
  {
    assert Owns(w, a) && InFlight(w, a);
  }

  /**
   * In every run without second claims, the n-th try to be recorded leaves the delivery waiting
   * for the next, or done.
   */
  lemma EveryTryRecorded(clock: int, isTest: bool, steps: seq<Step>, a: nat, ok: bool)
    requires NoSecondClaims(clock, isTest, steps)
    requires a in Run(clock, isTest, steps).callers && Run(clock, isTest, steps).callers[a].Sent?
    ensures var w := Run(clock, isTest, steps);
      RecordedAs(w.row, Apply(w, Record(a, ok)).row, w.row.attempts + 1, isTest, ok, w.clock)
  {
    RunKeepsInv(clock, isTest, steps);
    TestStaysTest(clock, isTest, steps);
    TryRecorded(Run(clock, isTest, steps), a, ok);
  }

  lemma {:induction false} TestStaysTest(clock: int, isTest: bool, steps: seq<Step>)
    ensures Run(clock, isTest, steps).isTest == isTest
    decreases |steps|
  {
    if steps != [] {
      TestStaysTest(clock, isTest, steps[..|steps| - 1]);
    }
  }

  /** A claim leases a waiting delivery nobody holds for a minute, and leaves any other alone. */
  lemma ClaimOutcome(w: World, a: nat, now: int)
    requires a in w.callers && w.callers[a] == Started(now)
    ensures var after := Apply(w, Claim(a));
      if w.row.status == Pending && (w.row.lockedUntil == None || w.row.lockedUntil.value < now) then
        && after.row == Row(Pending, w.row.attempts, Some(now + 60_000), w.row.nextAttemptAt)
        && a in after.callers
        && after.callers[a] == if w.active then Claimed(now, w.row.attempts) else Closing(now)
      else after.row == w.row && a !in after.callers
  {
  }

  /**
   * A click stops at a delivery that was delivered; any other it makes due at the time of the click, unless an
   * attempt holds it, and goes on to try.
   */
  lemma ClickOutcome(w: World, a: nat, now: int)
    ensures a !in w.callers ==> Apply(w, Click(a)) == w.(callers := w.callers[a := Clicked(w.clock)])
    ensures a in w.callers && w.callers[a] == Clicked(now) ==>
      var after := Apply(w, Look(a));
      after.row == w.row && if w.row.status == Delivered then a !in after.callers
        else a in after.callers && after.callers[a] == Looked(now)
    ensures a in w.callers && w.callers[a] == Looked(now) ==>
      var after := Apply(w, Reopen(a));
      && after.row ==
           (if w.row.status != Delivered && (w.row.lockedUntil == None || w.row.lockedUntil.value < now)
            then Row(Pending, w.row.attempts, w.row.lockedUntil, now) else w.row)
      && a in after.callers && after.callers[a] == Reopened
    ensures a in w.callers && w.callers[a] == Reopened ==>
      Apply(w, Begin(a)) == w.(callers := w.callers[a := Started(w.clock)])
  {
  }

  /** Switching a webhook off gives up on what waits; an attempt that starts while it is off gives up likewise. */
  lemma SwitchOffOutcome(w: World, a: nat)
    ensures w.active ==>
      Apply(w, SwitchOff).row ==
        (if w.row.status == Pending then Row(Failed, w.row.attempts, None, w.row.nextAttemptAt) else w.row)
    ensures a in w.callers && w.callers[a].Closing? ==>
      Apply(w, Record(a, true)).row == Row(Failed, w.row.attempts, None, w.row.nextAttemptAt)
  {
  }

  // ----- given up on only at the last try -----

  /** Eight tries, or the single one of a test. */
  function Tries(isTest: bool): nat { if isTest then 1 else 8 }

  ghost predicate NotClosing(w: World, a: nat) {
    a in w.callers ==> !w.callers[a].Closing?
  }

  /** The webhook is on, nobody closes a delivery, and one given up on had all its tries. */
  ghost predicate Persistent(w: World) {
    && w.active && w.dropped == {} && Unclicked(w)
    && (forall a {:trigger NotClosing(w, a)} :: NotClosing(w, a))
    && (w.row.status == Failed ==> w.row.attempts == Tries(w.isTest))
  }

  lemma StepKeepsPersistent(w: World, step: Step)
    requires Inv(w) && Bounded(w) && Persistent(w) && !SecondClaim(w, step) && !step.Click? && !step.SwitchOff?
    ensures Persistent(Apply(w, step))
  {
    var after := Apply(w, step);
    UnclickedStep(w, step);
    NothingDropped(w, step);
    forall a ensures NotClosing(after, a) {
      assert NotClosing(w, a);
    }
    if ByCaller(step) {
      assert Owns(w, step.caller) && NotClosing(w, step.caller);
      assert InFlight(w, step.caller) ==> w.row.attempts < Limit(w.isTest);
    }
  }

  lemma {:induction false} RunKeepsPersistent(clock: int, isTest: bool, steps: seq<Step>)
    requires NoSecondClaims(clock, isTest, steps) && NoClicks(steps) && StaysOn(steps)
    ensures Persistent(Run(clock, isTest, steps))
    decreases |steps|
  {
    if steps != [] {
      var front := steps[..|steps| - 1];
      NoSecondClaimsBefore(clock, isTest, steps, |steps| - 1);
      RunKeepsPersistent(clock, isTest, front);
      RunKeepsInv(clock, isTest, front);
      RunKeepsBounded(clock, isTest, front);
      StepKeepsPersistent(Run(clock, isTest, front), steps[|steps| - 1]);
    }
  }

  /**
   * Left to itself with its webhook on, a delivery is given up on only when all eight tries, or the one of a
   * test, were recorded: as many requests were sent, and those whose server died besides.
   */
  lemma GivenUpOnlyAfterAllTries(clock: int, isTest: bool, steps: seq<Step>)
    requires NoSecondClaims(clock, isTest, steps) && NoClicks(steps) && StaysOn(steps)
    ensures var w, tries := Run(clock, isTest, steps), if isTest then 1 else 8;
      && (w.row.status == Failed ==> w.row.attempts == tries && w.sends == tries + w.lost)
      && (w.row.attempts == tries ==> w.row.status != Pending) && w.row.attempts <= tries
  {
    RunKeepsPersistent(clock, isTest, steps);
    RunKeepsBounded(clock, isTest, steps);
    RunKeepsInv(clock, isTest, steps);
    var w := Run(clock, isTest, steps);
    if Underway(w) {
      var a :| a in w.callers && w.callers[a].Sent?;
      assert InFlight(w, a) && Owns(w, a);
    }
  }
}
