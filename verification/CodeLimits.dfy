/** A bound on the wrong codes looked at in any stretch of time, for checks made one after another. */
module CodeLimits {
  import opened SecondFactor

  datatype Try = Try(code: Code, now: int)

  ghost predicate InOrder(tries: seq<Try>) {
    forall i, j :: 0 <= i < j < |tries| ==> tries[i].now <= tries[j].now
  }

  ghost predicate NotBefore(tries: seq<Try>, t: int) {
    forall i :: 0 <= i < |tries| ==> tries[i].now >= t
  }

  /** None of these tries gets in. */
  ghost predicate NoneSucceeds(u: User, tries: seq<Try>, hotp: Hotp)
    decreases |tries|
  {
    tries == [] ||
      (!Passes(u, tries[0].code, tries[0].now, hotp) &&
      NoneSucceeds(Checked(u, tries[0].code, tries[0].now, hotp), tries[1..], hotp))
  }

  /** Wrong codes looked at from `start` on and before `end`. */
  function WrongIn(u: User, tries: seq<Try>, hotp: Hotp, start: int, end: int): nat
    decreases |tries|
  {
    if tries == [] then 0 else
      var t := tries[0];
      (if start <= t.now < end && CheckedWrong(u, t.code, t.now, hotp) then 1 else 0)
        + WrongIn(Checked(u, t.code, t.now, hotp), tries[1..], hotp, start, end)
  }

  /** Lock periods begun in a stretch of time. */
  function Periods(ms: int): int { (ms + LOCK_MS - 1) / LOCK_MS }

  /** The earliest a code can next be looked at. */
  function Earliest(u: User, t: int): int {
    if u.lockedUntil.Some? && u.lockedUntil.value > t then u.lockedUntil.value else t
  }

  /** The most wrong codes that can still be looked at before `end`. */
  function Room(u: User, t: int, end: int): int {
    if Earliest(u, t) >= end then 0 else MAX_FAILED * Periods(end - Earliest(u, t)) - u.failures
  }

  /** One wrong code looked at uses up one. */
  lemma WrongUsesRoom(u: User, t: int, end: int, now: int)
    requires u.failures < MAX_FAILED && t <= now < end && !Locked(u, now)
    ensures 1 + Room(AfterWrong(u, u.failures, now), now, end) <= Room(u, t, end)
  {
    assert Earliest(u, t) <= now;
    assert Periods(end - now) <= Periods(end - Earliest(u, t));
    if u.failures + 1 >= MAX_FAILED {
      assert Periods(end - now) == Periods(end - now - LOCK_MS) + 1;
    }
  }

  lemma RoomShrinks(u: User, t: int, now: int, end: int)
    requires u.failures < MAX_FAILED && t <= now
    ensures 0 <= Room(u, now, end) <= Room(u, t, end)
  {
    assert Earliest(u, t) <= Earliest(u, now);
    if Earliest(u, now) < end {
      assert 1 <= Periods(end - Earliest(u, now)) <= Periods(end - Earliest(u, t));
    }
  }

  lemma {:induction false} WithinRoom(u: User, tries: seq<Try>, hotp: Hotp, start: int, t: int, end: int)
    requires InOrder(tries) && start <= t && NotBefore(tries, t) && u.failures < MAX_FAILED &&
      NoneSucceeds(u, tries, hotp)
    ensures WrongIn(u, tries, hotp, start, end) <= Room(u, t, end)
    decreases |tries|
  {
    RoomShrinks(u, t, t, end);
    if tries != [] {
      var first, rest := tries[0], tries[1..];
      assert NotBefore(rest, first.now);
      var after := Checked(u, first.code, first.now, hotp);
      WithinRoom(after, rest, hotp, start, first.now, end);
      if CheckedWrong(u, first.code, first.now, hotp) {
        if first.now < end {
          WrongUsesRoom(u, t, end, first.now);
        }
      } else {
        RoomShrinks(u, t, first.now, end);
      }
    }
  }

  /**
   * In any half-open stretch of `k` lock periods, at most `5 * k` wrong codes are looked at,
   * whatever the row said before.
   */
  lemma {:induction false} AtMostFivePerPeriod(u: User, tries: seq<Try>, hotp: Hotp, start: int, k: nat)
    requires InOrder(tries) && u.failures < MAX_FAILED && NoneSucceeds(u, tries, hotp)
    ensures WrongIn(u, tries, hotp, start, start + k * LOCK_MS) <= MAX_FAILED * k
    decreases |tries|
  {
    var end := start + k * LOCK_MS;
    if tries != [] && tries[0].now < start {
      AtMostFivePerPeriod(Checked(u, tries[0].code, tries[0].now, hotp), tries[1..], hotp, start, k);
    } else {
      WithinRoom(u, tries, hotp, start, start, end);
      WholePeriods(k);
      if Earliest(u, start) < end {
        assert Periods(end - Earliest(u, start)) <= Periods(k * LOCK_MS);
      }
    }
  }

  lemma WholePeriods(k: nat)
    ensures Periods(k * LOCK_MS) == k
  {
  }

  ghost predicate BelowFive(w: World) {
    w.user.failures < MAX_FAILED && forall q :: q in w.requests ==> w.requests[q].seen < MAX_FAILED
  }

  lemma StepKeepsBelowFive(w: World, s: Step, hotp: Hotp)
    requires BelowFive(w)
    ensures BelowFive(Apply(w, s, hotp))
  {
  }

  /** The count of failures the bound starts from is below five in every run, interleaved or not. */
  lemma {:induction false} FailuresBelowFive(steps: seq<Step>, hotp: Hotp)
    ensures BelowFive(Run(steps, hotp))
    decreases |steps|
  {
    if steps != [] {
      FailuresBelowFive(steps[..|steps| - 1], hotp);
      StepKeepsBelowFive(Run(steps[..|steps| - 1], hotp), steps[|steps| - 1], hotp);
    }
  }
}
