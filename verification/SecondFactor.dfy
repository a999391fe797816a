/**
 * The second step of signing in: one-time codes (section 5.2 of RFC 6238), recovery codes, and the
 * pause after wrong ones.
 */
module SecondFactor {
  import opened Wrappers

  const STEP_MS: int := 30_000
  const WINDOW: int := 1
  const MAX_FAILED: nat := 5
  const LOCK_MS: int := 900_000

  // ----- one-time codes -----

  function StepAt(now: int): int { now / STEP_MS }

  /** The code an authenticator shows for a secret at a time step. */
  type Hotp = (nat, int) -> string

  predicate Unused(step: int, last: Option<int>) {
    last.None? || step > last.value
  }

  /** A step of the window not used yet whose code this is. */
  predicate Acceptable(hotp: Hotp, secret: nat, text: string, now: int, last: Option<int>, step: int) {
    StepAt(now) - WINDOW <= step <= StepAt(now) + WINDOW && Unused(step, last) && hotp(secret, step) == text
  }

  function FirstFrom(hotp: Hotp, secret: nat, text: string, now: int, last: Option<int>, step: int): Option<int>
    decreases StepAt(now) + WINDOW - step
  {
    if step > StepAt(now) + WINDOW then None
    else if Unused(step, last) && hotp(secret, step) == text then Some(step)
    else FirstFrom(hotp, secret, text, now, last, step + 1)
  }

  function Matching(hotp: Hotp, secret: nat, text: string, now: int, last: Option<int>): Option<int> {
    FirstFrom(hotp, secret, text, now, last, StepAt(now) - WINDOW)
  }

  lemma FirstFromIsEarliest(hotp: Hotp, secret: nat, text: string, now: int, last: Option<int>, step: int)
    requires step >= StepAt(now) - WINDOW
    ensures var r := FirstFrom(hotp, secret, text, now, last, step);
      && (r.Some? ==> r.value >= step && Acceptable(hotp, secret, text, now, last, r.value))
      && (forall s {:trigger Acceptable(hotp, secret, text, now, last, s)} ::
        s >= step && Acceptable(hotp, secret, text, now, last, s) ==> r.Some? && r.value <= s)
    decreases StepAt(now) + WINDOW - step
  {
    if step <= StepAt(now) + WINDOW {
      FirstFromIsEarliest(hotp, secret, text, now, last, step + 1);
    }
  }

  /** The earliest acceptable step, and none only where there is none. */
  method VerifyTotp(hotp: Hotp, secret: nat, text: string, now: int, last: Option<int>) returns (r: Option<int>)
    ensures r == Matching(hotp, secret, text, now, last)
    ensures r.Some? ==> Acceptable(hotp, secret, text, now, last, r.value)
    ensures forall s {:trigger Acceptable(hotp, secret, text, now, last, s)} ::
      Acceptable(hotp, secret, text, now, last, s) ==> r.Some? && r.value <= s
  {
    FirstFromIsEarliest(hotp, secret, text, now, last, StepAt(now) - WINDOW);
    var current := StepAt(now);
    var delta := -WINDOW;
    while delta <= WINDOW
      invariant -WINDOW <= delta <= WINDOW + 1
      invariant Matching(hotp, secret, text, now, last) == FirstFrom(hotp, secret, text, now, last, current + delta)
    {
      var step := current + delta;
      if last.Some? && step <= last.value {
        delta := delta + 1;
        continue;
      }
      if hotp(secret, step) == text {
        return Some(step);
      }
      delta := delta + 1;
    }
    r := None;
  }

  // ----- the user's row, and requests against it -----

  datatype User = User(enabled: bool, secret: Option<nat>, lastStep: Option<int>, failures: nat,
      lockedUntil: Option<int>, codes: seq<nat>)

  const CLEARED := User(false, None, None, 0, None, [])

  /** A code as typed: six digits, the hash of something shaped like a recovery code, or neither. */
  datatype Code = Digits(text: string) | Recovery(hash: nat) | Other

  predicate Ready(u: User) { u.enabled && u.secret.Some? }
  predicate Locked(u: User, now: int) { u.lockedUntil.Some? && u.lockedUntil.value > now }

  function Without(codes: seq<nat>, hash: nat): (rest: seq<nat>)
    ensures forall c :: c in rest <==> c in codes && c != hash
  {
    if codes == [] then [] else
      var front, last := codes[..|codes| - 1], codes[|codes| - 1];
      assert codes == front + [last];
      if last == hash then Without(front, hash) else Without(front, hash) + [last]
  }

  function WithStep(u: User, step: int): User { u.(lastStep := Some(step), failures := 0, lockedUntil := None) }
  function WithoutCode(u: User,
      hash: nat): User { u.(codes := Without(u.codes, hash), failures := 0, lockedUntil := None) }

  /** A wrong code: `seen` is the count of failures as it was read. */
  function AfterWrong(u: User, seen: nat, now: int): User {
    if seen + 1 >= MAX_FAILED then u.(failures := 0, lockedUntil := Some(now + LOCK_MS)) else u.(failures := seen + 1)
  }

  /** What a request carries from reading the row to its updates. */
  datatype Request =
    | Claiming(step: int, seen: nat, now: int)
    | Spending(hash: nat, seen: nat, now: int)
    | Failing(seen: nat, now: int)

  /** What was accepted, with how many setups, and how many sheets of recovery codes, had gone before. */
  datatype Accepted = ByStep(step: int, setup: nat) | ByCode(hash: nat, sheet: nat)

  datatype World = World(user: User, requests: map<nat, Request>, accepted: seq<Accepted>, setup: nat, sheet: nat)

  datatype Step =
    | Read(request: nat, code: Code, now: int)
    | Claim(request: nat)
    | Fail(request: nat)
    | BeginSetup(secret: nat)
    | Enable(text: string, now: int, codes: seq<nat>)
    | Clear
    | Regenerate(codes: seq<nat>)

  function AsRead(u: User, code: Code, now: int, hotp: Hotp): Request
    requires Ready(u)
  {
    match code
    case Digits(text) =>
      var step := Matching(hotp, u.secret.value, text, now, u.lastStep);
      if step.Some? then Claiming(step.value, u.failures, now) else Failing(u.failures, now)
    case Recovery(hash) => Spending(hash, u.failures, now)
    case Other => Failing(u.failures, now)
  }

  function Gone(w: World, q: nat): World { w.(requests := w.requests - {q}) }

  /** The conditional update: it accepts only what the row still says is unused. */
  function TryClaim(w: World, q: nat): World
    requires q in w.requests
  {
    match w.requests[q]
    case Claiming(step, seen, now) =>
      if Unused(step, w.user.lastStep) then
        Gone(w, q).(user := WithStep(w.user, step), accepted := w.accepted + [ByStep(step, w.setup)])
      else w.(requests := w.requests[q := Failing(seen, now)])
    case Spending(hash, seen, now) =>
      if hash in w.user.codes then
        Gone(w, q).(user := WithoutCode(w.user, hash), accepted := w.accepted + [ByCode(hash, w.sheet)])
      else w.(requests := w.requests[q := Failing(seen, now)])
    case Failing(_, _) => w
  }

  function Apply(w: World, s: Step, hotp: Hotp): World {
    match s
    case Read(q, code, now) =>
      if !Ready(w.user) || Locked(w.user, now) then Gone(w, q)
        else w.(requests := w.requests[q := AsRead(w.user, code, now, hotp)])
    case Claim(q) => if q in w.requests then TryClaim(w, q) else w
    case Fail(q) =>
      if q in w.requests && w.requests[q].Failing? then
        Gone(w, q).(user := AfterWrong(w.user, w.requests[q].seen, w.requests[q].now)) else w
    case BeginSetup(secret) =>
      if w.user.enabled then w
      else w.(user := w.user.(secret := Some(secret), lastStep := None, failures := 0, lockedUntil := None),
        setup := w.setup + 1)
    case Enable(text, now, codes) =>
      if w.user.enabled || w.user.secret.None? then w
      else
        var step := Matching(hotp, w.user.secret.value, text, now, None);
        if step.None? then w
        else w.(user := User(true, w.user.secret, step, 0, None, codes), setup := w.setup + 1, sheet := w.sheet + 1,
                accepted := w.accepted + [ByStep(step.value, w.setup + 1)])
    case Clear => w.(user := CLEARED, setup := w.setup + 1, sheet := w.sheet + 1)
    case Regenerate(codes) => w.(user := w.user.(codes := codes), sheet := w.sheet + 1)
  }

  const START := World(CLEARED, map[], [], 0, 0)

  function Run(steps: seq<Step>, hotp: Hotp): World
    decreases |steps|
  {
    if steps == [] then START else Apply(Run(steps[..|steps| - 1], hotp), steps[|steps| - 1], hotp)
  }

  // ----- a code works once -----

  /**
   * An acceptance belongs to the setup or sheet it says; of the current one, its step is behind
   * and its code is gone.
   */
  ghost predicate Used(w: World, a: Accepted) {
    match a
    case ByStep(step, setup) =>
      setup <= w.setup && (setup == w.setup ==> w.user.lastStep.Some? && step <= w.user.lastStep.value)
    case ByCode(hash, sheet) => sheet <= w.sheet && (sheet == w.sheet ==> hash !in w.user.codes)
  }

  /** `b`, accepted after `a`, is not the same code again. */
  ghost predicate NotAgain(a: Accepted, b: Accepted) {
    && (a.ByStep? && b.ByStep? && a.setup == b.setup ==> a.step < b.step)
    && (a.ByCode? && b.ByCode? && a.sheet == b.sheet ==> a.hash != b.hash)
  }

  ghost predicate Inv(w: World) {
    && (forall i {:trigger Used(w, w.accepted[i])} :: 0 <= i < |w.accepted| ==> Used(w, w.accepted[i]))
    && (forall i, j {:trigger NotAgain(w.accepted[i], w.accepted[j])} ::
      0 <= i < j < |w.accepted| ==> NotAgain(w.accepted[i], w.accepted[j]))
  }

  lemma StepKeepsUsed(w: World, s: Step, hotp: Hotp, a: Accepted)
    requires Used(w, a)
    ensures Used(Apply(w, s, hotp), a)
  {
  }

  /** A step accepts one code at most; it is used from then on, and was not before. */
  lemma AcceptedIsNew(w: World, s: Step, hotp: Hotp)
    ensures var after := Apply(w, s, hotp).accepted;
      after == w.accepted || (|after| == |w.accepted| + 1 && after[..|w.accepted|] == w.accepted)
    ensures var after := Apply(w, s, hotp); after.accepted != w.accepted ==>
      Used(after, after.accepted[|w.accepted|]) && forall a {:trigger Used(w, a)} ::
        Used(w, a) ==> NotAgain(a, after.accepted[|w.accepted|])
  {
  }

  lemma StepKeepsInv(w: World, s: Step, hotp: Hotp)
    requires Inv(w)
    ensures Inv(Apply(w, s, hotp))
  {
    var after := Apply(w, s, hotp);
    AcceptedIsNew(w, s, hotp);
    forall i | 0 <= i < |after.accepted| ensures Used(after, after.accepted[i]) {
      if i < |w.accepted| {
        assert after.accepted[i] == w.accepted[i] && Used(w, w.accepted[i]);
        StepKeepsUsed(w, s, hotp, w.accepted[i]);
      }
    }
    forall i, j | 0 <= i < j < |after.accepted| ensures NotAgain(after.accepted[i], after.accepted[j]) {
      assert after.accepted[i] == w.accepted[i] && Used(w, w.accepted[i]);
      if j < |w.accepted| {
        assert after.accepted[j] == w.accepted[j] && NotAgain(w.accepted[i], w.accepted[j]);
      }
    }
  }

  lemma {:induction false} RunKeepsInv(steps: seq<Step>, hotp: Hotp)
    ensures Inv(Run(steps, hotp))
    decreases |steps|
  {
    if steps != [] {
      RunKeepsInv(steps[..|steps| - 1], hotp);
      StepKeepsInv(Run(steps[..|steps| - 1], hotp), steps[|steps| - 1], hotp);
    }
  }

  /**
   * However requests interleave, within one setup the accepted time steps strictly increase, from
   * the one that switched it on.
   */
  lemma AcceptedStepsIncrease(steps: seq<Step>, hotp: Hotp, i: nat, j: nat)
    requires var log := Run(steps, hotp).accepted;
      i < j < |log| && log[i].ByStep? && log[j].ByStep? && log[i].setup == log[j].setup
    ensures Run(steps, hotp).accepted[i].step < Run(steps, hotp).accepted[j].step
  {
    RunKeepsInv(steps, hotp);
    var log := Run(steps, hotp).accepted;
    assert NotAgain(log[i], log[j]);
  }

  /** However requests interleave, each recovery code of a sheet is accepted at most once. */
  lemma RecoveryCodesWorkOnce(steps: seq<Step>, hotp: Hotp, i: nat, j: nat)
    requires var log := Run(steps, hotp).accepted;
      i < j < |log| && log[i].ByCode? && log[j].ByCode? && log[i].sheet == log[j].sheet
    ensures Run(steps, hotp).accepted[i].hash != Run(steps, hotp).accepted[j].hash
  {
    RunKeepsInv(steps, hotp);
    var log := Run(steps, hotp).accepted;
    assert NotAgain(log[i], log[j]);
  }

  // ----- one check, start to finish -----

  datatype Result = Accept(factor: string) | Refuse(lockedUntil: Option<int>, attemptsLeft: int)

  predicate Passes(u: User, code: Code, now: int, hotp: Hotp) {
    Ready(u) && !Locked(u, now) &&
    match code
    case Digits(text) => Matching(hotp, u.secret.value, text, now, u.lastStep).Some?
    case Recovery(hash) => hash in u.codes
    case Other => false
  }

  /** A code looked at and found wrong; nothing is looked at while the second step is paused. */
  predicate CheckedWrong(u: User, code: Code, now: int, hotp: Hotp) {
    Ready(u) && !Locked(u, now) && !Passes(u, code, now, hotp)
  }

  function Checked(u: User, code: Code, now: int, hotp: Hotp): User {
    if !Ready(u) || Locked(u, now) then u
    else if !Passes(u, code, now, hotp) then AfterWrong(u, u.failures, now)
    else if code.Digits? then WithStep(u, Matching(hotp, u.secret.value, code.text, now, u.lastStep).value)
    else WithoutCode(u, code.hash)
  }

  /** Undisturbed, a request's three steps come to one check. */
  lemma UndisturbedIsOneCheck(w: World, q: nat, code: Code, now: int, hotp: Hotp)
    ensures Apply(Apply(Apply(w, Read(q, code, now), hotp), Claim(q), hotp), Fail(q), hotp).user ==
      Checked(w.user, code, now, hotp)
    ensures |Apply(Apply(Apply(w, Read(q, code, now), hotp), Claim(q), hotp), Fail(q), hotp).accepted| ==
      |w.accepted| + if Passes(w.user, code, now, hotp) then 1 else 0
  {
    if Ready(w.user) && code.Digits? {
      var step := Matching(hotp, w.user.secret.value, code.text, now, w.user.lastStep);
      FirstFromIsEarliest(hotp, w.user.secret.value, code.text, now, w.user.lastStep, StepAt(now) - WINDOW);
      assert step.Some? ==> Acceptable(hotp, w.user.secret.value, code.text, now, w.user.lastStep, step.value);
    }
  }

  class Account {
    var user: User

    constructor ()
      ensures user == CLEARED
    {
      user := CLEARED;
    }

    method CheckSecondFactor(code: Code, now: int, hotp: Hotp) returns (result: Result)
      modifies this
      ensures user == Checked(old(user), code, now, hotp)
      ensures result.Accept? <==> Passes(old(user), code, now, hotp)
      ensures result.Accept? ==> result == Accept(if code.Digits? then "totp" else "recovery")
      ensures !Ready(old(user)) ==> result == Refuse(None, 0)
      ensures result.Refuse? && Locked(old(user), now) && Ready(old(user)) ==>
        result == Refuse(old(user).lockedUntil, 0)
      ensures CheckedWrong(old(user), code, now, hotp) ==>
        result == if Locked(user, now) then Refuse(user.lockedUntil, 0) else Refuse(None, MAX_FAILED - user.failures)
    {
      if !user.enabled || user.secret.None? {
        return Refuse(None, 0);
      }
      if user.lockedUntil.Some? && user.lockedUntil.value > now {
        return Refuse(user.lockedUntil, 0);
      }
      if code.Digits? {
        var step := VerifyTotp(hotp, user.secret.value, code.text, now, user.lastStep);
        if step.Some? && Unused(step.value, user.lastStep) {
          user := user.(lastStep := step, failures := 0, lockedUntil := None);
          return Accept("totp");
        }
      } else if code.Recovery? {
        if code.hash in user.codes {
          user := user.(codes := Without(user.codes, code.hash), failures := 0, lockedUntil := None);
          return Accept("recovery");
        }
      }
      var failures := user.failures + 1;
      if failures >= MAX_FAILED {
        user := user.(failures := 0, lockedUntil := Some(now + LOCK_MS));
        return Refuse(user.lockedUntil, 0);
      }
      user := user.(failures := failures);
      result := Refuse(None, MAX_FAILED - failures);
    }
  }
}
