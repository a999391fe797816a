/** What one check of a second factor comes to, in minutes and tries. */
module CodeChecks {
  import opened Wrappers
  import opened SecondFactor

  /** The code is the one shown in this half-minute or a neighbouring one, and that one was not used yet. */
  ghost predicate ShownAt(hotp: Hotp, secret: nat, text: string, now: int, last: Option<int>, step: int) {
    now / 30_000 - 1 <= step <= now / 30_000 + 1 && (last.Some? ==> last.value < step) && hotp(secret, step) == text
  }

  /** The second step is set up and not paused. */
  ghost predicate Asks(u: User, now: int) {
    u.enabled && u.secret.Some? && (u.lockedUntil.Some? ==> u.lockedUntil.value <= now)
  }

  /** A code shown and unused, or a recovery code not spent. */
  ghost predicate Right(u: User, code: Code, now: int, hotp: Hotp) {
    match code
    case Digits(text) => u.secret.Some? && exists step :: ShownAt(hotp, u.secret.value, text, now, u.lastStep, step)
    case Recovery(hash) => hash in u.codes
    case Other => false
  }

  lemma MatchingIff(hotp: Hotp, secret: nat, text: string, now: int, last: Option<int>)
    ensures var r := Matching(hotp, secret, text, now, last);
      && (r.Some? <==> exists step :: ShownAt(hotp, secret, text, now, last, step))
      && (r.Some? ==> ShownAt(hotp, secret, text, now, last, r.value))
      && forall step :: ShownAt(hotp, secret, text, now, last, step) ==> r.Some? && r.value <= step
  {
    FirstFromIsEarliest(hotp, secret, text, now, last, StepAt(now) - WINDOW);
    var r := Matching(hotp, secret, text, now, last);
    forall step
      ensures ShownAt(hotp, secret, text, now, last, step) <==> Acceptable(hotp, secret, text, now, last, step) {}
    if r.Some? {
      assert ShownAt(hotp, secret, text, now, last, r.value);
    }
  }

  /** Only what guards against wrong codes differs. */
  ghost predicate SameSecrets(u: User, after: User) {
    after.enabled == u.enabled && after.secret == u.secret && after.lastStep == u.lastStep && after.codes == u.codes
  }

  lemma PassesIff(u: User, code: Code, now: int, hotp: Hotp)
    ensures Passes(u, code, now, hotp) <==> Asks(u, now) && Right(u, code, now, hotp)
  {
    if code.Digits? && u.secret.Some? {
      MatchingIff(hotp, u.secret.value, code.text, now, u.lastStep);
    }
  }

  /** A wrong code counts, and the fifth in a row pauses the second step for a quarter of an hour. */
  lemma WrongCodeOutcome(u: User, code: Code, now: int, hotp: Hotp)
    requires Asks(u, now) && !Right(u, code, now, hotp)
    ensures var after := Checked(u, code, now, hotp);
      && SameSecrets(u, after)
      && if u.failures < 4 then after.failures == u.failures + 1 && after.lockedUntil == u.lockedUntil
         else after.failures == 0 && after.lockedUntil == Some(now + 900_000)
  {
    PassesIff(u, code, now, hotp);
  }

  /** While it is paused, or not set up, no code is looked at, right or wrong. */
  lemma NothingLookedAt(u: User, code: Code, now: int, hotp: Hotp)
    requires !Asks(u, now)
    ensures Checked(u, code, now, hotp) == u && !Passes(u, code, now, hotp)
  {
  }

  /** A right code of an authenticator clears the count and the pause, and uses up its half-minute and all before. */
  lemma RightDigitsOutcome(u: User, text: string, now: int, hotp: Hotp)
    requires Asks(u, now) && Right(u, Digits(text), now, hotp)
    ensures var after := Checked(u, Digits(text), now, hotp);
      && after.failures == 0 && after.lockedUntil == None && after.lastStep.Some?
      && after.enabled && after.secret == u.secret && after.codes == u.codes
      && ShownAt(hotp, u.secret.value, text, now, u.lastStep, after.lastStep.value)
      && forall step :: ShownAt(hotp, u.secret.value, text, now, u.lastStep, step) ==> after.lastStep.value <= step
  {
    MatchingIff(hotp, u.secret.value, text, now, u.lastStep);
    PassesIff(u, Digits(text), now, hotp);
  }

  /** A recovery code clears them too, and is spent: it never passes again, the others as before. */
  lemma RecoveryOutcome(u: User, hash: nat, now: int, later: int, hotp: Hotp)
    requires Asks(u, now) && hash in u.codes
    ensures var after := Checked(u, Recovery(hash), now, hotp);
      && after.failures == 0 && after.lockedUntil == None
      && after.enabled && after.secret == u.secret && after.lastStep == u.lastStep
      && (forall c :: c in after.codes <==> c in u.codes && c != hash)
      && !Passes(after, Recovery(hash), later, hotp)
  {
  }

  /** Setting up succeeds with a code shown now, and starts with a clean count and a new sheet of recovery codes. */
  lemma EnableOutcome(w: World, text: string, now: int, codes: seq<nat>, hotp: Hotp)
    ensures var after := Apply(w, Enable(text, now, codes), hotp);
      if !w.user.enabled && w.user.secret.Some? && exists step ::
        ShownAt(hotp, w.user.secret.value, text, now, None, step)
      then
        && after.user.enabled && after.user.secret == w.user.secret && after.user.codes == codes
        && after.user.failures == 0 && after.user.lockedUntil == None
        && after.user.lastStep.Some? && ShownAt(hotp, w.user.secret.value, text, now, None, after.user.lastStep.value)
      else after == w
  {
    if w.user.secret.Some? {
      MatchingIff(hotp, w.user.secret.value, text, now, None);
    }
  }

  /**
   * A new secret may be set up only while the second step is off, and starts with a clean count; switching it off
   * forgets everything; a new sheet of recovery codes takes the place of the old.
   */
  lemma SetupOutcome(w: World, secret: nat, codes: seq<nat>, hotp: Hotp)
    ensures Apply(w, BeginSetup(secret), hotp).user ==
      if w.user.enabled then w.user else User(false, Some(secret), None, 0, None, w.user.codes)
    ensures Apply(w, Clear, hotp).user == User(false, None, None, 0, None, [])
    ensures Apply(w, Regenerate(codes), hotp).user ==
      User(w.user.enabled, w.user.secret, w.user.lastStep, w.user.failures, w.user.lockedUntil, codes)
    ensures forall s | s in {BeginSetup(secret), Clear, Regenerate(codes)} ::
      Apply(w, s, hotp).accepted == w.accepted && Apply(w, s, hotp).requests == w.requests
  {
  }

  // ----- wrong codes in a row -----

  /** The row after checking these codes in turn. */
  ghost function InTurn(u: User, tries: seq<(Code, int)>, hotp: Hotp): User
    decreases |tries|
  {
    if tries == [] then u else
      var n := |tries| - 1;
      Checked(InTurn(u, tries[..n], hotp), tries[n].0, tries[n].1, hotp)
  }

  ghost predicate WrongAt(u: User, tries: seq<(Code, int)>, hotp: Hotp, k: nat)
    requires k < |tries|
  {
    Asks(u, tries[k].1) && !Right(u, tries[k].0, tries[k].1, hotp)
  }

  /** Four wrong codes from a clean count only count; whatever the codes, the fifth pauses. */
  lemma {:induction false} WrongInARow(u: User, tries: seq<(Code, int)>, hotp: Hotp)
    requires u.failures == 0 && |tries| <= 5
    requires forall k: nat {:trigger WrongAt(u, tries, hotp, k)} :: k < |tries| ==> WrongAt(u, tries, hotp, k)
    ensures var after := InTurn(u, tries, hotp);
      && SameSecrets(u, after)
      && if |tries| < 5 then after.failures == |tries| && after.lockedUntil == u.lockedUntil
         else after.failures == 0 && after.lockedUntil == Some(tries[4].1 + 900_000)
    decreases |tries|
  {
    if tries != [] {
      var n := |tries| - 1;
      var front := tries[..n];
      forall k: nat | k < n ensures WrongAt(u, front, hotp, k) {
        assert WrongAt(u, tries, hotp, k);
      }
      WrongInARow(u, front, hotp);
      assert WrongAt(u, tries, hotp, n);
      var before := InTurn(u, front, hotp);
      WrongCodeOutcome(before, tries[n].0, tries[n].1, hotp);
    }
  }
}
