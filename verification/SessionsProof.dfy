/** What every interleaving of sign-ins, renewals, sign-outs and new passwords keeps. */
module SessionsProof {
  import opened Wrappers
  import opened Sessions

  // ----- tokens -----

  /** A token belongs to a sign-in made already; if it renews one, that one is over and was of the same sign-in. */
  ghost predicate Rooted(t: Tables, i: nat)
    requires i < |t.tokens|
  {
    var k := t.tokens[i];
    k.signIn < t.signIns &&
    (k.renews.Some? ==>
       var j := k.renews.value;
       j < i && t.tokens[j].revoked && t.tokens[j].signIn == k.signIn && t.tokens[j].user == k.user)
  }

  /** Tokens of one sign-in are one person's, at most one is live, and no two renew the same one. */
  ghost predicate Apart(t: Tables, i: nat, j: nat)
    requires i < |t.tokens| && j < |t.tokens|
  {
    var a, b := t.tokens[i], t.tokens[j];
    && (a.signIn == b.signIn ==> a.user == b.user && (a.revoked || b.revoked))
    && (a.renews.Some? ==> a.renews != b.renews)
  }

  ghost predicate TokensInv(t: Tables) {
    && (forall i: nat {:trigger Rooted(t, i)} :: i < |t.tokens| ==> Rooted(t, i))
    && (forall i: nat, j: nat {:trigger Apart(t, i, j)} :: i < j < |t.tokens| ==> Apart(t, i, j))
  }

  /** A claimed token is live; a request under way names tokens there are. */
  ghost predicate RequestSound(t: Tables, q: nat)
    requires q in t.requests
  {
    match t.requests[q]
    case Claimed(k) => Live(t, k)
    case Showing(k) => k < |t.tokens|
    case Ending(held, whose, seen, _) =>
      seen <= |t.tokens| && (held.Some? ==> held.value < seen && whose == OfSignIn(t.tokens[held.value].signIn))
    case _ => true
  }

  /** No two requests hold the same token. */
  ghost predicate HeldOnce(t: Tables, p: nat, q: nat)
    requires p in t.requests && q in t.requests
  {
    forall k: nat :: Holds(t.requests[p], k) && Holds(t.requests[q], k) ==> p == q
  }

  ghost predicate RequestsInv(t: Tables) {
    && (forall q {:trigger RequestSound(t, q)} :: q in t.requests ==> RequestSound(t, q))
    && (forall p, q {:trigger HeldOnce(t, p, q)} :: p in t.requests && q in t.requests ==> HeldOnce(t, p, q))
  }

  ghost predicate Inv(t: Tables) { TokensInv(t) && RequestsInv(t) }

  /** `after` is `t` with some tokens ended. */
  ghost predicate OnlyEnds(t: Tables, after: Tables) {
    && |after.tokens| == |t.tokens| && after.signIns == t.signIns
    && forall i {:trigger after.tokens[i]} :: 0 <= i < |t.tokens| ==>
         after.tokens[i] == t.tokens[i].(revoked := after.tokens[i].revoked) &&
           (t.tokens[i].revoked ==> after.tokens[i].revoked)
  }

  lemma EndingKeepsTokens(t: Tables, after: Tables)
    requires TokensInv(t) && OnlyEnds(t, after)
    ensures TokensInv(after)
  {
    forall i: nat | i < |after.tokens| ensures Rooted(after, i) {
      assert Rooted(t, i);
    }
    forall i: nat, j: nat | i < j < |after.tokens| ensures Apart(after, i, j) {
      assert Apart(t, i, j);
    }
  }

  lemma NewSessionKeepsTokens(t: Tables, user: nat, expiresAt: int)
    requires TokensInv(t)
    ensures TokensInv(NewSession(t, user, expiresAt))
  {
    var after := NewSession(t, user, expiresAt);
    forall i: nat | i < |after.tokens| ensures Rooted(after, i) {
      assert i < |t.tokens| ==> Rooted(t, i);
    }
    forall i: nat, j: nat | i < j < |after.tokens| ensures Apart(after, i, j) {
      assert Rooted(t, i);
      assert j < |t.tokens| ==> Apart(t, i, j);
    }
  }

  /** Nothing renews a token that is live. */
  lemma LiveIsNotRenewed(t: Tables, k: nat, i: nat)
    requires TokensInv(t) && Live(t, k) && i < |t.tokens|
    ensures t.tokens[i].renews != Some(k)
  {
    assert Rooted(t, i);
  }

  lemma RenewedKeepsTokens(t: Tables, k: nat, expiresAt: int)
    requires TokensInv(t) && Live(t, k)
    ensures TokensInv(Renewed(t, k, expiresAt))
  {
    var after := Renewed(t, k, expiresAt);
    forall i: nat | i < |after.tokens| ensures Rooted(after, i) {
      assert Rooted(t, k) && (i < |t.tokens| ==> Rooted(t, i));
    }
    forall i: nat, j: nat | i < j < |after.tokens| ensures Apart(after, i, j) {
      if j < |t.tokens| {
        assert Apart(t, i, j);
      } else {
        LiveIsNotRenewed(t, k, i);
        assert (i < k ==> Apart(t, i, k)) && (k < i ==> Apart(t, k, i));
      }
    }
  }

  lemma FinishedKeepsTokens(t: Tables, q: nat)
    requires TokensInv(t) && q in t.requests && t.requests[q].Ending?
    ensures TokensInv(Finished(t, q))
  {
    var r := t.requests[q];
    var ended := Done(t, q).(tokens := Ended(t.tokens, r.whose, r.seen));
    EndingKeepsTokens(t, ended);
    if r.whose.OfUser? {
      var all := ended.(links := EndLinks(t.links, r.whose.user));
      EndingKeepsTokens(t, all);
      if r.session.Some? {
        NewSessionKeepsTokens(all, r.whose.user, r.session.value);
      }
    }
  }

  lemma StepKeepsTokens(t: Tables, s: Step)
    requires Inv(t)
    ensures TokensInv(Apply(t, s))
  {
    if s.SignIn? {
      NewSessionKeepsTokens(t, s.user, s.expiresAt);
    } else if s.InsertSuccessor? && s.request in t.requests && t.requests[s.request].Claimed? {
      assert RequestSound(t, s.request);
      EndingKeepsTokens(t, Done(t, s.request));
      RenewedKeepsTokens(Done(t, s.request), t.requests[s.request].token, s.expiresAt);
    } else if s.EndTokens? && s.request in t.requests && t.requests[s.request].Ending? {
      FinishedKeepsTokens(t, s.request);
    } else {
      EndingKeepsTokens(t, Apply(t, s));
    }
  }

  // ----- requests -----

  /** A claimed token is ended by nobody but its claimant. */
  lemma ClaimedStaysLive(t: Tables, s: Step, q: nat, k: nat)
    requires Inv(t) && q in t.requests && Holds(t.requests[q], k) && Live(t, k)
    requires q in Apply(t, s).requests && Holds(Apply(t, s).requests[q], k)
    ensures Live(Apply(t, s), k)
  {
    if GoesOn(s) && s.request in t.requests && s.request != q {
      assert HeldOnce(t, s.request, q);
      assert HeldByOther(t, s.request, k);
    }
  }

  lemma BeginKeepsSound(t: Tables, s: Step, q: nat)
    requires Inv(t) && q in Begin(t, s).requests
    ensures RequestSound(Begin(t, s), q)
  {
    if q in t.requests {
      assert RequestSound(t, q);
    }
  }

  lemma GoOnKeepsSound(t: Tables, s: Step, p: nat, q: nat)
    requires Inv(t) && GoesOn(s) && s.request == p && p in t.requests && q in GoOn(t, s, p).requests
    ensures RequestSound(GoOn(t, s, p), q)
  {
    assert q in t.requests && RequestSound(t, q);
    if t.requests[q].Claimed? && GoOn(t, s, p).requests[q].Claimed? {
      ClaimedStaysLive(t, s, q, t.requests[q].token);
    }
  }

  lemma StepKeepsSound(t: Tables, s: Step, q: nat)
    requires Inv(t) && q in Apply(t, s).requests
    ensures RequestSound(Apply(t, s), q)
  {
    if !GoesOn(s) {
      BeginKeepsSound(t, s, q);
    } else if s.request in t.requests {
      GoOnKeepsSound(t, s, s.request, q);
    } else {
      assert RequestSound(t, q);
    }
  }

  lemma StepKeepsHeldOnce(t: Tables, s: Step, p: nat, q: nat)
    requires Inv(t) && p in Apply(t, s).requests && q in Apply(t, s).requests
    ensures HeldOnce(Apply(t, s), p, q)
  {
    assert p in t.requests && q in t.requests ==> HeldOnce(t, p, q);
  }

  lemma StepKeepsInv(t: Tables, s: Step)
    requires Inv(t)
    ensures Inv(Apply(t, s))
  {
    StepKeepsTokens(t, s);
    forall q | q in Apply(t, s).requests ensures RequestSound(Apply(t, s), q) {
      StepKeepsSound(t, s, q);
    }
    forall p, q | p in Apply(t, s).requests && q in Apply(t, s).requests ensures HeldOnce(Apply(t, s), p, q) {
      StepKeepsHeldOnce(t, s, p, q);
    }
  }

  lemma {:induction false} RunKeepsInv(steps: seq<Step>)
    ensures Inv(Run(steps))
    decreases |steps|
  {
    if steps != [] {
      RunKeepsInv(steps[..|steps| - 1]);
      StepKeepsInv(Run(steps[..|steps| - 1]), steps[|steps| - 1]);
    }
  }

  // ----- the promises about tokens -----

  /** A sign-in never has two tokens that work. */
  lemma OneLiveTokenPerSignIn(steps: seq<Step>, i: nat, j: nat)
    requires var t := Run(steps); Live(t, i) && Live(t, j) && t.tokens[i].signIn == t.tokens[j].signIn
    ensures i == j
  {
    RunKeepsInv(steps);
    var t := Run(steps);
    assert (i < j ==> Apart(t, i, j)) && (j < i ==> Apart(t, j, i));
  }

  /** However requests race, a token is renewed at most once. */
  lemma RenewedOnce(steps: seq<Step>, i: nat, j: nat)
    requires var t := Run(steps);
      i < |t.tokens| && j < |t.tokens| && t.tokens[i].renews.Some? && t.tokens[i].renews == t.tokens[j].renews
    ensures i == j
  {
    RunKeepsInv(steps);
    var t := Run(steps);
    assert (i < j ==> Apart(t, i, j)) && (j < i ==> Apart(t, j, i));
  }

  /** No token of this sign-in works. */
  ghost predicate Over(t: Tables, signIn: nat) {
    forall i: nat {:trigger Live(t, i)} :: Live(t, i) ==> t.tokens[i].signIn != signIn
  }

  lemma OverStaysOneStep(t: Tables, s: Step, signIn: nat)
    requires Inv(t) && Over(t, signIn) && signIn < t.signIns
    ensures Over(Apply(t, s), signIn) && signIn < Apply(t, s).signIns
  {
    var after := Apply(t, s);
    if s.InsertSuccessor? && s.request in t.requests {
      assert RequestSound(t, s.request);
    }
    forall i: nat | Live(after, i) ensures after.tokens[i].signIn != signIn {
      if i < |t.tokens| {
        assert Live(t, i);
      }
    }
  }

  /** A sign-in that is over stays over: no request still on its way, whatever it has written, brings it back. */
  lemma {:induction false} OverIsForGood(steps: seq<Step>, n: nat, signIn: nat)
    requires n <= |steps| && Over(Run(steps[..n]), signIn) && signIn < Run(steps[..n]).signIns
    ensures Over(Run(steps), signIn) && signIn < Run(steps).signIns
    decreases |steps|
  {
    if n == |steps| {
      assert steps[..n] == steps;
    } else {
      var front := steps[..|steps| - 1];
      assert front[..n] == steps[..n];
      OverIsForGood(front, n, signIn);
      RunKeepsInv(front);
      OverStaysOneStep(Run(front), steps[|steps| - 1], signIn);
    }
  }

  /** Request `q` is about to end the tokens of this sign-in, among others perhaps, and need not wait. */
  ghost predicate AboutToEnd(t: Tables, q: nat, signIn: nat) {
    && q in t.requests && t.requests[q].Ending? && !MustWait(t, q) && signIn < t.signIns
    && forall i :: 0 <= i < |t.tokens| && t.tokens[i].signIn == signIn ==> Picks(t.requests[q].whose, t.tokens[i])
  }

  /** Every live token of the sign-in was there when the update began. */
  ghost predicate AllSeen(t: Tables, signIn: nat, seen: nat) {
    forall i: nat {:trigger Live(t, i)} :: Live(t, i) && t.tokens[i].signIn == signIn ==> i < seen
  }

  /** An update ends the sign-in exactly when no token of it that works was written since the update began. */
  lemma EndedIff(t: Tables, q: nat, signIn: nat)
    requires AboutToEnd(t, q, signIn)
    ensures Over(Apply(t, EndTokens(q)), signIn) <==> AllSeen(t, signIn, t.requests[q].seen)
    ensures signIn < Apply(t, EndTokens(q)).signIns
  {
    var after, seen := Apply(t, EndTokens(q)), t.requests[q].seen;
    if Over(after, signIn) {
      forall i: nat | Live(t, i) && t.tokens[i].signIn == signIn ensures i < seen {
        assert !Live(after, i);
      }
    }
    if AllSeen(t, signIn, seen) {
      forall i: nat | Live(after, i) ensures after.tokens[i].signIn != signIn {
        assert i < |t.tokens| ==> Live(t, i);
      }
    }
  }

  /** And then for good. */
  lemma {:induction false} EndedForGood(steps: seq<Step>, n: nat, q: nat, signIn: nat)
    requires n < |steps| && steps[n] == EndTokens(q) && AboutToEnd(Run(steps[..n]), q, signIn)
    ensures var t := Run(steps[..n]);
      if AllSeen(t, signIn, t.requests[q].seen) then Over(Run(steps), signIn) else !Over(Run(steps[..n + 1]), signIn)
  {
    var t := Run(steps[..n]);
    OneStepOn(steps, n);
    EndedIff(t, q, signIn);
    if AllSeen(t, signIn, t.requests[q].seen) {
      OverIsForGood(steps, n + 1, signIn);
    }
  }

  // ----- signing out -----

  lemma SignOutIsAboutToEnd(t: Tables, q: nat)
    requires Inv(t) && q in t.requests && t.requests[q].Ending? && t.requests[q].held.Some? && !MustWait(t, q)
    ensures t.requests[q].held.value < |t.tokens| && AboutToEnd(t, q, t.tokens[t.requests[q].held.value].signIn)
  {
    assert RequestSound(t, q);
    assert Rooted(t, t.requests[q].held.value);
  }

  /**
   * From a sign-out on, no token of that sign-in ever works again, if and only if none was written
   * since it looked for them.
   */
  lemma SignedOutForGoodIff(steps: seq<Step>, n: nat, q: nat)
    requires n < |steps| && steps[n] == EndTokens(q)
    requires var t := Run(steps[..n]);
      q in t.requests && t.requests[q].Ending? && t.requests[q].held.Some? && !MustWait(t, q)
    ensures var t := Run(steps[..n]);
      var k := t.requests[q].held.value;
      && k < |t.tokens|
      && if AllSeen(t, t.tokens[k].signIn, t.requests[q].seen) then Over(Run(steps), t.tokens[k].signIn)
         else !Over(Run(steps[..n + 1]), t.tokens[k].signIn)
  {
    var t := Run(steps[..n]);
    RunKeepsInv(steps[..n]);
    SignOutIsAboutToEnd(t, q);
    EndedForGood(steps, n, q, t.tokens[t.requests[q].held.value].signIn);
  }

  lemma LiveHeldIsAllSeen(t: Tables, q: nat)
    requires Inv(t) && q in t.requests && t.requests[q].Ending? && t.requests[q].held.Some? &&
      Live(t, t.requests[q].held.value)
    ensures AllSeen(t, t.tokens[t.requests[q].held.value].signIn, t.requests[q].seen)
  {
    var k := t.requests[q].held.value;
    assert RequestSound(t, q);
    forall i: nat | Live(t, i) && t.tokens[i].signIn == t.tokens[k].signIn ensures i == k {
      assert (i < k ==> Apart(t, i, k)) && (k < i ==> Apart(t, k, i));
    }
  }

  ghost predicate HoldsAt(steps: seq<Step>, i: nat, q: nat, k: nat) {
    i <= |steps| && q in Run(steps[..i]).requests && Holds(Run(steps[..i]).requests[q], k)
  }

  /** The request holds the token at every point from `m` to `n`. */
  ghost predicate HoldsThroughout(steps: seq<Step>, m: nat, n: nat, q: nat, k: nat) {
    m <= n <= |steps| && forall i: nat {:trigger HoldsAt(steps, i, q, k)} :: m <= i <= n ==> HoldsAt(steps, i, q, k)
  }

  lemma {:induction false} HeldStaysLive(steps: seq<Step>, m: nat, n: nat, q: nat, k: nat)
    requires HoldsThroughout(steps, m, n, q, k) && Live(Run(steps[..m]), k)
    ensures Live(Run(steps[..n]), k)
    decreases n
  {
    if m < n {
      HeldStaysLive(steps, m, n - 1, q, k);
      HeldOneStep(steps, n - 1, q, k);
    }
  }

  lemma {:induction false} HeldOneStep(steps: seq<Step>, n: nat, q: nat, k: nat)
    requires n < |steps| && HoldsAt(steps, n, q, k) && HoldsAt(steps, n + 1, q, k) && Live(Run(steps[..n]), k)
    ensures Live(Run(steps[..n + 1]), k)
  {
    OneStepOn(steps, n);
    RunKeepsInv(steps[..n]);
    ClaimedStaysLive(Run(steps[..n]), steps[n], q, k);
  }

  /**
   * Signing out with the token that works always ends the sign-in for good: a renewal that crosses
   * it is waited for, or waits.
   */
  lemma SignedOutForGood(steps: seq<Step>, m: nat, n: nat, q: nat, k: nat)
    requires n < |steps| && HoldsThroughout(steps, m, n, q, k) && Live(Run(steps[..m]), k)
    requires steps[n] == EndTokens(q) && q in Run(steps[..n]).requests && Run(steps[..n]).requests[q].Ending? &&
      !MustWait(Run(steps[..n]), q)
    ensures k < |Run(steps[..n]).tokens| && Over(Run(steps), Run(steps[..n]).tokens[k].signIn)
  {
    HeldStaysLive(steps, m, n, q, k);
    assert HoldsAt(steps, n, q, k);
    RunKeepsInv(steps[..n]);
    LiveHeldIsAllSeen(Run(steps[..n]), q);
    SignedOutForGoodIff(steps, n, q);
  }

  // ----- a new password -----

  lemma NewPasswordIsAboutToEnd(t: Tables, q: nat, i: nat)
    requires Inv(t) && q in t.requests && t.requests[q].Ending? && !t.requests[q].whose.OfSignIn? && !MustWait(t, q)
    requires i < |t.tokens| && t.tokens[i].user == t.requests[q].whose.user
    ensures AboutToEnd(t, q, t.tokens[i].signIn)
  {
    assert Rooted(t, i);
    forall j | 0 <= j < |t.tokens| && t.tokens[j].signIn == t.tokens[i].signIn
      ensures Picks(t.requests[q].whose, t.tokens[j]) {
      assert (i < j ==> Apart(t, i, j)) && (j < i ==> Apart(t, j, i));
    }
  }

  /**
   * From a new password on, or once a person is deactivated, an earlier sign-in of theirs never
   * works again, if and only if no token of it that works was written since the update began.
   */
  lemma NewPasswordEndsForGoodIff(steps: seq<Step>, n: nat, q: nat, i: nat)
    requires n < |steps| && steps[n] == EndTokens(q)
    requires var t := Run(steps[..n]);
      && q in t.requests && t.requests[q].Ending? && !t.requests[q].whose.OfSignIn? && !MustWait(t, q)
      && i < |t.tokens| && t.tokens[i].user == t.requests[q].whose.user
    ensures var t := Run(steps[..n]); var signIn := t.tokens[i].signIn;
      if AllSeen(t, signIn, t.requests[q].seen) then Over(Run(steps), signIn) else !Over(Run(steps[..n + 1]), signIn)
  {
    RunKeepsInv(steps[..n]);
    NewPasswordIsAboutToEnd(Run(steps[..n]), q, i);
    EndedForGood(steps, n, q, Run(steps[..n]).tokens[i].signIn);
  }

  /** The step writes a successor in this sign-in. */
  ghost predicate Continues(t: Tables, s: Step, signIn: nat) {
    |Apply(t, s).tokens| > |t.tokens| && Apply(t, s).tokens[|t.tokens|].signIn == signIn
  }

  lemma StepAppends(t: Tables, s: Step, signIn: nat, i: nat)
    requires signIn < t.signIns && !Continues(t, s, signIn) && |t.tokens| <= i < |Apply(t, s).tokens|
    ensures Apply(t, s).tokens[i].signIn != signIn
  {
  }

  lemma StepKeepsSignIns(t: Tables, s: Step, i: nat)
    requires i < |t.tokens|
    ensures i < |Apply(t, s).tokens| && Apply(t, s).tokens[i].signIn == t.tokens[i].signIn &&
      t.signIns <= Apply(t, s).signIns
  {
  }

  /** Where no successor is written in between, everything that works was there at the start. */
  lemma {:induction false} UncrossedIsAllSeen(steps: seq<Step>, m: nat, n: nat, signIn: nat)
    requires m <= n <= |steps| && signIn < Run(steps[..m]).signIns
    requires forall j: nat {:trigger steps[..j]} :: m <= j < n ==> !Continues(Run(steps[..j]), steps[j], signIn)
    ensures AllSeen(Run(steps[..n]), signIn, |Run(steps[..m]).tokens|) && signIn < Run(steps[..n]).signIns
    decreases n
  {
    if m < n {
      UncrossedIsAllSeen(steps, m, n - 1, signIn);
      OneStepOn(steps, n - 1);
      var t, seen := Run(steps[..n - 1]), |Run(steps[..m]).tokens|;
      assert !Continues(t, steps[n - 1], signIn);
      UncrossedStep(t, steps[n - 1], signIn, seen);
    }
  }

  lemma UncrossedStep(t: Tables, s: Step, signIn: nat, seen: nat)
    requires AllSeen(t, signIn, seen) && signIn < t.signIns && !Continues(t, s, signIn)
    ensures AllSeen(Apply(t, s), signIn, seen) && signIn < Apply(t, s).signIns
  {
    forall i: nat | Live(Apply(t, s), i) && Apply(t, s).tokens[i].signIn == signIn ensures i < seen {
      if i < |t.tokens| {
        StepKeepsSignIns(t, s, i);
        assert Live(t, i);
      } else {
        StepAppends(t, s, signIn, i);
      }
    }
  }

  /**
   * A renewal has retired its token and not yet written the successor when the same person's new
   * password looks for tokens to end.
   */
  function Crossing(): Tables {
    Apply(Apply(Apply(Apply(Apply(EMPTY, SignIn(7, 100)), ReadToken(1, 0, 0)), ClaimToken(1)),
      ChangePassword(2, 7, true, 200)), LookForTokens(2))
  }

  lemma SignedInAndClaimed()
    ensures Apply(Apply(Apply(EMPTY, SignIn(7, 100)), ReadToken(1, 0, 0)), ClaimToken(1))
      == Tables([Token(7, 0, false, 100, None)], [], map[1 := Claimed(0)], [], 1)
  {
    var t1 := Apply(EMPTY, SignIn(7, 100));
    assert t1 == Tables([Token(7, 0, false, 100, None)], [], map[], [], 1);
    var t2 := Apply(t1, ReadToken(1, 0, 0));
    assert t2 == t1.(requests := map[1 := Renewing(0)]);
  }

  lemma CrossingIs()
    ensures Crossing() ==
      Tables([Token(7, 0, false, 100, None)], [], map[1 := Claimed(0), 2 := Ending(None, OfUser(7), 1, Some(200))], [],
        1)
  {
    SignedInAndClaimed();
  }

  lemma PasswordWaits()
    ensures Apply(Crossing(), EndTokens(2)) == Crossing()
  {
    CrossingIs();
    var t := Crossing();
    assert Holds(t.requests[1], 0) && HeldByOther(t, 2, 0) && Live(t, 0);
  }

  lemma SuccessorIsWritten()
    ensures Apply(Crossing(), InsertSuccessor(1, true, 150))
      == Tables([Token(7, 0, true, 100, None), Token(7, 0, false, 150, Some(0))], [],
        map[2 := Ending(None, OfUser(7), 1, Some(200))], [], 1)
  {
    CrossingIs();
  }

  lemma OnlyOldTokenEnds(t: Tables)
    requires t ==
      Tables([Token(7, 0, true, 100, None), Token(7, 0, false, 150, Some(0))], [],
        map[2 := Ending(None, OfUser(7), 1, Some(200))], [], 1)
    ensures var after := Apply(t, EndTokens(2)); Live(after, 1) && after.tokens[1].signIn == 0 && !Over(after, 0)
  {
    assert !MustWait(t, 2);
    var after := Apply(t, EndTokens(2));
    assert after.tokens[1] == t.tokens[1];
    assert Live(after, 1);
  }

  /** Until the successor is written the password waits; then it ends the old token only, and the sign-in goes on. */
  lemma CrossingRenewalSurvives()
    ensures Apply(Crossing(), EndTokens(2)) == Crossing()
    ensures var written := Apply(Crossing(), InsertSuccessor(1, true, 150)); var after := Apply(written, EndTokens(2));
      Live(after, 1) && after.tokens[1].signIn == 0 && !Over(after, 0)
  {
    PasswordWaits();
    SuccessorIsWritten();
    OnlyOldTokenEnds(Apply(Crossing(), InsertSuccessor(1, true, 150)));
  }

  // ----- links -----

  ghost predicate LinksApart(t: Tables, i: nat, j: nat) {
    i < |t.links| && j < |t.links| && t.links[i].user == t.links[j].user ==> t.links[i].used || t.links[j].used
  }

  /** No person has two links that work. */
  ghost predicate SingleLinks(t: Tables) {
    forall i: nat, j: nat {:trigger LinksApart(t, i, j)} :: i < j ==> LinksApart(t, i, j)
  }

  predicate WorkingLink(t: Tables, user: nat, l: nat) {
    l < |t.links| && t.links[l].user == user && !t.links[l].used
  }

  /** The step writes a link for somebody who has one that works, made since the old ones were retired. */
  ghost predicate CrossedInsert(t: Tables, s: Step) {
    && s.InsertLink? && s.request in t.requests && t.requests[s.request].Issuing?
    && exists l: nat :: WorkingLink(t, t.requests[s.request].user, l)
  }

  lemma SingleLinksStepIff(t: Tables, s: Step)
    requires SingleLinks(t)
    ensures SingleLinks(Apply(t, s)) <==> !CrossedInsert(t, s)
  {
    var after := Apply(t, s);
    if CrossedInsert(t, s) {
      var l: nat :| WorkingLink(t, t.requests[s.request].user, l);
      assert !LinksApart(after, l, |t.links|);
    } else {
      forall i: nat, j: nat | i < j ensures LinksApart(after, i, j) {
        assert LinksApart(t, i, j);
        if s.InsertLink? && s.request in t.requests && t.requests[s.request].Issuing? && j == |t.links| {
          assert !WorkingLink(t, t.requests[s.request].user, i);
        }
      }
    }
  }

  ghost predicate NeverTwoLinks(steps: seq<Step>) {
    forall n: nat {:trigger steps[..n]} :: n <= |steps| ==> SingleLinks(Run(steps[..n]))
  }

  ghost predicate NoCrossedInserts(steps: seq<Step>) {
    forall n: nat {:trigger steps[..n]} :: n < |steps| ==> !CrossedInsert(Run(steps[..n]), steps[n])
  }

  lemma {:induction false} UncrossedLinks(steps: seq<Step>, n: nat)
    requires NoCrossedInserts(steps) && n <= |steps|
    ensures SingleLinks(Run(steps[..n]))
    decreases n
  {
    if n > 0 {
      UncrossedLinks(steps, n - 1);
      OneStepOn(steps, n - 1);
      assert !CrossedInsert(Run(steps[..n - 1]), steps[n - 1]);
      SingleLinksStepIff(Run(steps[..n - 1]), steps[n - 1]);
    }
  }

  /**
   * A person never has two links that work, if and only if no link is ever written beside one made
   * since the old ones were retired.
   */
  lemma OneLinkPerPersonIff(steps: seq<Step>)
    ensures NeverTwoLinks(steps) <==> NoCrossedInserts(steps)
  {
    if NoCrossedInserts(steps) {
      forall n: nat | n <= |steps| ensures SingleLinks(Run(steps[..n])) {
        UncrossedLinks(steps, n);
      }
    }
    if NeverTwoLinks(steps) {
      forall n: nat | n < |steps| ensures !CrossedInsert(Run(steps[..n]), steps[n]) {
        OneStepOn(steps, n);
        assert SingleLinks(Run(steps[..n])) && SingleLinks(Run(steps[..n + 1]));
        SingleLinksStepIff(Run(steps[..n]), steps[n]);
      }
    }
  }

  /** Link `l` is this person's, and if `used` says so it is used. */
  ghost predicate IsLinkOf(t: Tables, l: nat, user: nat, used: bool) {
    l < |t.links| && t.links[l].user == user && (used ==> t.links[l].used)
  }

  lemma LinkStep(t: Tables, s: Step, l: nat, user: nat, used: bool)
    requires IsLinkOf(t, l, user, used)
    ensures IsLinkOf(Apply(t, s), l, user, used)
  {
  }

  lemma {:induction false} LinkRunStep(steps: seq<Step>, k: nat, next: nat, l: nat, user: nat, used: bool)
    requires k < |steps| && next == k + 1 && IsLinkOf(Run(steps[..k]), l, user, used)
    ensures IsLinkOf(Run(steps[..next]), l, user, used)
  {
    OneStepOn(steps, k);
    LinkStep(Run(steps[..k]), steps[k], l, user, used);
  }

  lemma {:induction false} LinkStays(steps: seq<Step>, m: nat, n: nat, l: nat, user: nat, used: bool)
    requires m <= n <= |steps| && IsLinkOf(Run(steps[..m]), l, user, used)
    ensures IsLinkOf(Run(steps[..n]), l, user, used)
    decreases n
  {
    if m < n {
      LinkStays(steps, m, n - 1, l, user, used);
      LinkRunStep(steps, n - 1, n, l, user, used);
    }
  }

  lemma {:induction false} RetiredIsUsed(steps: seq<Step>, m: nat, n: nat, q: nat, user: nat, l: nat)
    requires m < n <= |steps| && steps[m] == RetireLinks(q, user) && q !in Run(steps[..m]).requests
    requires IsLinkOf(Run(steps[..m]), l, user, false)
    ensures IsLinkOf(Run(steps[..n]), l, user, true)
  {
    OneStepOn(steps, m);
    assert IsLinkOf(Run(steps[..m + 1]), l, user, true);
    LinkStays(steps, m + 1, n, l, user, true);
  }

  /** The link that works beside the one written is exactly one made since the old ones were retired. */
  lemma {:induction false} CrossedByNewerIff(steps: seq<Step>, m: nat, n: nat, q: nat, user: nat, expiresAt: int)
    requires m < n < |steps| && steps[m] == RetireLinks(q, user) && q !in Run(steps[..m]).requests
    requires steps[n] == InsertLink(q, expiresAt)
    requires q in Run(steps[..n]).requests && Run(steps[..n]).requests[q] == Issuing(user)
    ensures CrossedInsert(Run(steps[..n]), steps[n]) <==>
      exists l: nat :: |Run(steps[..m]).links| <= l && WorkingLink(Run(steps[..n]), user, l)
  {
    forall l: nat | WorkingLink(Run(steps[..n]), user, l) ensures |Run(steps[..m]).links| <= l {
      if l < |Run(steps[..m]).links| {
        LinkIsRetired(steps, m, n, q, user, l);
      }
    }
  }

  lemma {:induction false} LinkIsRetired(steps: seq<Step>, m: nat, n: nat, q: nat, user: nat, l: nat)
    requires m < n <= |steps| && steps[m] == RetireLinks(q, user) && q !in Run(steps[..m]).requests
    requires l < |Run(steps[..m]).links|
    ensures !WorkingLink(Run(steps[..n]), user, l)
  {
    var owner := Run(steps[..m]).links[l].user;
    if owner == user {
      RetiredIsUsed(steps, m, n, q, user, l);
    } else {
      LinkStays(steps, m, n, l, owner, false);
    }
  }

  lemma WrittenLinkWorks(t: Tables, q: nat, user: nat, expiresAt: int)
    requires q in t.requests && t.requests[q] == Issuing(user)
    ensures var after := Apply(t, InsertLink(q, expiresAt));
      && after.links == t.links + [Link(user, false, expiresAt)] && after.requests == t.requests - {q}
      && WorkingLink(after, user, |t.links|)
  {
  }

  lemma BothWork(t: Tables, user: nat, expiresAt: int)
    requires 1 in t.requests && 2 in t.requests && t.requests[1] == t.requests[2] == Issuing(user)
    ensures var one := Apply(t, InsertLink(1, expiresAt)); var both := Apply(one, InsertLink(2, expiresAt));
      && CrossedInsert(one, InsertLink(2, expiresAt))
      && WorkingLink(both, user, |t.links|) && WorkingLink(both, user, |t.links| + 1)
  {
    var one := Apply(t, InsertLink(1, expiresAt));
    WrittenLinkWorks(t, 1, user, expiresAt);
    WrittenLinkWorks(one, 2, user, expiresAt);
  }

  /**
   * Two links for one person asked for at once: each request retires the old ones, then both links
   * are written, and both work.
   */
  lemma TwoAtOnceBothWork()
    ensures var retired := Apply(Apply(EMPTY, RetireLinks(1, 7)), RetireLinks(2, 7));
      var both := Apply(Apply(retired, InsertLink(1, 100)), InsertLink(2, 100));
      WorkingLink(both, 7, 0) && WorkingLink(both, 7, 1)
  {
    var one := Apply(EMPTY, RetireLinks(1, 7));
    assert one.requests == map[1 := Issuing(7)] && one.links == [];
    var retired := Apply(one, RetireLinks(2, 7));
    assert retired.requests == map[1 := Issuing(7), 2 := Issuing(7)] && retired.links == [];
    BothWork(retired, 7, 100);
  }

  ghost predicate ResetsInv(t: Tables) {
    && (forall i :: 0 <= i < |t.resets| ==> t.resets[i] < |t.links| && t.links[t.resets[i]].used)
    && (forall i, j :: 0 <= i < j < |t.resets| ==> t.resets[i] != t.resets[j])
  }

  /** Links go on existing, used ones stay used, and only an unused one sets a password. */
  lemma LinksStep(t: Tables, s: Step)
    ensures var after := Apply(t, s);
      && |t.links| <= |after.links| && (forall l :: 0 <= l < |t.links| && t.links[l].used ==> after.links[l].used)
      && (after.resets == t.resets ||
          (|after.resets| == |t.resets| + 1 && after.resets[..|t.resets|] == t.resets &&
           var l := after.resets[|t.resets|]; l < |t.links| && !t.links[l].used && after.links[l].used))
  {
  }

  lemma StepKeepsResets(t: Tables, s: Step)
    requires ResetsInv(t)
    ensures ResetsInv(Apply(t, s))
  {
    var after := Apply(t, s);
    LinksStep(t, s);
    forall i | 0 <= i < |after.resets| ensures after.resets[i] < |after.links| && after.links[after.resets[i]].used {
      assert i < |t.resets| ==> after.resets[i] == t.resets[i];
    }
    forall i, j | 0 <= i < j < |after.resets| ensures after.resets[i] != after.resets[j] {
      assert after.resets[i] == t.resets[i];
      assert j < |t.resets| ==> after.resets[j] == t.resets[j];
    }
  }

  lemma {:induction false} RunKeepsResets(steps: seq<Step>)
    ensures ResetsInv(Run(steps))
    decreases |steps|
  {
    if steps != [] {
      RunKeepsResets(steps[..|steps| - 1]);
      StepKeepsResets(Run(steps[..|steps| - 1]), steps[|steps| - 1]);
    }
  }

  /** However tabs race, a link sets a password at most once. */
  lemma LinksWorkOnce(steps: seq<Step>, i: nat, j: nat)
    requires i < j < |Run(steps).resets|
    ensures Run(steps).resets[i] != Run(steps).resets[j]
  {
    RunKeepsResets(steps);
  }

  /** A link used, or retired by a newer one, never sets a password again. */
  lemma {:induction false} UsedLinksStayUsed(steps: seq<Step>, n: nat, l: nat)
    requires n <= |steps| && l < |Run(steps[..n]).links| && Run(steps[..n]).links[l].used
    ensures l < |Run(steps).links| && Run(steps).links[l].used
    ensures |Run(steps[..n]).resets| <= |Run(steps).resets| && l !in Run(steps).resets[|Run(steps[..n]).resets|..]
    decreases |steps|
  {
    if n == |steps| {
      assert steps[..n] == steps;
    } else {
      var front := steps[..|steps| - 1];
      assert front[..n] == steps[..n];
      UsedLinksStayUsed(front, n, l);
      UsedForOneStep(Run(front), steps[|steps| - 1], l, |Run(steps[..n]).resets|);
    }
  }

  lemma UsedForOneStep(t: Tables, s: Step, l: nat, from: nat)
    requires l < |t.links| && t.links[l].used && from <= |t.resets| && l !in t.resets[from..]
    ensures var after := Apply(t, s);
      l < |after.links| && after.links[l].used && from <= |after.resets| && l !in after.resets[from..]
  {
    var after := Apply(t, s);
    LinksStep(t, s);
    forall i | from <= i < |after.resets| ensures after.resets[i] != l {
      assert i < |t.resets| ==> after.resets[i] == t.resets[i] && t.resets[from..][i - from] == t.resets[i];
    }
  }
}
