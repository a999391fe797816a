/**
 * Nothing past its date works: what a renewal or a new password rests on was read in time. And
 * what each request leaves.
 */
module SessionTimes {
  import opened Wrappers
  import opened Sessions

  // ----- tokens -----

  /** A working token is read, before it expires. */
  ghost predicate TokenRead(t: Tables, s: Step, k: nat) {
    s.ReadToken? && s.token == k && k < |t.tokens| && !t.tokens[k].revoked && s.now < t.tokens[k].expiresAt
  }

  ghost predicate TokenReadAt(steps: seq<Step>, m: nat, k: nat) {
    m < |steps| && TokenRead(Run(steps[..m]), steps[m], k)
  }

  /** It was at some step of the run. */
  ghost predicate TokenReadInTime(steps: seq<Step>, k: nat) {
    exists m: nat :: TokenReadAt(steps, m, k)
  }

  predicate Renews(r: Request, k: nat) { r == Renewing(k) || r == Claimed(k) }

  ghost predicate RenewsInTime(steps: seq<Step>, t: Tables, q: nat, k: nat) {
    q in t.requests && Renews(t.requests[q], k) ==> TokenReadInTime(steps, k)
  }

  ghost predicate RenewedInTime(steps: seq<Step>, t: Tables, i: nat, k: nat) {
    i < |t.tokens| && t.tokens[i].renews == Some(k) ==> TokenReadInTime(steps, k)
  }

  lemma RenewalStep(t: Tables, s: Step, q: nat, i: nat, k: nat)
    ensures var after := Apply(t, s);
      && (q in after.requests && Renews(after.requests[q], k) ==>
            (q in t.requests && Renews(t.requests[q], k)) || TokenRead(t, s, k))
      && (i < |after.tokens| && after.tokens[i].renews == Some(k) ==>
            || (i < |t.tokens| && t.tokens[i].renews == Some(k))
            || (GoesOn(s) && s.request in t.requests && Renews(t.requests[s.request], k)))
  {
  }

  lemma {:induction false} ReadStays(steps: seq<Step>, k: nat)
    requires steps != [] && TokenReadInTime(steps[..|steps| - 1], k)
    ensures TokenReadInTime(steps, k)
  {
    var front := steps[..|steps| - 1];
    var m: nat :| TokenReadAt(front, m, k);
    assert front[..m] == steps[..m];
    assert TokenReadAt(steps, m, k);
  }

  /** Every token a run renews, or has begun to, was read while it worked and before its date. */
  lemma {:induction false} RenewedOnlyInTime(steps: seq<Step>, q: nat, i: nat, k: nat)
    ensures RenewsInTime(steps, Run(steps), q, k) && RenewedInTime(steps, Run(steps), i, k)
    decreases |steps|
  {
    if steps != [] {
      var front, last := steps[..|steps| - 1], steps[|steps| - 1];
      var t := Run(front);
      RenewedOnlyInTime(front, q, i, k);
      if GoesOn(last) {
        RenewedOnlyInTime(front, last.request, i, k);
      }
      RenewalStep(t, last, q, i, k);
      if TokenReadInTime(front, k) {
        ReadStays(steps, k);
      } else if TokenRead(t, last, k) {
        assert TokenReadAt(steps, |front|, k);
      }
    }
  }

  // ----- links -----

  /** A link nobody used is read, before it expires. */
  ghost predicate LinkRead(t: Tables, s: Step, l: nat) {
    s.ReadLink? && s.link == l && l < |t.links| && !t.links[l].used && s.now < t.links[l].expiresAt
  }

  ghost predicate LinkReadAt(steps: seq<Step>, m: nat, l: nat) {
    m < |steps| && LinkRead(Run(steps[..m]), steps[m], l)
  }

  ghost predicate LinkReadInTime(steps: seq<Step>, l: nat) {
    exists m: nat :: LinkReadAt(steps, m, l)
  }

  lemma ResetStep(t: Tables, s: Step, q: nat, l: nat)
    ensures var after := Apply(t, s);
      && (q in after.requests && after.requests[q] == Resetting(l) ==>
            (q in t.requests && t.requests[q] == Resetting(l)) || LinkRead(t, s, l))
      && (l in after.resets ==>
            l in t.resets || (GoesOn(s) && s.request in t.requests && t.requests[s.request] == Resetting(l)))
  {
  }

  lemma {:induction false} LinkReadStays(steps: seq<Step>, l: nat)
    requires steps != [] && LinkReadInTime(steps[..|steps| - 1], l)
    ensures LinkReadInTime(steps, l)
  {
    var front := steps[..|steps| - 1];
    var m: nat :| LinkReadAt(front, m, l);
    assert front[..m] == steps[..m];
    assert LinkReadAt(steps, m, l);
  }

  /** Every link that set a password, or is about to, was read unused and before its date. */
  lemma {:induction false} ResetOnlyInTime(steps: seq<Step>, q: nat, l: nat)
    ensures q in Run(steps).requests && Run(steps).requests[q] == Resetting(l) ==> LinkReadInTime(steps, l)
    ensures l in Run(steps).resets ==> LinkReadInTime(steps, l)
    decreases |steps|
  {
    if steps != [] {
      var front, last := steps[..|steps| - 1], steps[|steps| - 1];
      var t := Run(front);
      ResetOnlyInTime(front, q, l);
      if GoesOn(last) {
        ResetOnlyInTime(front, last.request, l);
      }
      ResetStep(t, last, q, l);
      if LinkReadInTime(front, l) {
        LinkReadStays(steps, l);
      } else if LinkRead(t, last, l) {
        assert LinkReadAt(steps, |front|, l);
      }
    }
  }

  // ----- dates and owners are written once -----

  /** A token keeps its owner, its sign-in, its date and the token it renews; a link its owner and its date. */
  lemma {:induction false} WrittenOnce(steps: seq<Step>, n: nat, i: nat, l: nat)
    requires n <= |steps|
    ensures var before, after := Run(steps[..n]), Run(steps);
      && |before.tokens| <= |after.tokens| && |before.links| <= |after.links|
      && (i < |before.tokens| ==>
            after.tokens[i].(revoked := false) == before.tokens[i].(revoked := false)
              && (before.tokens[i].revoked ==> after.tokens[i].revoked))
      && (l < |before.links| ==>
            after.links[l].(used := false) == before.links[l].(used := false)
              && (before.links[l].used ==> after.links[l].used))
    decreases |steps|
  {
    if n == |steps| {
      assert steps[..n] == steps;
    } else {
      var front := steps[..|steps| - 1];
      WrittenOnce(front, n, i, l);
      assert front[..n] == steps[..n];
      RowsStay(Run(front), steps[|steps| - 1], i, l);
    }
  }

  lemma RowsStay(t: Tables, s: Step, i: nat, l: nat)
    ensures var after := Apply(t, s);
      && |t.tokens| <= |after.tokens| && |t.links| <= |after.links|
      && (i < |t.tokens| ==>
            after.tokens[i].(revoked := false) == t.tokens[i].(revoked := false)
              && (t.tokens[i].revoked ==> after.tokens[i].revoked))
      && (l < |t.links| ==>
            after.links[l].(used := false) == t.links[l].(used := false) && (t.links[l].used ==> after.links[l].used))
  {
  }

  // ----- what a request leaves -----

  /** Signing in writes one working token, of a sign-in of its own, good until the date given. */
  lemma SignInOutcome(t: Tables, user: nat, expiresAt: int)
    ensures var after := Apply(t, SignIn(user, expiresAt));
      && after.tokens == t.tokens + [Token(user, t.signIns, false, expiresAt, None)] && after.signIns == t.signIns + 1
      && after.links == t.links && after.requests == t.requests && after.resets == t.resets
  {
  }

  /** A renewal retires its token and writes one working token for the same person and sign-in; or keeps nothing. */
  lemma RenewalOutcome(t: Tables, q: nat, k: nat, open: bool, expiresAt: int)
    requires q in t.requests && t.requests[q] == Claimed(k) && k < |t.tokens|
    ensures var after := Apply(t, InsertSuccessor(q, open, expiresAt));
      && q !in after.requests && after.links == t.links && after.signIns == t.signIns
      && if !open then after.tokens == t.tokens else
           && |after.tokens| == |t.tokens| + 1
           && (forall i :: 0 <= i < |t.tokens| && i != k ==> after.tokens[i] == t.tokens[i])
           && after.tokens[k].revoked
           && after.tokens[|t.tokens|] == Token(t.tokens[k].user, t.tokens[k].signIn, false, expiresAt, Some(k))
  {
  }

  /** The request ends, once no one holds a token it is to end: those it saw of its kind, and nobody else's. */
  lemma EndingOutcome(t: Tables, q: nat, user: nat, seen: nat, session: Option<int>)
    requires q in t.requests && t.requests[q] == Ending(None, OfUser(user), seen, session) && seen <= |t.tokens|
    ensures var after := Apply(t, EndTokens(q));
      if exists p: nat, i: nat :: (p in t.requests && p != q && Holds(t.requests[p], i) && i < seen
        && t.tokens[i].user == user && !t.tokens[i].revoked)
      then after == t
      else
        && q !in after.requests
        && (forall i :: 0 <= i < seen && t.tokens[i].user == user ==> after.tokens[i].revoked)
        && (forall i :: 0 <= i < |t.tokens| && (i >= seen || t.tokens[i].user != user) ==>
              after.tokens[i] == t.tokens[i])
        && |after.links| == |t.links|
        && (forall l :: 0 <= l < |t.links| ==>
              after.links[l].used == (t.links[l].used || t.links[l].user == user))
        && (if session.None? then |after.tokens| == |t.tokens| else
              && |after.tokens| == |t.tokens| + 1
              && after.tokens[|t.tokens|] == Token(user, t.signIns, false, session.value, None))
  {
    if p: nat, i: nat :| (p in t.requests && p != q && Holds(t.requests[p], i) && i < seen
        && t.tokens[i].user == user && !t.tokens[i].revoked) {
      assert HeldByOther(t, q, i) && Live(t, i) && Picks(OfUser(user), t.tokens[i]);
      assert MustWait(t, q);
    }
  }

  /** Signing out ends the tokens seen of its sign-in and touches no link; it shows any token there is. */
  lemma SignOutOutcome(t: Tables, q: nat, k: nat)
    requires k < |t.tokens|
    ensures q !in t.requests && !HeldByOther(t, q, k) ==>
      Apply(t, ShowToken(q, k)) == t.(requests := t.requests[q := Showing(k)])
    ensures q in t.requests && t.requests[q] == Showing(k) ==>
      Apply(t, LookForTokens(q)) ==
        t.(requests := t.requests[q := Ending(Some(k), OfSignIn(t.tokens[k].signIn), |t.tokens|, None)])
  {
  }

  /** A sign-out, or a person leaving: the tokens it saw end, of one sign-in or of one person, and nothing else. */
  lemma OthersEndingOutcome(t: Tables, q: nat, held: Option<nat>, whose: Whose, seen: nat, session: Option<int>)
    requires q in t.requests && t.requests[q] == Ending(held, whose, seen, session) && !whose.OfUser?
    requires !MustWait(t, q)
    ensures var after := Apply(t, EndTokens(q));
      && q !in after.requests && after.links == t.links && |after.tokens| == |t.tokens| && after.signIns == t.signIns
      && forall i: nat :: i < |t.tokens| ==>
           after.tokens[i].revoked ==
             (t.tokens[i].revoked
               || (i < seen && if whose.OfSignIn? then t.tokens[i].signIn == whose.signIn
                 else t.tokens[i].user == whose.user))
  {
  }

  /** A person leaves: their tokens are looked for, no link and no password is touched. */
  lemma LeavingOutcome(t: Tables, q: nat, user: nat)
    ensures Apply(t, Deactivate(q, user)) == if q in t.requests then t
      else t.(requests := t.requests[q := Leaving(user)])
    ensures q in t.requests && t.requests[q] == Leaving(user) ==>
      Apply(t, LookForTokens(q)) == t.(requests := t.requests[q := Ending(None, OfLeaver(user), |t.tokens|, None)])
  {
  }

  /** A link sets a password once; one used since it was read does not. */
  lemma UseLinkOutcome(t: Tables, q: nat, l: nat, open: bool)
    requires q in t.requests && t.requests[q] == Resetting(l) && l < |t.links|
    ensures var after := Apply(t, UseLink(q, open));
      if open && !t.links[l].used then
        && after.links == t.links[l := Link(t.links[l].user, true, t.links[l].expiresAt)] &&
          after.resets == t.resets + [l]
        && q in after.requests && after.requests[q] == NewPassword(t.links[l].user, None) && after.tokens == t.tokens
      else after == t.(requests := t.requests - {q})
  {
  }

  /** Asking for a link retires the person's others and then writes one, good until the date given. */
  lemma NewLinkOutcome(t: Tables, q: nat, user: nat, expiresAt: int)
    ensures var after := Apply(t, RetireLinks(q, user));
      if q in t.requests then after == t else
        && q in after.requests && after.requests[q] == Issuing(user) && |after.links| == |t.links|
        && (forall l :: 0 <= l < |t.links| ==>
              after.links[l] == Link(t.links[l].user, t.links[l].used || t.links[l].user == user, t.links[l].expiresAt))
    ensures q in t.requests && t.requests[q] == Issuing(user) ==>
      Apply(t, InsertLink(q, expiresAt)).links == t.links + [Link(user, false, expiresAt)]
  {
  }

  /** A wrong password changes nothing; the right one goes on to end the person's tokens. */
  lemma ChangePasswordOutcome(t: Tables, q: nat, user: nat, right: bool, expiresAt: int)
    ensures var after := Apply(t, ChangePassword(q, user, right, expiresAt));
      after == if right && q !in t.requests then t.(requests := t.requests[q := NewPassword(user, Some(expiresAt))])
        else t
    ensures q in t.requests && t.requests[q] == NewPassword(user, Some(expiresAt)) ==>
      Apply(t, LookForTokens(q)) ==
        t.(requests := t.requests[q := Ending(None, OfUser(user), |t.tokens|, Some(expiresAt))])
  {
  }
}
