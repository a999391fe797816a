/**
 * Refresh tokens and password-reset links, request by request. What a
 * transaction has written is seen by others once it commits; until then the
 * rows it changed are held, and whoever wants to change them waits. An update
 * of many rows changes those there when it began.
 */
module Sessions {
  import opened Wrappers

  datatype Token = Token(user: nat, signIn: nat, revoked: bool, expiresAt: int, renews: Option<nat>)
  datatype Link = Link(user: nat, used: bool, expiresAt: int)

  /** Whose tokens an update ends. */
  datatype Whose = OfSignIn(signIn: nat) | OfUser(user: nat) | OfLeaver(user: nat)

  /** Where a request has got to. */
  datatype Request =
    | Renewing(token: nat)
    // the token is retired, its successor not yet written
    | Claimed(token: nat)
    // signing out: the token shown is held
    | Showing(token: nat)
    | NewPassword(user: nat, session: Option<int>)
    | Leaving(user: nat)
    // the update of tokens has begun, and sees the first `seen` of them
    | Ending(held: Option<nat>, whose: Whose, seen: nat, session: Option<int>)
    | Resetting(link: nat)
    | Issuing(user: nat)

  /** `resets` lists the links that set a password, in turn. */
  datatype Tables = Tables(tokens: seq<Token>, links: seq<Link>, requests: map<nat, Request>, resets: seq<nat>,
      signIns: nat)

  const EMPTY := Tables([], [], map[], [], 0)

  datatype Step =
    | SignIn(user: nat, expiresAt: int)
    | ReadToken(request: nat, token: nat, now: int)
    | ClaimToken(request: nat)
    // `open`: the user and the organisation are still there; if not, nothing is kept
    | InsertSuccessor(request: nat, open: bool, expiresAt: int)
    | ShowToken(request: nat, token: nat)
    | ReadLink(request: nat, link: nat, now: int)
    | UseLink(request: nat, open: bool)
    | ChangePassword(request: nat, user: nat, right: bool, expiresAt: int)
    | Deactivate(request: nat, user: nat)
    | LookForTokens(request: nat)
    | EndTokens(request: nat)
    | RetireLinks(request: nat, user: nat)
    | InsertLink(request: nat, expiresAt: int)

  predicate Live(t: Tables, i: nat) { i < |t.tokens| && !t.tokens[i].revoked }

  predicate Picks(whose: Whose, k: Token) {
    match whose
    case OfSignIn(s) => k.signIn == s
    case OfUser(u) => k.user == u
    case OfLeaver(u) => k.user == u
  }

  /** The request has changed or locked this token's row and not committed. */
  predicate Holds(r: Request, k: nat) {
    match r
    case Claimed(i) => i == k
    case Showing(i) => i == k
    case Ending(held, _, _, _) => held == Some(k)
    case _ => false
  }

  predicate HeldByOther(t: Tables, q: nat, k: nat) {
    exists p :: p in t.requests && p != q && Holds(t.requests[p], k)
  }

  /** The update has to wait: a token it is to end is held. */
  predicate MustWait(t: Tables, q: nat)
    requires q in t.requests && t.requests[q].Ending?
  {
    exists i: nat ::
      Live(t, i) && i < t.requests[q].seen && Picks(t.requests[q].whose, t.tokens[i]) && HeldByOther(t, q, i)
  }

  /** Ends those of the first `seen` tokens that are picked. */
  function Ended(ts: seq<Token>, whose: Whose, seen: nat): (out: seq<Token>)
    ensures |out| == |ts|
    ensures forall i ::
      0 <= i < |ts| ==> out[i] == ts[i].(revoked := ts[i].revoked || (i < seen && Picks(whose, ts[i])))
  {
    seq(|ts|, i requires 0 <= i < |ts| => ts[i].(revoked := ts[i].revoked || (i < seen && Picks(whose, ts[i]))))
  }

  function EndLinks(ls: seq<Link>, user: nat): (out: seq<Link>)
    ensures |out| == |ls| && forall i :: 0 <= i < |ls| ==> out[i] == ls[i].(used := ls[i].used || ls[i].user == user)
  {
    seq(|ls|, i requires 0 <= i < |ls| => ls[i].(used := ls[i].used || ls[i].user == user))
  }

  function NewSession(t: Tables, user: nat, expiresAt: int): Tables {
    t.(tokens := t.tokens + [Token(user, t.signIns, false, expiresAt, None)], signIns := t.signIns + 1)
  }

  function Renewed(t: Tables, k: nat, expiresAt: int): Tables
    requires k < |t.tokens|
  {
    var prior := t.tokens[k];
    t.(tokens := t.tokens[k := prior.(revoked := true)] + [Token(prior.user, prior.signIn, false, expiresAt, Some(k))])
  }

  function Done(t: Tables, q: nat): Tables { t.(requests := t.requests - {q}) }
  function Moved(t: Tables, q: nat, r: Request): Tables { t.(requests := t.requests[q := r]) }

  function Finished(t: Tables, q: nat): Tables
    requires q in t.requests && t.requests[q].Ending?
  {
    var r := t.requests[q];
    var ended := Done(t, q).(tokens := Ended(t.tokens, r.whose, r.seen));
    match r.whose
    case OfSignIn(_) => ended
    case OfLeaver(_) => ended
    case OfUser(u) =>
      var all := ended.(links := EndLinks(t.links, u));
      if r.session.Some? then NewSession(all, u, r.session.value) else all
  }

  function Begin(t: Tables, s: Step): Tables {
    match s
    case SignIn(user, expiresAt) => NewSession(t, user, expiresAt)
    case ReadToken(q, k, now) =>
      if q !in t.requests && Live(t, k) && t.tokens[k].expiresAt > now then Moved(t, q, Renewing(k)) else t
    case ShowToken(q, k) =>
      if q !in t.requests && k < |t.tokens| && !HeldByOther(t, q, k) then Moved(t, q, Showing(k)) else t
    case ReadLink(q, l, now) =>
      if q !in t.requests && l < |t.links| && !t.links[l].used && t.links[l].expiresAt > now then
        Moved(t, q, Resetting(l)) else t
    case ChangePassword(q, user, right, expiresAt) =>
      if q !in t.requests && right then Moved(t, q, NewPassword(user, Some(expiresAt))) else t
    case Deactivate(q, user) => if q !in t.requests then Moved(t, q, Leaving(user)) else t
    case RetireLinks(q, user) =>
      if q !in t.requests then Moved(t, q, Issuing(user)).(links := EndLinks(t.links, user)) else t
    case _ => t
  }

  function GoOn(t: Tables, s: Step, q: nat): Tables
    requires q in t.requests
  {
    match (s, t.requests[q])
    case (ClaimToken(_), Renewing(k)) =>
      if !Live(t, k) then Done(t, q) else if HeldByOther(t, q, k) then t else Moved(t, q, Claimed(k))
    case (InsertSuccessor(_, open, expiresAt), Claimed(k)) =>
      if open && k < |t.tokens| then Renewed(Done(t, q), k, expiresAt) else Done(t, q)
    case (UseLink(_, open), Resetting(l)) =>
      if l < |t.links| && !t.links[l].used && open
      then Moved(t, q, NewPassword(t.links[l].user, None)).(links := t.links[l := t.links[l].(used := true)],
        resets := t.resets + [l])
      else Done(t, q)
    case (LookForTokens(_), Showing(k)) =>
      if k < |t.tokens| then Moved(t, q, Ending(Some(k), OfSignIn(t.tokens[k].signIn), |t.tokens|, None)) else t
    case (LookForTokens(_), NewPassword(user, session)) => Moved(t, q, Ending(None, OfUser(user), |t.tokens|, session))
    case (LookForTokens(_), Leaving(user)) => Moved(t, q, Ending(None, OfLeaver(user), |t.tokens|, None))
    case (EndTokens(_), Ending(_, _, _, _)) => if MustWait(t, q) then t else Finished(t, q)
    case (InsertLink(_, expiresAt), Issuing(user)) => Done(t, q).(links := t.links + [Link(user, false, expiresAt)])
    case _ => t
  }

  predicate GoesOn(s: Step) {
    s.ClaimToken? || s.InsertSuccessor? || s.UseLink? || s.LookForTokens? || s.EndTokens? || s.InsertLink?
  }

  function Apply(t: Tables, s: Step): Tables {
    if !GoesOn(s) then Begin(t, s) else if s.request in t.requests then GoOn(t, s, s.request) else t
  }

  function Run(steps: seq<Step>): Tables
    decreases |steps|
  {
    if steps == [] then EMPTY else Apply(Run(steps[..|steps| - 1]), steps[|steps| - 1])
  }

  lemma OneStepOn(steps: seq<Step>, n: nat)
    requires n < |steps|
    ensures Run(steps[..n + 1]) == Apply(Run(steps[..n]), steps[n])
  {
    assert steps[..n + 1][..n] == steps[..n];
  }
}
