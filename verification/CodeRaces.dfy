/** Wrong codes from requests that overlap: when the limit on them holds, and how it fails. */
module CodeRaces {
  import opened Wrappers
  import opened SecondFactor
  import opened CodeLimits

  function After(w: World, steps: seq<Step>, hotp: Hotp): World
    decreases |steps|
  {
    if steps == [] then w else After(Apply(w, steps[0], hotp), steps[1..], hotp)
  }

  /** The step marks a code as wrong. */
  predicate Lands(w: World, s: Step) {
    s.Fail? && s.request in w.requests && w.requests[s.request].Failing?
  }

  /** When the codes found wrong were looked at, in the order they were marked. */
  function Landed(w: World, steps: seq<Step>, hotp: Hotp): seq<int>
    decreases |steps|
  {
    if steps == [] then [] else
      (if Lands(w, steps[0]) then [w.requests[steps[0].request].now] else [])
        + Landed(Apply(w, steps[0], hotp), steps[1..], hotp)
  }

  function CountIn(times: seq<int>, start: int, end: int): nat {
    if times == [] then 0 else (if start <= times[0] < end then 1 else 0) + CountIn(times[1..], start, end)
  }

  // ----- what one failure must find to be counted -----

  /** A count read earlier still stands, or both are at the last try. */
  predicate SameCount(seen: nat, failures: nat) {
    seen == failures || (seen + 1 >= MAX_FAILED && failures + 1 >= MAX_FAILED)
  }

  /** A failure is one more on the row as it stands exactly when the count it read still stands. */
  lemma FailCountsIff(u: User, seen: nat, now: int)
    ensures AfterWrong(u, seen, now) == AfterWrong(u, u.failures, now) <==> SameCount(seen, u.failures)
  {
    assert AfterWrong(u, seen, now).failures == if seen + 1 >= MAX_FAILED then 0 else seen + 1;
  }

  /** It lands as a wrong code looked at just then would exactly when, besides, the row is not paused at its time. */
  lemma FailIsCheckIff(u: User, seen: nat, now: int, hotp: Hotp)
    requires Ready(u)
    ensures CheckedWrong(u, Other, now, hotp) && AfterWrong(u, seen, now) == Checked(u, Other, now, hotp) <==>
      SameCount(seen, u.failures) && !Locked(u, now)
  {
    FailCountsIff(u, seen, now);
  }

  ghost predicate Matches(w: World, s: Step) {
    Lands(w, s) ==> SameCount(w.requests[s.request].seen, w.user.failures)
  }

  ghost predicate Counts(w: World, s: Step) {
    Matches(w, s) && (Lands(w, s) ==> !Locked(w.user, w.requests[s.request].now))
  }

  /** The step belongs to a check, and accepts nothing. */
  ghost predicate NoSuccess(w: World, s: Step, hotp: Hotp) {
    (s.Read? || s.Claim? || s.Fail?) && Apply(w, s, hotp).accepted == w.accepted
  }

  ghost predicate EveryFailMatches(w: World, steps: seq<Step>, hotp: Hotp)
    decreases |steps|
  {
    steps == [] ||
      (Matches(w, steps[0]) && NoSuccess(w, steps[0], hotp) &&
      EveryFailMatches(Apply(w, steps[0], hotp), steps[1..], hotp))
  }

  /** Every failure finds the count it read and a row not paused at its time. */
  ghost predicate EveryFailCounts(w: World, steps: seq<Step>, hotp: Hotp)
    decreases |steps|
  {
    steps == [] ||
      (Counts(w, steps[0]) && NoSuccess(w, steps[0], hotp) &&
      EveryFailCounts(Apply(w, steps[0], hotp), steps[1..], hotp))
  }

  // ----- then the limit holds -----

  function AsTries(times: seq<int>): (tries: seq<Try>)
    ensures |tries| == |times| && forall i :: 0 <= i < |times| ==> tries[i].now == times[i]
  {
    if times == [] then [] else [Try(Other, times[0])] + AsTries(times[1..])
  }

  lemma QuietStep(w: World, s: Step, hotp: Hotp)
    requires NoSuccess(w, s, hotp)
    ensures Lands(w, s) ==>
      Apply(w, s, hotp).user == AfterWrong(w.user, w.requests[s.request].seen, w.requests[s.request].now)
    ensures !Lands(w, s) ==> Apply(w, s, hotp).user == w.user
  {
  }

  /** The failures of such a run are those of one check after another. */
  lemma {:induction false} LandedInTurn(w: World, steps: seq<Step>, hotp: Hotp, start: int, end: int)
    requires Ready(w.user) && EveryFailCounts(w, steps, hotp)
    ensures var tries := AsTries(Landed(w, steps, hotp));
      NoneSucceeds(w.user, tries, hotp) &&
        WrongIn(w.user, tries, hotp, start, end) == CountIn(Landed(w, steps, hotp), start, end)
    decreases |steps|
  {
    if steps != [] {
      var after, rest := Apply(w, steps[0], hotp), Landed(Apply(w, steps[0], hotp), steps[1..], hotp);
      QuietStep(w, steps[0], hotp);
      LandedInTurn(after, steps[1..], hotp, start, end);
      if Lands(w, steps[0]) {
        var now := w.requests[steps[0].request].now;
        FailIsCheckIff(w.user, w.requests[steps[0].request].seen, now, hotp);
        FirstTry(w.user, after.user, now, rest, hotp, start, end);
      } else {
        assert Landed(w, steps, hotp) == rest;
      }
    }
  }

  lemma FirstTry(u: User, after: User, now: int, rest: seq<int>, hotp: Hotp, start: int, end: int)
    requires Ready(u) && !Locked(u, now) && after == Checked(u, Other, now, hotp) &&
      NoneSucceeds(after, AsTries(rest), hotp)
    ensures NoneSucceeds(u, AsTries([now] + rest), hotp)
    ensures WrongIn(u, AsTries([now] + rest), hotp, start, end) ==
      (if start <= now < end then 1 else 0) + WrongIn(after, AsTries(rest), hotp, start, end)
    ensures CountIn([now] + rest, start, end) == (if start <= now < end then 1 else 0) + CountIn(rest, start, end)
  {
    assert ([now] + rest)[1..] == rest;
    var tries := AsTries([now] + rest);
    assert tries == [Try(Other, now)] + AsTries(rest);
    assert tries[1..] == AsTries(rest);
  }

  /**
   * However requests overlap, in any half-open stretch of `k` lock periods at
   * most `5 * k` codes are found wrong, as long as every failure finds the
   * count it read and a row not paused at its time, and failures are marked
   * in the order their codes were looked at.
   */
  lemma AtMostFiveInterleaved(w: World, steps: seq<Step>, hotp: Hotp, start: int, k: nat)
    requires Ready(w.user) && w.user.failures < MAX_FAILED && EveryFailCounts(w, steps, hotp)
    requires forall i, j ::
      0 <= i < j < |Landed(w, steps, hotp)| ==> Landed(w, steps, hotp)[i] <= Landed(w, steps, hotp)[j]
    ensures CountIn(Landed(w, steps, hotp), start, start + k * LOCK_MS) <= MAX_FAILED * k
  {
    LandedInTurn(w, steps, hotp, start, start + k * LOCK_MS);
    AtMostFivePerPeriod(w.user, AsTries(Landed(w, steps, hotp)), hotp, start, k);
  }

  // ----- requests that read together -----

  function Reads(n: nat, now: int): seq<Step> {
    if n == 0 then [] else Reads(n - 1, now) + [Read(n - 1, Other, now)]
  }

  function Fails(from: nat, n: nat): seq<Step>
    decreases n - from
  {
    if from >= n then [] else [Fail(from)] + Fails(from + 1, n)
  }

  function Carried(q: nat, seen: nat, now: int): Request { Failing(seen, now) }

  function InHand(from: nat, n: nat, seen: nat, now: int): map<nat, Request> {
    map q: nat | from <= q < n :: Carried(q, seen, now)
  }

  function Copies(n: nat, now: int): seq<int> {
    if n == 0 then [] else [now] + Copies(n - 1, now)
  }

  lemma {:induction false} Concat(w: World, a: seq<Step>, b: seq<Step>, hotp: Hotp)
    ensures After(w, a + b, hotp) == After(After(w, a, hotp), b, hotp)
    ensures Landed(w, a + b, hotp) == Landed(w, a, hotp) + Landed(After(w, a, hotp), b, hotp)
    decreases |a|
  {
    if a == [] {
      assert a + b == b;
    } else {
      Concat(Apply(w, a[0], hotp), a[1..], b, hotp);
      assert (a + b)[1..] == a[1..] + b;
    }
  }

  lemma {:induction false} AllRead(w: World, n: nat, now: int, hotp: Hotp)
    requires Ready(w.user) && !Locked(w.user, now) && w.requests == map[]
    ensures After(w, Reads(n, now), hotp) == w.(requests := InHand(0, n, w.user.failures, now)) &&
      Landed(w, Reads(n, now), hotp) == []
  {
    if n == 0 {
      assert InHand(0, 0, w.user.failures, now) == map[];
    } else {
      AllRead(w, n - 1, now, hotp);
      Concat(w, Reads(n - 1, now), [Read(n - 1, Other, now)], hotp);
      var before, more := After(w, Reads(n - 1, now), hotp), [Read(n - 1, Other, now)];
      assert more[1..] == [];
      assert After(before, more, hotp) == Apply(before, more[0], hotp);
      assert InHand(0, n, w.user.failures, now) ==
        InHand(0, n - 1, w.user.failures, now)[n - 1 := Failing(w.user.failures, now)];
    }
  }

  lemma {:induction false} AllFail(w: World, from: nat, n: nat, seen: nat, now: int, hotp: Hotp)
    requires from <= n && w.requests == InHand(from, n, seen, now) && seen + 1 < MAX_FAILED
    ensures var after := After(w, Fails(from, n), hotp);
      after == w.(requests := map[], user := if from < n then w.user.(failures := seen + 1) else w.user)
    ensures Landed(w, Fails(from, n), hotp) == Copies(n - from, now)
    decreases n - from
  {
    if from == n {
      assert w.requests == map[];
    } else {
      var after := Apply(w, Fail(from), hotp);
      assert after.requests == InHand(from + 1, n, seen, now);
      AllFail(after, from + 1, n, seen, now, hotp);
      assert Fails(from, n)[0] == Fail(from) && Fails(from, n)[1..] == Fails(from + 1, n);
    }
  }

  /**
   * However many requests read the row together with tries to spare, all their codes are looked
   * at, and together they count as one failure.
   */
  lemma WrongCodesAtOnceCountOnce(w: World, n: nat, now: int, hotp: Hotp)
    requires n > 0 && Ready(w.user) && !Locked(w.user, now) && w.user.failures + 1 < MAX_FAILED && w.requests == map[]
    ensures var steps := Reads(n, now) + Fails(0, n);
      && After(w, steps, hotp) == w.(user := w.user.(failures := w.user.failures + 1))
      && Landed(w, steps, hotp) == Copies(n, now)
  {
    Concat(w, Reads(n, now), Fails(0, n), hotp);
    AllRead(w, n, now, hotp);
    AllFail(After(w, Reads(n, now), hotp), 0, n, w.user.failures, now, hotp);
  }

  lemma CountCopies(n: nat, now: int, start: int, end: int)
    ensures CountIn(Copies(n, now), start, end) == if start <= now < end then n else 0
  {
  }

  /** So no number of lock periods bounds the wrong codes of requests that read together. */
  lemma NoLimitAtOnce(w: World, now: int, k: nat, hotp: Hotp)
    requires k > 0 && Ready(w.user) && !Locked(w.user, now) && w.user.failures + 1 < MAX_FAILED && w.requests == map[]
    ensures var n := MAX_FAILED * k + 1;
      CountIn(Landed(w, Reads(n, now) + Fails(0, n), hotp), now, now + k * LOCK_MS) > MAX_FAILED * k
  {
    var n := MAX_FAILED * k + 1;
    WrongCodesAtOnceCountOnce(w, n, now, hotp);
    CountCopies(n, now, now, now + k * LOCK_MS);
  }

  // ----- why the count alone does not tell -----

  /** `m` wrong codes, one after another. */
  function InTurn(m: nat, now: int): seq<Step> {
    if m == 0 then [] else [Read(1, Other, now), Fail(1)] + InTurn(m - 1, now)
  }

  function Tried(u: User, m: nat, now: int): User
    decreases m
  {
    if m == 0 then u else Tried(AfterWrong(u, u.failures, now), m - 1, now)
  }

  lemma OneWrong(w: World, now: int, more: seq<Step>, hotp: Hotp)
    requires Ready(w.user) && !Locked(w.user, now) && 1 !in w.requests
    ensures var after, steps := w.(user := AfterWrong(w.user, w.user.failures, now)), [Read(1, Other, now), Fail(1)]
      + more;
      && After(w, steps, hotp) == After(after, more, hotp) &&
        Landed(w, steps, hotp) == [now] + Landed(after, more, hotp)
      && (EveryFailCounts(w, steps, hotp) <==> EveryFailCounts(after, more, hotp))
      && (EveryFailMatches(w, steps, hotp) <==> EveryFailMatches(after, more, hotp))
  {
    var steps := [Read(1, Other, now), Fail(1)] + more;
    var w1 := Apply(w, steps[0], hotp);
    assert steps[1..] == [Fail(1)] + more && steps[1..][1..] == more;
    assert w1.requests == w.requests[1 := Failing(w.user.failures, now)];
    var w2 := Apply(w1, steps[1..][0], hotp);
    assert w2.requests == w.requests;
    assert w2 == w.(user := AfterWrong(w.user, w.user.failures, now));
  }

  lemma {:induction false} WrongInTurn(w: World, m: nat, now: int, more: seq<Step>, hotp: Hotp)
    requires Ready(w.user) && 1 !in w.requests && !Locked(w.user, now) && w.user.failures + m <= MAX_FAILED
    ensures var after, steps := w.(user := Tried(w.user, m, now)), InTurn(m, now) + more;
      && After(w, steps, hotp) == After(after, more, hotp) &&
        Landed(w, steps, hotp) == Copies(m, now) + Landed(after, more, hotp)
      && (EveryFailCounts(w, steps, hotp) <==> EveryFailCounts(after, more, hotp))
      && (EveryFailMatches(w, steps, hotp) <==> EveryFailMatches(after, more, hotp))
    decreases m
  {
    if m == 0 {
      assert InTurn(0, now) + more == more;
    } else {
      var one := w.(user := AfterWrong(w.user, w.user.failures, now));
      assert InTurn(m, now) + more == [Read(1, Other, now), Fail(1)] + (InTurn(m - 1, now) + more);
      OneWrong(w, now, InTurn(m - 1, now) + more, hotp);
      if m == 1 {
        assert InTurn(0, now) + more == more && Copies(1, now) == [now];
      } else {
        WrongInTurn(one, m - 1, now, more, hotp);
      }
    }
  }

  /**
   * Five wrong codes in turn leave the count where it was; a sixth that read it before them is
   * marked all the same, the row by then paused.
   */
  lemma SixthAfterFive(w: World, now: int, hotp: Hotp)
    requires Ready(w.user) && !Locked(w.user, now) && w.user.failures == 0 && w.requests == map[0 := Failing(0, now)]
    ensures var steps := InTurn(5, now) + [Fail(0)];
      EveryFailMatches(w, steps, hotp) && !EveryFailCounts(w, steps, hotp) &&
        CountIn(Landed(w, steps, hotp), now, now + LOCK_MS) == 6
  {
    var after := w.(user := Tried(w.user, 5, now));
    TriedFive(w.user, now);
    WrongInTurn(w, 5, now, [Fail(0)], hotp);
    assert Landed(after, [Fail(0)], hotp) == [now] == Copies(1, now);
    CopiesAdd(5, 1, now);
    CountCopies(6, now, now, now + LOCK_MS);
  }

  lemma TriedFive(u: User, now: int)
    requires u.failures == 0
    ensures Tried(u, 5, now) == u.(lockedUntil := Some(now + LOCK_MS))
  {
    assert Tried(u, 5, now) == Tried(u.(failures := 2), 3, now);
    assert Tried(u.(failures := 2), 3, now) == Tried(u.(failures := 4), 1, now);
  }

  lemma CopiesAdd(m: nat, n: nat, now: int)
    ensures Copies(m, now) + Copies(n, now) == Copies(m + n, now)
  {
    if m > 0 {
      CopiesAdd(m - 1, n, now);
    }
  }

  /** A failure marked out of turn sets a pause that ends too early for the codes looked at after its own. */
  lemma OneOutOfTurn(w: World, now: int, hotp: Hotp)
    requires Ready(w.user) && w.user.lockedUntil.None? && w.user.failures == 3 &&
      w.requests == map[0 := Failing(4, now)]
    ensures var steps := InTurn(1, now + 10) + ([Fail(0)] + InTurn(5, now + LOCK_MS));
      EveryFailCounts(w, steps, hotp) && CountIn(Landed(w, steps, hotp), now + 5, now + 5 + LOCK_MS) == 6
  {
    var last := InTurn(5, now + LOCK_MS);
    var four := w.(user := w.user.(failures := 4));
    TriedBelowFive(w.user, 1, now + 10);
    WrongInTurn(w, 1, now + 10, [Fail(0)] + last, hotp);
    assert Copies(1, now + 10) == [now + 10];
    FourthThenPause(four, now, last, hotp);
    FiveAfterPause(four.(user := AfterWrong(four.user, 4, now), requests := map[]), now + LOCK_MS, hotp);
    CountCopies(5, now + LOCK_MS, now + 5, now + 5 + LOCK_MS);
    CountTwo(now + 10, now, Copies(5, now + LOCK_MS), now + 5, now + 5 + LOCK_MS);
  }

  /** The last try lands and sets the pause. */
  lemma FourthThenPause(w: World, now: int, more: seq<Step>, hotp: Hotp)
    requires !Locked(w.user, now) && w.user.failures == 4 && w.requests == map[0 := Failing(4, now)]
    ensures var paused := w.(user := AfterWrong(w.user, 4, now), requests := map[]);
      && Landed(w, [Fail(0)] + more, hotp) == [now] + Landed(paused, more, hotp)
      && (EveryFailCounts(w, [Fail(0)] + more, hotp) <==> EveryFailCounts(paused, more, hotp))
  {
    assert ([Fail(0)] + more)[1..] == more;
    var paused := Apply(w, Fail(0), hotp);
    assert paused.requests == map[];
  }

  /** Once a pause is over, five more. */
  lemma FiveAfterPause(w: World, now: int, hotp: Hotp)
    requires Ready(w.user) && !Locked(w.user, now) && w.user.failures == 0 && w.requests == map[]
    ensures Landed(w, InTurn(5, now), hotp) == Copies(5, now) && EveryFailCounts(w, InTurn(5, now), hotp)
  {
    var steps := InTurn(5, now);
    assert steps + [] == steps;
    WrongInTurn(w, 5, now, [], hotp);
  }

  lemma CountTwo(a: int, b: int, rest: seq<int>, start: int, end: int)
    ensures CountIn([a] + ([b] + rest), start, end) ==
      (if start <= a < end then 1 else 0) + (if start <= b < end then 1 else 0) + CountIn(rest, start, end)
  {
    assert ([a] + ([b] + rest))[1..] == [b] + rest && ([b] + rest)[1..] == rest;
  }

  // ----- both from the start -----

  lemma {:induction false} AfterIsRun(steps: seq<Step>, hotp: Hotp)
    ensures After(START, steps, hotp) == Run(steps, hotp)
    decreases |steps|
  {
    if steps != [] {
      var front, last := steps[..|steps| - 1], steps[|steps| - 1];
      assert steps == front + [last] && [last][1..] == [];
      AfterIsRun(front, hotp);
      Concat(START, front, [last], hotp);
      assert After(Run(front, hotp), [last], hotp) == Apply(Run(front, hotp), last, hotp);
    }
  }

  /** Two-step sign-in is set up, with one recovery code. */
  function SetUp(now: int, hotp: Hotp): seq<Step> {
    [BeginSetup(1), Enable(hotp(1, StepAt(now) - WINDOW), now, [9])]
  }

  function JustSetUp(now: int): World {
    World(User(true, Some(1), Some(StepAt(now) - WINDOW), 0, None, [9]), map[], [ByStep(StepAt(now) - WINDOW, 2)], 2, 1)
  }

  lemma SetUpIs(now: int, more: seq<Step>, hotp: Hotp)
    ensures After(START, SetUp(now, hotp) + more, hotp) == After(JustSetUp(now), more, hotp)
  {
    var steps, first := SetUp(now, hotp) + more, StepAt(now) - WINDOW;
    assert steps[1..] == [SetUp(now, hotp)[1]] + more && steps[1..][1..] == more;
    var begun := Apply(START, steps[0], hotp);
    assert begun == World(User(false, Some(1), None, 0, None, []), map[], [], 1, 0);
    assert FirstFrom(hotp, 1, hotp(1, first), now, None, first) == Some(first);
    assert Apply(begun, steps[1..][0], hotp) == JustSetUp(now);
  }

  /** A request reads the row; then five wrong codes in turn, and its own is marked too: six in one lock period. */
  lemma SameCountIsNotEnough(now: int, hotp: Hotp)
    ensures var w := Run(SetUp(now, hotp) + [Read(0, Other, now)], hotp); var steps := InTurn(5, now) + [Fail(0)];
      && EveryFailMatches(w, steps, hotp) && !EveryFailCounts(w, steps, hotp)
      && CountIn(Landed(w, steps, hotp), now, now + LOCK_MS) == 6
  {
    var more := [Read(0, Other, now)];
    AfterIsRun(SetUp(now, hotp) + more, hotp);
    SetUpIs(now, more, hotp);
    assert more[1..] == [];
    var w := Run(SetUp(now, hotp) + more, hotp);
    assert w == Apply(JustSetUp(now), Read(0, Other, now), hotp);
    assert w.requests == map[0 := Failing(0, now)];
    SixthAfterFive(w, now, hotp);
  }

  /** A request reads the count, and then a recovery code clears it. */
  function ReadThenClear(now: int): seq<Step> { [Read(0, Other, now), Read(2, Recovery(9), now), Claim(2)] }

  /** Four wrong codes; a request reads the count; it is cleared; three more wrong codes. */
  function LeadUp(now: int): seq<Step> {
    InTurn(4, now) + (ReadThenClear(now) + (InTurn(3, now) + []))
  }

  lemma OneStep(w: World, a: Step, more: seq<Step>, hotp: Hotp)
    ensures After(w, [a] + more, hotp) == After(Apply(w, a, hotp), more, hotp)
  {
    assert ([a] + more)[1..] == more;
  }

  lemma {:induction false} ThreeSteps(w: World, a: Step, b: Step, c: Step, more: seq<Step>, hotp: Hotp)
    ensures After(w, [a, b, c] + more, hotp) == After(Apply(Apply(Apply(w, a, hotp), b, hotp), c, hotp), more, hotp)
  {
    assert [a, b, c] + more == [a] + ([b] + ([c] + more));
    OneStep(w, a, [b] + ([c] + more), hotp);
    OneStep(Apply(w, a, hotp), b, [c] + more, hotp);
    OneStep(Apply(Apply(w, a, hotp), b, hotp), c, more, hotp);
  }

  lemma Cleared(w: World, now: int, hotp: Hotp)
    requires w.user == JustSetUp(now).user.(failures := 4) && w.requests == map[]
    ensures var next := Apply(Apply(Apply(w, Read(0, Other, now), hotp), Read(2, Recovery(9), now), hotp), Claim(2),
      hotp);
      next.requests == map[0 := Failing(4, now)] && next.user == JustSetUp(now).user.(codes := [])
  {
    var w1 := Apply(w, Read(0, Other, now), hotp);
    assert w1 == w.(requests := map[0 := Failing(4, now)]);
    var w2 := Apply(w1, Read(2, Recovery(9), now), hotp);
    assert w2 == w.(requests := map[0 := Failing(4, now), 2 := Spending(9, 4, now)]);
    assert Without([9], 9) == [];
  }

  lemma {:induction false} TriedBelowFive(u: User, m: nat, now: int)
    requires u.failures + m < MAX_FAILED
    ensures Tried(u, m, now) == u.(failures := u.failures + m)
    decreases m
  {
    if m > 0 {
      TriedBelowFive(u.(failures := u.failures + 1), m - 1, now);
    }
  }

  lemma FourThenCleared(now: int, more: seq<Step>, hotp: Hotp) returns (next: World)
    ensures After(JustSetUp(now), InTurn(4, now) + (ReadThenClear(now) + more), hotp) == After(next, more, hotp)
    ensures next.requests == map[0 := Failing(4, now)] && next.user == JustSetUp(now).user.(codes := [])
  {
    var w := JustSetUp(now);
    TriedBelowFive(w.user, 4, now);
    WrongInTurn(w, 4, now, ReadThenClear(now) + more, hotp);
    var four := w.(user := w.user.(failures := 4));
    ThreeSteps(four, Read(0, Other, now), Read(2, Recovery(9), now), Claim(2), more, hotp);
    Cleared(four, now, hotp);
    next := Apply(Apply(Apply(four, Read(0, Other, now), hotp), Read(2, Recovery(9), now), hotp), Claim(2), hotp);
  }

  lemma LeadsUp(now: int, hotp: Hotp)
    ensures var w := Run(SetUp(now, hotp) + LeadUp(now), hotp);
      Ready(w.user) && w.user.lockedUntil.None? && w.user.failures == 3 && w.requests == map[0 := Failing(4, now)]
  {
    AfterIsRun(SetUp(now, hotp) + LeadUp(now), hotp);
    SetUpIs(now, LeadUp(now), hotp);
    var next := FourThenCleared(now, InTurn(3, now) + [], hotp);
    TriedBelowFive(next.user, 3, now);
    WrongInTurn(next, 3, now, [], hotp);
  }

  /**
   * That request's failure lands after one looked at later, and the pause it sets ends early: six
   * in one lock period.
   */
  lemma OrderMatters(now: int, hotp: Hotp)
    ensures var w := Run(SetUp(now, hotp) + LeadUp(now), hotp);
      var steps := InTurn(1, now + 10) + ([Fail(0)] + InTurn(5, now + LOCK_MS));
      EveryFailCounts(w, steps, hotp) && CountIn(Landed(w, steps, hotp), now + 5, now + 5 + LOCK_MS) == 6
  {
    LeadsUp(now, hotp);
    OneOutOfTurn(Run(SetUp(now, hotp) + LeadUp(now), hotp), now, hotp);
  }
}
