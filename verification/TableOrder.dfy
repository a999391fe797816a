/**
 * The order tenant tables are restored in: Kahn's algorithm, with cycles
 * broken by deferring one fully nullable foreign key at a time.
 */
module TableOrder {
  import opened Graphs

  /** A foreign key: its columns and the table it points at. */
  datatype Relation = Relation(fieldNames: seq<string>, target: Name)

  type Relations = map<Name, seq<Relation>>

  /** The tenant tables in declaration order, their foreign keys and their nullable columns. */
  datatype Schema = Schema(names: seq<Name>, relations: Relations, nullable: map<Name, set<string>>)
  {
    ghost predicate Valid() {
      Distinct(names) && relations.Keys == Elements(names) == nullable.Keys
    }
  }

  /** The tables `n` waits for: targets among the tenant tables, other than itself. */
  function DependsOn(rels: Relations, n: Name): set<Name>
    requires n in rels
  {
    set r | r in rels[n] && r.target in rels && r.target != n :: r.target
  }

  function Dependencies(rels: Relations): Graph {
    map n | n in rels :: DependsOn(rels, n)
  }

  lemma DependenciesClosed(rels: Relations)
    ensures Closed(Dependencies(rels)) && Dependencies(rels).Keys == rels.Keys
  {
  }

  predicate FullyNullable(s: Schema, n: Name, r: Relation)
    requires n in s.nullable
  {
    forall f :: f in r.fieldNames ==> f in s.nullable[n]
  }

  /** None of its columns is a required one. */
  ghost predicate CanBeEmpty(s: Schema, n: Name, r: Relation)
    requires n in s.nullable
  {
    !exists f :: f in r.fieldNames && f !in s.nullable[n]
  }

  /** A foreign key from `n` to another tenant table that leads back to `n`. */
  ghost predicate LiesOnCycle(rels: Relations, n: Name, r: Relation) {
    && n in rels && r in rels[n] && r.target in rels && r.target != n
    && Reaches(Dependencies(rels), rels.Keys, r.target, n)
  }

  /** A foreign key that may be deferred: it lies on a cycle and every column of it can be empty. */
  ghost predicate IsBreaker(s: Schema, rels: Relations, n: Name, k: nat) {
    && n in rels && n in s.nullable && k < |rels[n]|
    && CanBeEmpty(s, n, rels[n][k]) && LiesOnCycle(rels, n, rels[n][k])
  }

  /** How a foreign key sorts among the candidates; any collation. */
  type Collation = (Name, seq<string>) -> int

  datatype Deferral = Deferral(table: Name, index: nat)

  function Key(rels: Relations, rank: Collation, d: Deferral): int {
    if d.table in rels && d.index < |rels[d.table]| then rank(d.table, rels[d.table][d.index].fieldNames) else 0
  }

  ghost predicate IsFirstBreaker(s: Schema, rels: Relations, rank: Collation, first: Deferral) {
    && IsBreaker(s, rels, first.table, first.index)
    && forall n, k: nat :: IsBreaker(s, rels, n, k) ==>
         rank(first.table, rels[first.table][first.index].fieldNames) <= rank(n, rels[n][k].fieldNames)
  }

  function Without<T>(rs: seq<T>, k: nat): seq<T>
    requires k < |rs|
  {
    rs[..k] + rs[k + 1..]
  }

  /** `steps` turn `rels` into `last`, each removing the first breaker there is. */
  ghost predicate DeferredInTurn(s: Schema, rels: Relations, rank: Collation, steps: seq<Deferral>, last: Relations)
    decreases |steps|
  {
    if steps == [] then rels == last
    else
      var d := steps[0];
      && IsFirstBreaker(s, rels, rank, d)
      && DeferredInTurn(s, rels[d.table := Without(rels[d.table], d.index)], rank, steps[1..], last)
  }

  /** A cycle of distinct tables, each link of which is a foreign key with a required column. */
  ghost predicate IsRequiredCycle(s: Schema, rels: Relations, c: seq<Name>) {
    && |c| >= 2 && Distinct(c)
    && forall i: nat {:trigger RequiredLinkAt(s, rels, c, i)} :: i < |c| ==> RequiredLinkAt(s, rels, c, i)
  }

  ghost predicate RequiredLinkAt(s: Schema, rels: Relations, c: seq<Name>, i: nat) {
    i < |c| && RequiredLink(s, rels, c[i], c[Next(c, i)])
  }

  ghost predicate RequiredLink(s: Schema, rels: Relations, n: Name, m: Name) {
    n in rels && n in s.nullable && m in rels && exists r :: r in rels[n] && r.target == m && !CanBeEmpty(s, n, r)
  }

  datatype Outcome =
    | Ordered(order: seq<Name>, kept: Relations, deferred: Relations)
    | Stuck

  // ----- Kahn's algorithm -----

  /** For every table, the tables that wait for it. */
  method DependentsOf(names: seq<Name>, g: Graph) returns (dependents: map<Name, seq<Name>>)
    requires Distinct(names) && Elements(names) == g.Keys && Closed(g)
    ensures Lists(g, g.Keys, dependents)
  {
    dependents := map n | n in g :: [];
    for i := 0 to |names|
      invariant Lists(g, Elements(names[..i]), dependents)
    {
      NotAmongEarlier(names, i);
      ElementsStep(names, i);
      dependents := ListAs(g, Elements(names[..i]), names[i], dependents);
    }
    ElementsAll(names);
  }

  /** `dependents[n]` lists each table of `among` that depends on `n`, once. */
  ghost predicate Lists(g: Graph, among: set<Name>, dependents: map<Name, seq<Name>>) {
    dependents.Keys == g.Keys && forall n {:trigger ListedAt(g, among, dependents, n)} ::
      n in g ==> ListedAt(g, among, dependents, n)
  }

  ghost predicate ListedAt(g: Graph, among: set<Name>, dependents: map<Name, seq<Name>>, n: Name)
    requires n in dependents
  {
    Distinct(dependents[n]) && Elements(dependents[n]) == Waiting(g, among, n)
  }

  ghost function Waiting(g: Graph, among: set<Name>, n: Name): set<Name> {
    set m | m in among && m in g && n in g[m]
  }

  method ListAs(g: Graph, ghost among: set<Name>, m: Name, dependents0: map<Name, seq<Name>>)
      returns (dependents: map<Name, seq<Name>>)
    requires Closed(g) && m in g && m !in among && Lists(g, among, dependents0)
    ensures Lists(g, among + {m}, dependents)
  {
    dependents := dependents0;
    var todo := g[m];
    while todo != {}
      invariant todo <= g[m] && dependents.Keys == g.Keys
      invariant forall n {:trigger ListedAt(g, among + {m}, dependents, n)} ::
        n in g && n in g[m] && n !in todo ==> ListedAt(g, among + {m}, dependents, n)
      invariant forall n {:trigger ListedAt(g, among, dependents, n)} ::
        n in g && (n !in g[m] || n in todo) ==> ListedAt(g, among, dependents, n)
    {
      var dep :| dep in todo;
      ghost var before := dependents;
      assert ListedAt(g, among, before, dep);
      ElementsAppend(dependents[dep], m);
      assert Waiting(g, among + {m}, dep) == Waiting(g, among, dep) + {m};
      dependents := dependents[dep := dependents[dep] + [m]];
      todo := todo - {dep};
      assert ListedAt(g, among + {m}, dependents, dep);
      forall n | n in g && n != dep && n in g[m] && n !in todo ensures ListedAt(g, among + {m}, dependents, n) {
        assert ListedAt(g, among + {m}, before, n);
      }
      forall n | n in g && (n !in g[m] || n in todo) ensures ListedAt(g, among, dependents, n) {
        assert ListedAt(g, among, before, n);
      }
    }
    forall n | n in g && n !in g[m] ensures ListedAt(g, among + {m}, dependents, n) {
      assert ListedAt(g, among, dependents, n);
      assert Waiting(g, among + {m}, n) == Waiting(g, among, n);
    }
  }

  /** What the counters and the ready list hold once `placed` has been placed. */
  ghost predicate Counted(g: Graph, placed: set<Name>, remaining: map<Name, nat>) {
    remaining.Keys == g.Keys && forall n {:trigger CountedAt(g, placed, remaining, n)} ::
      n in g ==> CountedAt(g, placed, remaining, n)
  }

  ghost predicate CountedAt(g: Graph, placed: set<Name>, remaining: map<Name, nat>, n: Name)
    requires n in g && n in remaining
  {
    remaining[n] == |g[n] - placed|
  }

  /**
   * Part-way through placing `name`: its dependents in `done` have been counted down, `ready`
   * holds those that became ready.
   */
  ghost predicate Halfway(g: Graph, placed: set<Name>, name: Name, done: set<Name>, ready: seq<Name>,
      remaining: map<Name, nat>) {
    && CountedUpTo(g, placed, name, done, remaining)
    && Distinct(ready) && Elements(ready) == Ready(g, placed) - {name} + Freed(g, placed + {name}, done)
  }

  method CountOne(g: Graph, ghost placed: set<Name>, name: Name, ghost done: set<Name>, d: Name, ready0: seq<Name>,
      remaining0: map<Name, nat>)
    returns (ready: seq<Name>, remaining: map<Name, nat>)
    requires Halfway(g, placed, name, done, ready0, remaining0)
    requires d in g && d !in done && name in g[d] && name !in placed
    ensures Halfway(g, placed, name, done + {d}, ready, remaining)
  {
    CountedStep(g, placed, name, done, d, remaining0);
    FreedStep(g, placed + {name}, done, d);
    var left := remaining0[d] - 1;
    ready, remaining := ready0, remaining0[d := left];
    if left == 0 {
      ElementsAppend(ready, d);
      ready := ready + [d];
    }
  }

  /** Placing `name`: each table that waits for it has one dependency fewer to go, and may become ready. */
  method CountDown(g: Graph, ghost placed: set<Name>, name: Name, dependents: seq<Name>, ready0: seq<Name>,
      remaining0: map<Name, nat>)
    returns (ready: seq<Name>, remaining: map<Name, nat>)
    requires Closed(g) && name in Ready(g, placed) && forall n :: n in placed ==> n in g && g[n] <= placed
    requires Distinct(dependents) && Elements(dependents) == Waiting(g, g.Keys, name)
    requires Halfway(g, placed, name, {}, ready0, remaining0)
    ensures Counted(g, placed + {name}, remaining)
    ensures Distinct(ready) && Elements(ready) == Ready(g, placed + {name})
  {
    ready, remaining := ready0, remaining0;
    for k := 0 to |dependents|
      invariant Halfway(g, placed, name, Elements(dependents[..k]), ready, remaining)
    {
      NotAmongEarlier(dependents, k);
      ElementsStep(dependents, k);
      assert dependents[k] in Waiting(g, g.Keys, name);
      ready, remaining := CountOne(g, placed, name, Elements(dependents[..k]), dependents[k], ready, remaining);
    }
    ElementsAll(dependents);
    AllCounted(g, placed, name, remaining);
    ReadyAfter(g, placed, name);
  }

  lemma AllCounted(g: Graph, placed: set<Name>, name: Name, remaining: map<Name, nat>)
    requires CountedUpTo(g, placed, name, Waiting(g, g.Keys, name), remaining)
    ensures Counted(g, placed + {name}, remaining)
  {
    forall n | n in g ensures CountedAt(g, placed + {name}, remaining, n) {
      if n !in Waiting(g, g.Keys, name) {
        assert CountedAt(g, placed, remaining, n);
        assert g[n] - placed == g[n] - (placed + {name});
      }
    }
  }

  lemma ReadyAfter(g: Graph, placed: set<Name>, name: Name)
    requires Closed(g) && name in Ready(g, placed) && forall n :: n in placed ==> n in g && g[n] <= placed
    ensures Ready(g, placed + {name}) == Ready(g, placed) - {name} + Freed(g, placed + {name}, Waiting(g, g.Keys, name))
  {
  }

  lemma CountedStep(g: Graph, placed: set<Name>, name: Name, done: set<Name>, d: Name, remaining: map<Name, nat>)
    requires CountedUpTo(g, placed, name, done, remaining) && d in g && d !in done && name in g[d] && name !in placed
    ensures remaining[d] > 0
    ensures remaining[d] == 1 <==> g[d] <= placed + {name}
    ensures CountedUpTo(g, placed, name, done + {d}, remaining[d := remaining[d] - 1])
  {
    assert CountedAt(g, placed, remaining, d);
    OneFewer(g[d], placed, name);
    var after := remaining[d := remaining[d] - 1];
    forall n | n in g && n in done + {d} ensures CountedAt(g, placed + {name}, after, n) {
      assert n in done ==> CountedAt(g, placed + {name}, remaining, n);
    }
    forall n | n in g && n !in done + {d} ensures CountedAt(g, placed, after, n) {
      assert CountedAt(g, placed, remaining, n);
    }
  }

  lemma OneFewer(deps: set<Name>, placed: set<Name>, name: Name)
    requires name in deps && name !in placed
    ensures |deps - placed| == |deps - (placed + {name})| + 1
    ensures |deps - (placed + {name})| == 0 <==> deps <= placed + {name}
  {
    assert deps - placed == (deps - (placed + {name})) + {name};
  }

  lemma FreedStep(g: Graph, placed: set<Name>, among: set<Name>, d: Name)
    requires d in g
    ensures Freed(g, placed, among + {d}) == Freed(g, placed, among) + (if g[d] <= placed then {d} else {})
  {
  }

  ghost predicate CountedUpTo(g: Graph, placed: set<Name>, name: Name, done: set<Name>, remaining: map<Name, nat>) {
    && remaining.Keys == g.Keys
    && (forall n {:trigger CountedAt(g, placed + {name}, remaining, n)} ::
      n in g && n in done ==> CountedAt(g, placed + {name}, remaining, n))
    && (forall n {:trigger CountedAt(g, placed, remaining, n)} ::
      n in g && n !in done ==> CountedAt(g, placed, remaining, n))
  }

  ghost function Freed(g: Graph, placed: set<Name>, among: set<Name>): set<Name> {
    set n | n in among && n in g && g[n] <= placed
  }

  /** What holds between two placements. */
  ghost predicate Placing(g: Graph, order: seq<Name>, ready: seq<Name>, remaining: map<Name, nat>) {
    && Greedy(g, order) && Elements(order) <= g.Keys
    && (forall n :: n in Elements(order) ==> n in g && g[n] <= Elements(order))
    && Counted(g, Elements(order), remaining)
    && Distinct(ready) && Elements(ready) == Ready(g, Elements(order))
  }

  method PlaceFirst(g: Graph, dependents: map<Name, seq<Name>>, order0: seq<Name>, ready0: seq<Name>,
      remaining0: map<Name, nat>)
    returns (order: seq<Name>, ready: seq<Name>, remaining: map<Name, nat>)
    requires Closed(g) && Lists(g, g.Keys, dependents) && Placing(g, order0, ready0, remaining0) && ready0 != []
    ensures Placing(g, order, ready, remaining) && Elements(order0) < Elements(order)
  {
    var k := LeastIndex(ready0);
    var name := ready0[k];
    assert name in Elements(ready0);
    TakenOut(ready0, k);
    GreedyStep(g, order0, name);
    ElementsAppend(order0, name);
    assert ListedAt(g, g.Keys, dependents, name);
    ready, remaining := CountDown(g, Elements(order0), name, dependents[name], Without(ready0, k), remaining0);
    order := order0 + [name];
  }

  lemma PlacingAtFirst(names: seq<Name>, g: Graph, remaining: map<Name, nat>)
    requires Distinct(names) && Elements(names) == g.Keys && forall n :: n in names ==> n in remaining
    requires remaining.Keys == g.Keys && forall n :: n in g ==> n in remaining && remaining[n] == |g[n]|
    ensures Placing(g, [], NoneLeft(names, remaining), remaining)
  {
    forall n | n in g ensures CountedAt(g, {}, remaining, n) {
      assert g[n] - {} == g[n];
    }
    assert Elements([]) == {};
    ReadyAtFirst(names, g, remaining);
  }

  lemma ReadyAtFirst(names: seq<Name>, g: Graph, remaining: map<Name, nat>)
    requires Elements(names) == g.Keys && forall n :: n in names ==> n in remaining
    requires forall n :: n in g ==> n in remaining && remaining[n] == |g[n]|
    ensures Elements(NoneLeft(names, remaining)) == Ready(g, {})
  {
    forall n ensures n in Elements(NoneLeft(names, remaining)) <==> n in Ready(g, {}) {
      if n in g {
        assert n in Elements(names);
        assert |g[n]| == 0 <==> g[n] == {};
      } else {
        assert n !in Elements(names);
      }
    }
  }

  /** One pass: places the alphabetically first ready table until none is ready. */
  method Sort(names: seq<Name>, g: Graph) returns (order: seq<Name>)
    requires Distinct(names) && Elements(names) == g.Keys && Closed(g)
    ensures Greedy(g, order) && Elements(order) <= g.Keys
    ensures Ready(g, Elements(order)) == {}
  {
    var dependents := DependentsOf(names, g);
    var remaining: map<Name, nat> := map n | n in g :: |g[n]|;
    forall n | n in names ensures n in g { assert n in Elements(names); }
    var ready := NoneLeft(names, remaining);
    order := [];
    PlacingAtFirst(names, g, remaining);
    while ready != []
      invariant Placing(g, order, ready, remaining)
      decreases g.Keys - Elements(order)
    {
      order, ready, remaining := PlaceFirst(g, dependents, order, ready, remaining);
    }
  }

  lemma TakenOut(s: seq<Name>, k: nat)
    requires Distinct(s) && k < |s|
    ensures Distinct(Without(s, k)) && Elements(Without(s, k)) == Elements(s) - {s[k]}
  {
    var t := Without(s, k);
    forall x | x in s && x != s[k] ensures x in t {
      var i :| 0 <= i < |s| && s[i] == x;
      assert t[if i < k then i else i - 1] == x;
    }
  }

  lemma GreedyStep(g: Graph, order: seq<Name>, name: Name)
    requires Greedy(g, order) && IsLeast(Ready(g, Elements(order)), name)
    ensures Greedy(g, order + [name])
  {
    var longer := order + [name];
    forall i | 0 <= i < |longer| ensures IsLeast(Ready(g, Elements(longer[..i])), longer[i]) {
      assert longer[..i] == order[..i];
      if i == |order| {
        assert order[..i] == order;
      }
    }
  }

  /** The tables with nothing left to wait for. */
  function NoneLeft(names: seq<Name>, remaining: map<Name, nat>): (ready: seq<Name>)
    requires forall n :: n in names ==> n in remaining
    ensures forall n :: n in ready <==> n in names && remaining[n] == 0
    ensures Distinct(names) ==> Distinct(ready)
  {
    if names == [] then [] else
      var rest := NoneLeft(names[1..], remaining);
      if remaining[names[0]] == 0 then [names[0]] + rest else rest
  }

  // ----- looking for a cycle -----

  method AsSequence(s: set<Name>) returns (q: seq<Name>)
    ensures Elements(q) == s
  {
    q := [];
    var rest := s;
    while rest != {}
      invariant rest <= s && Elements(q) == s - rest
    {
      var x :| x in rest;
      ghost var before := q;
      q, rest := q + [x], rest - {x};
      assert Elements(q) == Elements(before) + {x};
    }
  }

  /** Whether `from` leads to `to` through stuck tables: a breadth-first search. */
  method SearchFor(g: Graph, stuck: set<Name>, from: Name, to: Name) returns (found: bool)
    requires Closed(g) && stuck <= g.Keys
    ensures found <==> Reaches(g, stuck, from, to)
  {
    var seen: set<Name> := {};
    var queue := [from];
    ReachesItself(g, stuck, from);
    while queue != []
      invariant seen <= stuck && to !in seen
      invariant forall n :: n in queue ==> Reaches(g, stuck, from, n)
      invariant forall n :: n in seen ==> Reaches(g, stuck, from, n)
      invariant Pending(stuck, seen, queue, to, from)
      invariant forall n, d :: n in seen && d in g[n] ==> Pending(stuck, seen, queue, to, d)
      decreases stuck - seen, |queue|
    {
      var name := queue[0];
      ghost var before, seenBefore := queue, seen;
      queue := queue[1..];
      assert before == [name] + queue;
      if name == to {
        return true;
      }
      if name !in seen && name in stuck {
        seen := seen + {name};
        var more := AsSequence(g[name]);
        forall d | d in g[name] ensures Reaches(g, stuck, from, d) && d in more {
          assert d in Elements(more);
          ReachesStep(g, stuck, from, name, d);
        }
        forall n | n in more ensures Reaches(g, stuck, from, n) {
          assert n in Elements(more);
        }
        queue := queue + more;
      }
      forall d | Pending(stuck, seenBefore, before, to, d) ensures Pending(stuck, seen, queue, to, d) {}
    }
    if Reaches(g, stuck, from, to) {
      var p :| IsWalk(g, stuck, p, from, to);
      var inside := seen + {from} + set n | n in g && n !in stuck && n != to;
      forall n, d | n in seen && d in g[n] ensures d in inside {
        assert Pending(stuck, seen, queue, to, d);
      }
      WalkStaysInside(g, stuck, inside, p, from, to, |p| - 1);
    }
    return false;
  }

  /** A table met by the search: looked at, waiting, or of no use. */
  ghost predicate Pending(stuck: set<Name>, seen: set<Name>, queue: seq<Name>, to: Name, n: Name) {
    n in seen || n in queue || (n !in stuck && n != to)
  }

  /** A relation the search considers: between stuck tables, fully nullable, and leading back through stuck tables. */
  ghost predicate IsCandidate(s: Schema, rels: Relations, stuck: set<Name>, n: Name, k: nat) {
    && n in stuck && n in rels && n in s.nullable && k < |rels[n]|
    && rels[n][k].target in stuck && rels[n][k].target != n && CanBeEmpty(s, n, rels[n][k])
    && Reaches(Dependencies(rels), stuck, rels[n][k].target, n)
  }

  /**
   * The tables left over by a pass, and only they, can lie on a cycle: its candidates are all the
   * breakers there are.
   */
  lemma CandidatesAreBreakers(s: Schema, rels: Relations, order: seq<Name>, n: Name, k: nat)
    requires Greedy(Dependencies(rels), order)
    ensures IsCandidate(s, rels, rels.Keys - Elements(order), n, k) <==> IsBreaker(s, rels, n, k)
  {
    var g, stuck := Dependencies(rels), rels.Keys - Elements(order);
    GreedyPlacesDependenciesFirst(g, order);
    if IsCandidate(s, rels, stuck, n, k) {
      ReachesWithinMore(g, stuck, rels.Keys, rels[n][k].target, n);
    }
    if IsBreaker(s, rels, n, k) {
      assert rels[n][k].target in g[n] && g.Keys == rels.Keys;
      CycleIsStuck(g, order, n, rels[n][k].target);
    }
  }

  lemma ReachesWithinMore(g: Graph, some: set<Name>, more: set<Name>, a: Name, b: Name)
    requires some <= more && Reaches(g, some, a, b)
    ensures Reaches(g, more, a, b)
  {
    var p :| IsWalk(g, some, p, a, b);
    assert IsWalk(g, more, p, a, b);
  }

  /** A way back to a table runs through tables the pass left over. */
  lemma CycleIsStuck(g: Graph, order: seq<Name>, n: Name, d: Name)
    requires Distinct(order) && DependenciesFirst(g, order) && n in g && d in g[n] && d in g && Reaches(g, g.Keys, d, n)
    ensures n !in Elements(order) && d !in Elements(order) && Reaches(g, g.Keys - Elements(order), d, n)
  {
    if n in order {
      PlacedIsAcyclic(g, g.Keys, order, n, d);
    }
    var p :| IsWalk(g, g.Keys, p, d, n);
    forall i: nat | i < |p| ensures p[i] !in order {
      if p[i] in order {
        WalkStaysPlaced(g, g.Keys, order, p, d, n, i, |p| - 1);
      }
    }
    assert IsWalk(g, g.Keys - Elements(order), p, d, n);
  }

  lemma WalkStaysPlaced(g: Graph, within: set<Name>, order: seq<Name>, p: seq<Name>, a: Name, b: Name, i: nat, k: nat)
    requires DependenciesFirst(g, order) && IsWalk(g, within, p, a, b)
    requires i <= k < |p| && p[i] in order
    ensures p[k] in order
    decreases k
  {
    if i < k {
      WalkStaysPlaced(g, within, order, p, a, b, i, k - 1);
      var j :| 0 <= j < |order| && order[j] == p[k - 1];
      assert p[k - 1 + 1] in g[p[k - 1]];
      assert p[k] in Elements(order[..j]);
    }
  }

  method TestCandidate(s: Schema, rels: Relations, stuck: set<Name>, n: Name, k: nat) returns (yes: bool)
    requires s.Valid() && rels.Keys == s.relations.Keys && stuck <= rels.Keys && n in stuck && k < |rels[n]|
    ensures yes <==> IsCandidate(s, rels, stuck, n, k)
  {
    var r := rels[n][k];
    yes := r.target in stuck && r.target != n && FullyNullable(s, n, r);
    assert FullyNullable(s, n, r) <==> CanBeEmpty(s, n, r);
    if yes {
      DependenciesClosed(rels);
      yes := SearchFor(Dependencies(rels), stuck, r.target, n);
    }
  }

  method CandidatesOf(s: Schema, rels: Relations, stuck: set<Name>, n: Name) returns (cs: seq<Deferral>)
    requires s.Valid() && rels.Keys == s.relations.Keys && stuck <= rels.Keys && n in stuck
    ensures forall d :: d in cs <==> d.table == n && IsCandidate(s, rels, stuck, n, d.index)
  {
    cs := [];
    for k := 0 to |rels[n]|
      invariant forall d :: d in cs <==> d.table == n && d.index < k && IsCandidate(s, rels, stuck, n, d.index)
    {
      var yes := TestCandidate(s, rels, stuck, n, k);
      if yes {
        cs := cs + [Deferral(n, k)];
      }
    }
  }

  method Candidates(s: Schema, rels: Relations, stuck: set<Name>) returns (cs: seq<Deferral>)
    requires s.Valid() && rels.Keys == s.relations.Keys && stuck <= rels.Keys
    ensures forall d :: d in cs <==> IsCandidate(s, rels, stuck, d.table, d.index)
  {
    cs := [];
    for i := 0 to |s.names|
      invariant forall d ::
        d in cs <==> d.table in Elements(s.names[..i]) && IsCandidate(s, rels, stuck, d.table, d.index)
    {
      ElementsStep(s.names, i);
      if s.names[i] in stuck {
        var more := CandidatesOf(s, rels, stuck, s.names[i]);
        cs := cs + more;
      }
    }
    ElementsAll(s.names);
  }

  /** The first of those with the least key. */
  method FirstInOrder(cs: seq<Deferral>, key: Deferral -> int) returns (first: Deferral)
    requires cs != []
    ensures first in cs && forall d :: d in cs ==> key(first) <= key(d)
  {
    first := cs[0];
    for i := 1 to |cs|
      invariant first in cs && forall j :: 0 <= j < i ==> key(first) <= key(cs[j])
    {
      if key(cs[i]) < key(first) {
        first := cs[i];
      }
    }
  }

  // ----- deferring -----

  function Total(names: seq<Name>, rels: Relations): nat
  {
    if names == [] then 0 else (if names[0] in rels then |rels[names[0]]| else 0) + Total(names[1..], rels)
  }

  lemma TotalDrops(names: seq<Name>, rels: Relations, n: Name, k: nat)
    requires Distinct(names) && n in rels && k < |rels[n]|
    ensures Total(names, rels[n := Without(rels[n], k)]) == Total(names, rels) - (if n in names then 1 else 0)
  {
    if names != [] {
      TotalDrops(names[1..], rels, n, k);
    }
  }

  lemma RequiredCyclesStay(s: Schema, rels: Relations, n: Name, k: nat, c: seq<Name>)
    requires n in rels && k < |rels[n]| && n in s.nullable && CanBeEmpty(s, n, rels[n][k])
    ensures IsRequiredCycle(s, rels, c) <==> IsRequiredCycle(s, rels[n := Without(rels[n], k)], c)
  {
    var after := rels[n := Without(rels[n], k)];
    forall r | !CanBeEmpty(s, n, r) ensures r in rels[n] <==> r in after[n] {
      if r in rels[n] {
        var i :| 0 <= i < |rels[n]| && rels[n][i] == r;
        assert after[n][if i < k then i else i - 1] == r;
      }
    }
    forall a, b ensures RequiredLink(s, rels, a, b) <==> RequiredLink(s, after, a, b) {}
    forall i: nat ensures RequiredLinkAt(s, rels, c, i) <==> RequiredLinkAt(s, after, c, i) {}
  }

  lemma DeferredOnceMore(s: Schema, rels: Relations, rank: Collation, steps: seq<Deferral>, last: Relations,
      d: Deferral)
    requires DeferredInTurn(s, rels, rank, steps, last) && IsFirstBreaker(s, last, rank, d)
    ensures DeferredInTurn(s, rels, rank, steps + [d], last[d.table := Without(last[d.table], d.index)])
    decreases |steps|
  {
    if steps == [] {
      assert steps + [d] == [d];
      assert [d][1..] == [];
    } else {
      var e := steps[0];
      DeferredOnceMore(s, rels[e.table := Without(rels[e.table], e.index)], rank, steps[1..], last, d);
      assert (steps + [d])[1..] == steps[1..] + [d];
    }
  }

  /** A pass that leaves tables over has left a cycle over. */
  lemma LeftOverHasCycle(g: Graph, placed: set<Name>, first: Name) returns (c: seq<Name>)
    requires Closed(g) && Ready(g, placed) == {} && first in g.Keys - placed
    ensures IsCycle(g, c) && Elements(c) <= g.Keys - placed
  {
    var stuck := g.Keys - placed;
    forall n | n in stuck ensures g[n] * stuck != {} {
      assert n !in Ready(g, placed);
      var d :| d in g[n] && d !in placed;
      assert d in g[n] * stuck;
    }
    assert Elements([first]) == {first};
    c := StuckHasCycle(g, stuck, [first]);
  }

  lemma RequiredOnCycle(s: Schema, rels: Relations, stuck: set<Name>, c: seq<Name>, i: nat)
    requires s.Valid() && rels.Keys == s.relations.Keys
    requires IsCycle(Dependencies(rels), c) && Elements(c) <= stuck && i < |c|
    requires forall n, k: nat :: !IsCandidate(s, rels, stuck, n, k)
    ensures RequiredLink(s, rels, c[i], c[Next(c, i)])
  {
    assert CycleAt(Dependencies(rels), c, i);
    var n, m := c[i], c[Next(c, i)];
    assert n in Elements(c) && m in Elements(c) && m in Dependencies(rels)[n];
    var r :| r in rels[n] && r.target == m;
    if CanBeEmpty(s, n, r) {
      var k :| 0 <= k < |rels[n]| && rels[n][k] == r;
      CycleLeadsBack(Dependencies(rels), c, stuck, i);
      assert IsCandidate(s, rels, stuck, n, k);
    }
  }

  lemma OrderedHasNoCycle(g: Graph, order: seq<Name>, c: seq<Name>)
    requires IsTopological(g, order)
    ensures !IsCycle(g, c)
  {
    if IsCycle(g, c) {
      CycleLeadsBack(g, c, Elements(c), 0);
      assert CycleAt(g, c, 0) && c[0] in Elements(order);
      PlacedIsAcyclic(g, Elements(c), order, c[0], c[Next(c, 0)]);
    }
  }

  lemma RequiredCycleBlocks(s: Schema, rels: Relations, order: seq<Name>, c: seq<Name>)
    requires IsTopological(Dependencies(rels), order)
    ensures !IsRequiredCycle(s, rels, c)
  {
    if IsRequiredCycle(s, rels, c) {
      RequiredCycleIsCycle(s, rels, c);
      OrderedHasNoCycle(Dependencies(rels), order, c);
    }
  }

  lemma RequiredCycleIsCycle(s: Schema, rels: Relations, c: seq<Name>)
    requires IsRequiredCycle(s, rels, c)
    ensures IsCycle(Dependencies(rels), c)
  {
    var g := Dependencies(rels);
    forall i: nat | i < |c| ensures CycleAt(g, c, i) {
      assert RequiredLinkAt(s, rels, c, i);
      assert c[i] != c[Next(c, i)];
    }
  }

  /** Every foreign key is either still in force or deferred, and a deferred one can be empty. */
  ghost predicate Accounted(s: Schema, kept: Relations, deferred: Relations) {
    && kept.Keys == deferred.Keys == s.relations.Keys == s.nullable.Keys
    && forall n {:trigger AccountedAt(s, kept, deferred, n)} :: n in s.relations ==> AccountedAt(s, kept, deferred, n)
  }

  ghost predicate AccountedAt(s: Schema, kept: Relations, deferred: Relations, n: Name)
    requires n in s.relations && n in kept && n in deferred && n in s.nullable
  {
    && multiset(kept[n]) + multiset(deferred[n]) == multiset(s.relations[n])
    && forall r :: r in deferred[n] ==> CanBeEmpty(s, n, r)
  }

  lemma TakenOver(kept: seq<Relation>, deferred: seq<Relation>, k: nat)
    requires k < |kept|
    ensures multiset(Without(kept, k)) + multiset(deferred + [kept[k]]) == multiset(kept) + multiset(deferred)
  {
    assert kept == kept[..k] + [kept[k]] + kept[k + 1..];
  }

  lemma TakenOverAt(s: Schema, kept: Relations, deferred: Relations, n: Name, k: nat)
    requires s.Valid() && Accounted(s, kept, deferred) && n in kept && k < |kept[n]| && CanBeEmpty(s, n, kept[n][k])
    ensures AccountedAt(s, kept[n := Without(kept[n], k)], deferred[n := deferred[n] + [kept[n][k]]], n)
  {
    assert AccountedAt(s, kept, deferred, n);
    TakenOver(kept[n], deferred[n], k);
  }

  lemma OthersAsBefore(s: Schema, kept: Relations, deferred: Relations, n: Name, rs: seq<Relation>, ds: seq<Relation>,
      m: Name)
    requires Accounted(s, kept, deferred) && m in s.relations && m != n
    ensures AccountedAt(s, kept[n := rs], deferred[n := ds], m)
  {
    assert AccountedAt(s, kept, deferred, m);
  }

  lemma StillAccounted(s: Schema, kept: Relations, deferred: Relations, n: Name, k: nat)
    requires s.Valid() && Accounted(s, kept, deferred) && n in kept && k < |kept[n]| && CanBeEmpty(s, n, kept[n][k])
    ensures Accounted(s, kept[n := Without(kept[n], k)], deferred[n := deferred[n] + [kept[n][k]]])
  {
    var rs, ds := Without(kept[n], k), deferred[n] + [kept[n][k]];
    TakenOverAt(s, kept, deferred, n, k);
    forall m | m in s.relations && m != n ensures AccountedAt(s, kept[n := rs], deferred[n := ds], m) {
      OthersAsBefore(s, kept, deferred, n, rs, ds, m);
    }
  }

  /** What each round of the outer loop starts from. */
  ghost predicate Round(s: Schema, rank: Collation, steps: seq<Deferral>, kept: Relations, deferred: Relations) {
    && s.Valid() && Accounted(s, kept, deferred) && DeferredInTurn(s, s.relations, rank, steps, kept)
    && forall c :: IsRequiredCycle(s, s.relations, c) <==> IsRequiredCycle(s, kept, c)
  }

  /** A complete pass: the order is the least there is, and no cycle of required foreign keys exists. */
  lemma CompletePass(s: Schema, kept: Relations, order: seq<Name>)
    requires s.Valid() && kept.Keys == s.relations.Keys && Greedy(Dependencies(kept), order) &&
      Elements(order) <= kept.Keys
    requires |order| == |s.names|
    ensures IsTopological(Dependencies(kept), order)
    ensures forall other :: IsTopological(Dependencies(kept), other) ==> order == other || LexicallyBefore(order, other)
    ensures forall c :: !IsRequiredCycle(s, kept, c)
  {
    var g := Dependencies(kept);
    GreedyPlacesDependenciesFirst(g, order);
    DistinctSize(order);
    DistinctSize(s.names);
    assert g.Keys == Elements(s.names);
    SameSize(Elements(order), g.Keys);
    forall other | IsTopological(g, other) ensures order == other || LexicallyBefore(order, other) {
      GreedyIsLexicallyLeast(g, order, other);
    }
    forall c ensures !IsRequiredCycle(s, kept, c) {
      RequiredCycleBlocks(s, kept, order, c);
    }
  }

  /** An incomplete pass that leaves nothing to defer. */
  lemma DeadEnd(s: Schema, kept: Relations, order: seq<Name>)
    requires s.Valid() && kept.Keys == s.relations.Keys && |order| != |s.names|
    requires Greedy(Dependencies(kept), order) && Ready(Dependencies(kept), Elements(order)) == {} &&
      Elements(order) <= kept.Keys
    requires forall n, k: nat :: !IsCandidate(s, kept, kept.Keys - Elements(order), n, k)
    ensures exists c :: IsRequiredCycle(s, kept, c)
  {
    DependenciesClosed(kept);
    var first := NotAllPlaced(s, Dependencies(kept), order);
    var c := LeftOverHasCycle(Dependencies(kept), Elements(order), first);
    forall i: nat | i < |c| ensures RequiredLinkAt(s, kept, c, i) {
      RequiredOnCycle(s, kept, kept.Keys - Elements(order), c, i);
    }
    assert IsRequiredCycle(s, kept, c);
  }

  lemma NotAllPlaced(s: Schema, g: Graph, order: seq<Name>) returns (n: Name)
    requires s.Valid() && g.Keys == s.relations.Keys && Greedy(g, order) && Elements(order) <= g.Keys &&
      |order| != |s.names|
    ensures n in g.Keys - Elements(order)
  {
    GreedyPlacesDependenciesFirst(g, order);
    SizesTell(s.names, order);
    n :| n in Elements(s.names) && n !in Elements(order);
  }

  lemma SizesTell(names: seq<Name>, order: seq<Name>)
    requires Distinct(names) && Distinct(order) && Elements(order) <= Elements(names) && |order| != |names|
    ensures !(Elements(names) <= Elements(order))
  {
    DistinctSize(order);
    DistinctSize(names);
    assert Elements(names) <= Elements(order) ==> Elements(names) == Elements(order);
  }

  lemma FirstOfCandidates(s: Schema, rank: Collation, kept: Relations, order: seq<Name>, cs: seq<Deferral>, d: Deferral)
    requires s.Valid() && kept.Keys == s.relations.Keys && Greedy(Dependencies(kept), order)
    requires forall e :: e in cs <==> IsCandidate(s, kept, kept.Keys - Elements(order), e.table, e.index)
    requires d in cs && forall e :: e in cs ==> Key(kept, rank, d) <= Key(kept, rank, e)
    ensures IsFirstBreaker(s, kept, rank, d)
  {
    CandidatesAreBreakers(s, kept, order, d.table, d.index);
    forall n, k: nat | IsBreaker(s, kept, n, k)
      ensures rank(d.table, kept[d.table][d.index].fieldNames) <= rank(n, kept[n][k].fieldNames) {
      CandidatesAreBreakers(s, kept, order, n, k);
      assert Deferral(n, k) in cs;
      assert Key(kept, rank, d) <= Key(kept, rank, Deferral(n, k));
    }
  }

  lemma NextRound(s: Schema, rank: Collation, steps: seq<Deferral>, kept: Relations, deferred: Relations,
      order: seq<Name>, cs: seq<Deferral>, d: Deferral)
    requires Round(s, rank, steps, kept, deferred) && Greedy(Dependencies(kept), order)
    requires forall e :: e in cs <==> IsCandidate(s, kept, kept.Keys - Elements(order), e.table, e.index)
    requires d in cs && forall e :: e in cs ==> Key(kept, rank, d) <= Key(kept, rank, e)
    ensures d.table in kept && d.index < |kept[d.table]| && d.table in deferred
    ensures
      var after := kept[d.table := Without(kept[d.table], d.index)];
      && Round(s, rank, steps + [d], after, deferred[d.table := deferred[d.table] + [kept[d.table][d.index]]])
      && Total(s.names, after) < Total(s.names, kept)
  {
    FirstOfCandidates(s, rank, kept, order, cs, d);
    DeferredOnceMore(s, s.relations, rank, steps, kept, d);
    StillAccounted(s, kept, deferred, d.table, d.index);
    assert d.table in Elements(s.names);
    TotalDrops(s.names, kept, d.table, d.index);
    forall c { RequiredCyclesStay(s, kept, d.table, d.index, c); }
  }

  /**
   * The whole computation. It fails exactly when some cycle of distinct
   * tables uses only foreign keys with a required column; otherwise the order
   * is the alphabetically least one that puts every table after those its
   * remaining foreign keys point at, and `steps` tells how the rest came to
   * be deferred.
   */
  method InsertOrder(s: Schema, rank: Collation) returns (outcome: Outcome, ghost steps: seq<Deferral>)
    requires s.Valid()
    ensures outcome.Stuck? <==> exists c :: IsRequiredCycle(s, s.relations, c)
    ensures outcome.Ordered? ==>
      && Accounted(s, outcome.kept, outcome.deferred)
      && DeferredInTurn(s, s.relations, rank, steps, outcome.kept)
      && IsTopological(Dependencies(outcome.kept), outcome.order)
      && forall other ::
        IsTopological(Dependencies(outcome.kept), other) ==>
          outcome.order == other || LexicallyBefore(outcome.order, other)
  {
    var kept := s.relations;
    var deferred: Relations := map n | n in s.relations :: [];
    steps := [];
    while true
      invariant Round(s, rank, steps, kept, deferred)
      decreases Total(s.names, kept)
    {
      DependenciesClosed(kept);
      var order := Sort(s.names, Dependencies(kept));
      if |order| == |s.names| {
        CompletePass(s, kept, order);
        return Ordered(order, kept, deferred), steps;
      }
      var cs := Candidates(s, kept, kept.Keys - Elements(order));
      if cs == [] {
        forall n, k: nat ensures !IsCandidate(s, kept, kept.Keys - Elements(order), n, k) {
          assert Deferral(n, k) !in cs;
        }
        DeadEnd(s, kept, order);
        return Stuck, steps;
      }
      var d := FirstInOrder(cs, e => Key(kept, rank, e));
      NextRound(s, rank, steps, kept, deferred, order, cs, d);
      deferred := deferred[d.table := deferred[d.table] + [kept[d.table][d.index]]];
      kept := kept[d.table := Without(kept[d.table], d.index)];
      steps := steps + [d];
    }
  }

  lemma SameSize(a: set<Name>, b: set<Name>)
    requires a <= b && |a| == |b|
    ensures a == b
  {
    if !(b <= a) {
      var x :| x in b && x !in a;
      SubsetSize(a, b - {x});
    }
  }
}
