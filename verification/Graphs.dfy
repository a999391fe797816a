/** Finite dependency graphs over table names: walks, orders and cycles. */
module Graphs {

  datatype Name = Name(text: string)

  /** `g[n]` is the set of tables that `n` depends on. */
  type Graph = map<Name, set<Name>>

  ghost predicate Closed(g: Graph) {
    forall n, d :: n in g && d in g[n] ==> d in g && d != n
  }

  predicate Distinct(s: seq<Name>) {
    forall i, j :: 0 <= i < j < |s| ==> s[i] != s[j]
  }

  function Elements(s: seq<Name>): set<Name> {
    set x | x in s
  }

  // ----- alphabetical order -----

  /** `a` comes before `b` in the default (code unit) string order. */
  predicate Before(a: Name, b: Name) {
    TextBefore(a.text, b.text)
  }

  predicate TextBefore(a: string, b: string)
    decreases |a|
  {
    b != [] && (a == [] || a[0] < b[0] || (a[0] == b[0] && TextBefore(a[1..], b[1..])))
  }

  lemma BeforeTotal(a: string, b: string)
    ensures a == b || TextBefore(a, b) || TextBefore(b, a)
    decreases |a|
  {
    if a != [] && b != [] && a[0] == b[0] {
      BeforeTotal(a[1..], b[1..]);
      assert a[1..] == b[1..] ==> [a[0]] + a[1..] == [b[0]] + b[1..];
    }
  }

  lemma BeforeTransitive(a: string, b: string, c: string)
    requires TextBefore(a, b) && TextBefore(b, c)
    ensures TextBefore(a, c)
    decreases |a|
  {
    if a != [] && a[0] == b[0] == c[0] {
      BeforeTransitive(a[1..], b[1..], c[1..]);
    }
  }

  /** `a` and `b` agree on their first `k` characters, and then `a` ends or has the smaller one. */
  ghost predicate FirstDiffersAt(a: string, b: string, k: nat) {
    k <= |a| && k < |b| && a[..k] == b[..k] && (k == |a| || a[k] < b[k])
  }

  /** The order is that of a dictionary. */
  lemma {:induction false} BeforeIsDictionaryOrder(a: string, b: string)
    ensures TextBefore(a, b) <==> exists k: nat :: FirstDiffersAt(a, b, k)
    decreases |a|
  {
    if a == [] || b == [] || a[0] != b[0] {
      if TextBefore(a, b) {
        assert FirstDiffersAt(a, b, 0);
      }
      if k: nat :| FirstDiffersAt(a, b, k) {
        assert k > 0 ==> a[..k][0] == b[..k][0];
      }
    } else {
      BeforeIsDictionaryOrder(a[1..], b[1..]);
      if k: nat :| FirstDiffersAt(a[1..], b[1..], k) {
        assert a[..k + 1] == [a[0]] + a[1..][..k] && b[..k + 1] == [b[0]] + b[1..][..k];
        assert FirstDiffersAt(a, b, k + 1);
      }
      if k: nat :| FirstDiffersAt(a, b, k) {
        assert a[1..][..k - 1] == a[..k][1..] && b[1..][..k - 1] == b[..k][1..];
        assert FirstDiffersAt(a[1..], b[1..], k - 1);
      }
    }
  }

  ghost predicate IsLeast(s: set<Name>, n: Name) {
    n in s && forall m :: m in s ==> m == n || Before(n, m)
  }

  /** The position of the alphabetically first name. */
  method LeastIndex(names: seq<Name>) returns (k: nat)
    requires names != []
    ensures k < |names| && IsLeast(Elements(names), names[k])
  {
    k := 0;
    for i := 1 to |names|
      invariant k < i
      invariant forall j :: 0 <= j < i ==> names[j] == names[k] || Before(names[k], names[j])
    {
      BeforeTotal(names[i].text, names[k].text);
      if Before(names[i], names[k]) {
        forall j | 0 <= j < i ensures Before(names[i], names[j]) {
          if names[j] != names[k] {
            BeforeTransitive(names[i].text, names[k].text, names[j].text);
          }
        }
        k := i;
      }
    }
  }

  // ----- topological orders -----

  lemma ElementsStep(s: seq<Name>, i: nat)
    requires i < |s|
    ensures Elements(s[..i + 1]) == Elements(s[..i]) + {s[i]}
  {
    assert s[..i + 1] == s[..i] + [s[i]];
  }

  lemma ElementsAll(s: seq<Name>)
    ensures Elements(s[..|s|]) == Elements(s)
  {
    assert s[..|s|] == s;
  }

  lemma NotAmongEarlier(s: seq<Name>, i: nat)
    requires Distinct(s) && i < |s|
    ensures s[i] !in Elements(s[..i]) && s[i] in Elements(s)
  {
  }

  lemma ElementsAppend(s: seq<Name>, x: Name)
    ensures Elements(s + [x]) == Elements(s) + {x}
    ensures Distinct(s) && x !in Elements(s) ==> Distinct(s + [x])
  {
  }

  /** Tables not yet placed whose every dependency is. */
  ghost function Ready(g: Graph, placed: set<Name>): set<Name> {
    set n | n in g && n !in placed && g[n] <= placed
  }

  /** Every place is taken by the alphabetically first table that was ready for it. */
  ghost predicate Greedy(g: Graph, order: seq<Name>) {
    forall i :: 0 <= i < |order| ==> IsLeast(Ready(g, Elements(order[..i])), order[i])
  }

  /** Dependencies come first. */
  ghost predicate DependenciesFirst(g: Graph, order: seq<Name>) {
    forall i :: 0 <= i < |order| ==> order[i] in g && g[order[i]] <= Elements(order[..i])
  }

  ghost predicate IsTopological(g: Graph, order: seq<Name>) {
    Distinct(order) && Elements(order) == g.Keys && DependenciesFirst(g, order)
  }

  /** Dictionary order on sequences of names. */
  ghost predicate LexicallyBefore(p: seq<Name>, q: seq<Name>) {
    exists i :: 0 <= i < |p| && i < |q| && p[..i] == q[..i] && Before(p[i], q[i])
  }

  lemma GreedyPlacesDependenciesFirst(g: Graph, order: seq<Name>)
    requires Greedy(g, order)
    ensures DependenciesFirst(g, order) && Distinct(order)
  {
    forall i, j | 0 <= i < j < |order| ensures order[i] != order[j] {
      assert order[i] in order[..j];
      assert order[j] in Ready(g, Elements(order[..j]));
    }
  }

  /** The greedy order is the alphabetically least of all orders that respect the dependencies. */
  lemma GreedyIsLexicallyLeast(g: Graph, order: seq<Name>, other: seq<Name>)
    requires Greedy(g, order) && IsTopological(g, order) && IsTopological(g, other)
    ensures order == other || LexicallyBefore(order, other)
  {
    DistinctSize(order);
    DistinctSize(other);
    FirstDifference(g, order, other, 0);
  }

  lemma FirstDifference(g: Graph, order: seq<Name>, other: seq<Name>, i: nat)
    requires Greedy(g, order) && IsTopological(g, other) && |order| == |other|
    requires i <= |order| && order[..i] == other[..i]
    ensures order == other || LexicallyBefore(order, other)
    decreases |order| - i
  {
    if i == |order| {
      assert order == order[..i] && other == other[..i];
    } else if order[i] == other[i] {
      assert order[..i + 1] == order[..i] + [order[i]];
      assert other[..i + 1] == other[..i] + [other[i]];
      FirstDifference(g, order, other, i + 1);
    } else {
      forall j | 0 <= j < i ensures other[j] != other[i] {}
      assert other[i] in Ready(g, Elements(order[..i]));
      assert Before(order[i], other[i]);
    }
  }

  lemma DistinctSize(s: seq<Name>)
    requires Distinct(s)
    ensures |Elements(s)| == |s|
  {
    if s != [] {
      var last := |s| - 1;
      DistinctSize(s[..last]);
      assert Elements(s) == Elements(s[..last]) + {s[last]};
    }
  }

  // ----- walks and cycles -----

  /** A walk along dependencies from `a` to `b` whose tables, all but the last, lie in `within`. */
  ghost predicate IsWalk(g: Graph, within: set<Name>, p: seq<Name>, a: Name, b: Name) {
    && p != [] && p[0] == a && p[|p| - 1] == b
    && forall i {:trigger p[i]} :: 0 <= i < |p| - 1 ==> p[i] in within && p[i] in g && p[i + 1] in g[p[i]]
  }

  ghost predicate Reaches(g: Graph, within: set<Name>, a: Name, b: Name) {
    exists p :: IsWalk(g, within, p, a, b)
  }

  lemma ReachesItself(g: Graph, within: set<Name>, a: Name)
    ensures Reaches(g, within, a, a)
  {
    assert IsWalk(g, within, [a], a, a);
  }

  lemma ReachesStep(g: Graph, within: set<Name>, a: Name, b: Name, c: Name)
    requires Reaches(g, within, a, b) && b in within && b in g && c in g[b]
    ensures Reaches(g, within, a, c)
  {
    var p :| IsWalk(g, within, p, a, b);
    var q := p + [c];
    forall i {:trigger q[i]} | 0 <= i < |q| - 1 ensures q[i] in within && q[i] in g && q[i + 1] in g[q[i]] {
      assert q[i] == p[i];
    }
    assert IsWalk(g, within, q, a, c);
  }

  /** A set that holds the start, and every step out of which stays inside, holds every table a walk meets. */
  lemma WalkStaysInside(g: Graph, within: set<Name>, inside: set<Name>, p: seq<Name>, a: Name, b: Name, k: nat)
    requires IsWalk(g, within, p, a, b) && a in inside && k < |p|
    requires forall n, d :: n in inside && n in within && n in g && d in g[n] ==> d in inside
    ensures p[k] in inside
  {
    if k > 0 {
      WalkStaysInside(g, within, inside, p, a, b, k - 1);
    }
  }

  /** A simple cycle: distinct tables, each depending on the next and the last on the first. */
  ghost predicate IsCycle(g: Graph, c: seq<Name>) {
    && |c| >= 2 && Distinct(c)
    && forall i: nat {:trigger CycleAt(g, c, i)} :: i < |c| ==> CycleAt(g, c, i)
  }

  /** Table `i` of the cycle depends on the next. */
  ghost predicate CycleAt(g: Graph, c: seq<Name>, i: nat) {
    i < |c| && c[i] in g && c[Next(c, i)] in g[c[i]]
  }

  function Next(c: seq<Name>, i: nat): (k: nat)
    requires i < |c|
    ensures k < |c|
  {
    if i + 1 < |c| then i + 1 else 0
  }

  ghost predicate Linked(g: Graph, path: seq<Name>) {
    forall i: nat {:trigger LinkAt(g, path, i)} :: i + 1 < |path| ==> LinkAt(g, path, i)
  }

  ghost predicate LinkAt(g: Graph, path: seq<Name>, i: nat) {
    i + 1 < |path| && path[i] in g && path[i + 1] in g[path[i]]
  }

  /** Where every table depends on another in the set, some of them form a cycle. */
  lemma {:induction false} StuckHasCycle(g: Graph, stuck: set<Name>, path: seq<Name>) returns (c: seq<Name>)
    requires Closed(g) && stuck <= g.Keys && path != [] && Distinct(path) && Elements(path) <= stuck
    requires forall n :: n in stuck ==> g[n] * stuck != {}
    requires Linked(g, path)
    ensures IsCycle(g, c) && Elements(c) <= stuck
    decreases |stuck| - |path|
  {
    var last := path[|path| - 1];
    assert last in Elements(path);
    var d :| d in g[last] * stuck;
    if d in path {
      c := ClosedPathHasCycle(g, stuck, path, d);
    } else {
      LongerPath(g, stuck, path, d);
      c := StuckHasCycle(g, stuck, path + [d]);
    }
  }

  lemma ClosedPathHasCycle(g: Graph, stuck: set<Name>, path: seq<Name>, d: Name) returns (c: seq<Name>)
    requires Closed(g) && stuck <= g.Keys && path != [] && Distinct(path) && Elements(path) <= stuck && Linked(g, path)
    requires d in path && path[|path| - 1] in g && d in g[path[|path| - 1]]
    ensures IsCycle(g, c) && Elements(c) <= stuck
  {
    var j :| 0 <= j < |path| && path[j] == d;
    c := TailIsCycle(g, path, j);
  }

  lemma LongerPath(g: Graph, stuck: set<Name>, path: seq<Name>, d: Name)
    requires path != [] && Distinct(path) && Elements(path) <= stuck <= g.Keys && Linked(g, path)
    requires path[|path| - 1] in g && d in g[path[|path| - 1]] && d in stuck && d !in path
    ensures Linked(g, path + [d]) && Distinct(path + [d])
    ensures Elements(path + [d]) <= stuck && |path + [d]| <= |stuck|
  {
    LinkedLonger(g, path, d);
    DistinctLonger(path, d);
    assert Elements(path + [d]) == Elements(path) + {d};
    DistinctSize(path + [d]);
    SubsetSize(Elements(path + [d]), stuck);
  }

  lemma LinkedLonger(g: Graph, path: seq<Name>, d: Name)
    requires path != [] && Linked(g, path) && path[|path| - 1] in g && d in g[path[|path| - 1]]
    ensures Linked(g, path + [d])
  {
    forall i: nat | i + 1 < |path + [d]| ensures LinkAt(g, path + [d], i) {
      assert i + 1 < |path| ==> LinkAt(g, path, i);
    }
  }

  lemma DistinctLonger(path: seq<Name>, d: Name)
    requires Distinct(path) && d !in path
    ensures Distinct(path + [d])
  {
    assert forall i :: 0 <= i < |path| ==> path[i] in path;
  }

  lemma TailIsCycle(g: Graph, path: seq<Name>, j: nat) returns (c: seq<Name>)
    requires Closed(g) && Distinct(path) && Elements(path) <= g.Keys && j < |path|
    requires Linked(g, path)
    requires path[j] in g[path[|path| - 1]]
    ensures IsCycle(g, c) && Elements(c) <= Elements(path)
  {
    c := path[j..];
    var last := |path| - 1;
    assert path[last] in Elements(path);
    assert path[last] !in g[path[last]];
    assert j < last;
    forall a, b | 0 <= a < b < |c| ensures c[a] != c[b] {
      assert c[a] == path[j + a] && c[b] == path[j + b];
    }
    forall i: nat | i < |c| ensures CycleAt(g, c, i) {
      assert c[i] == path[j + i] && path[j + i] in Elements(path);
      if i + 1 < |c| {
        assert LinkAt(g, path, j + i);
      }
    }
  }

  lemma SubsetSize<T>(a: set<T>, b: set<T>)
    requires a <= b
    ensures |a| <= |b|
  {
    if a != {} {
      var x :| x in a;
      SubsetSize(a - {x}, b - {x});
    }
  }

  /** Where `steps` links on along a cycle lead. */
  function Along(c: seq<Name>, start: nat, steps: nat): (j: nat)
    requires start < |c| && steps < |c|
    ensures j < |c|
  {
    if start + steps < |c| then start + steps else start + steps - |c|
  }

  lemma CycleLink(g: Graph, c: seq<Name>, within: set<Name>, a: Name, j: nat)
    requires IsCycle(g, c) && Elements(c) <= within && j < |c| && Reaches(g, within, a, c[j])
    ensures Reaches(g, within, a, c[Next(c, j)])
  {
    assert c[j] in Elements(c) && CycleAt(g, c, j);
    ReachesStep(g, within, a, c[j], c[Next(c, j)]);
  }

  lemma {:induction false} CycleFrom(g: Graph, c: seq<Name>, within: set<Name>, start: nat, steps: nat)
    requires IsCycle(g, c) && Elements(c) <= within && start < |c| && steps < |c|
    ensures Reaches(g, within, c[start], c[Along(c, start, steps)])
  {
    if steps == 0 {
      ReachesItself(g, within, c[start]);
    } else {
      CycleFrom(g, c, within, start, steps - 1);
      CycleLink(g, c, within, c[start], Along(c, start, steps - 1));
      assert Along(c, start, steps) == Next(c, Along(c, start, steps - 1));
    }
  }

  /** On a cycle, the table after `i` leads back to the one at `i`. */
  lemma {:induction false} CycleLeadsBack(g: Graph, c: seq<Name>, within: set<Name>, i: nat)
    requires IsCycle(g, c) && Elements(c) <= within && i < |c|
    ensures Reaches(g, within, c[Next(c, i)], c[i])
  {
    CycleFrom(g, c, within, Next(c, i), |c| - 1);
    assert Along(c, Next(c, i), |c| - 1) == i;
  }

  function IndexOf(order: seq<Name>, n: Name): (k: nat)
    requires n in order
    ensures k < |order| && order[k] == n
    decreases |order|
  {
    if order[0] == n then 0 else 1 + IndexOf(order[1..], n)
  }

  lemma IndexOfUnique(order: seq<Name>, k: nat)
    requires Distinct(order) && k < |order|
    ensures IndexOf(order, order[k]) == k
  {
  }

  /** A dependency of a placed table is placed before it. */
  lemma DependencyIsEarlier(g: Graph, order: seq<Name>, n: Name, d: Name)
    requires Distinct(order) && DependenciesFirst(g, order) && n in order && n in g && d in g[n]
    ensures d in order && IndexOf(order, d) < IndexOf(order, n)
  {
    var i := IndexOf(order, n);
    assert d in Elements(order[..i]);
    var j :| 0 <= j < i && order[j] == d;
    IndexOfUnique(order, j);
  }

  /** Walking along dependencies from a placed table goes strictly backwards in the order. */
  lemma {:induction false} WalkGoesBackwards(g: Graph, within: set<Name>, order: seq<Name>, p: seq<Name>, a: Name,
      b: Name, k: nat)
    requires Distinct(order) && DependenciesFirst(g, order)
    requires IsWalk(g, within, p, a, b) && a in order && k < |p|
    ensures p[k] in order && IndexOf(order, p[k]) + k <= IndexOf(order, a)
    decreases k
  {
    if k > 0 {
      WalkGoesBackwards(g, within, order, p, a, b, k - 1);
      assert p[k - 1] in g && p[k - 1 + 1] in g[p[k - 1]];
      DependencyIsEarlier(g, order, p[k - 1], p[k]);
    }
  }

  /** No placed table can reach itself through one of its dependencies. */
  lemma PlacedIsAcyclic(g: Graph, within: set<Name>, order: seq<Name>, n: Name, d: Name)
    requires Distinct(order) && DependenciesFirst(g, order) && n in order && n in g && d in g[n]
    ensures !Reaches(g, within, d, n)
  {
    if Reaches(g, within, d, n) {
      var p :| IsWalk(g, within, p, d, n);
      DependencyIsEarlier(g, order, n, d);
      WalkGoesBackwards(g, within, order, p, d, n, |p| - 1);
    }
  }
}
