/** Dependency graphs over the positions 0..n-1 of a task subset.
    deps[i] lists the in-subset dependency occurrences of task i, dependents[i]
    the in-subset reverse edges, both with their repetitions. */
module Graphs {

  datatype Graph = Graph(deps: seq<seq<nat>>, dependents: seq<seq<nat>>) {
    function Size(): nat { |deps| }

    /** Every edge stays inside the graph and the reverse edges mirror the
        dependencies, occurrence by occurrence. */
    ghost predicate Valid() {
      && |dependents| == |deps|
      && (forall i, x :: 0 <= i < |deps| && x in deps[i] ==> x < |deps|)
      && (forall i, x :: 0 <= i < |deps| && x in dependents[i] ==> x < |deps|)
      && (forall i, j :: 0 <= i < |deps| && 0 <= j < |deps| ==> multiset(deps[j])[i] == multiset(dependents[i])[j])
    }
  }

  predicate NoDup<T(==)>(s: seq<T>) {
    forall i, j :: 0 <= i < j < |s| ==> s[i] != s[j]
  }

  /** The elements of s at given positions. */
  function Select<T>(s: seq<T>, ps: seq<nat>): (r: seq<T>)
    requires forall k :: 0 <= k < |ps| ==> ps[k] < |s|
    ensures |r| == |ps| && forall k :: 0 <= k < |ps| ==> r[k] == s[ps[k]]
  {
    seq(|ps|, k requires 0 <= k < |ps| => s[ps[k]])
  }

  ghost function UpTo(n: nat): (s: set<nat>)
    ensures forall i: nat :: i in s <==> i < n
    ensures |s| == n
  {
    if n == 0 then {} else UpTo(n - 1) + {n - 1}
  }

  ghost function Nodes(g: Graph): set<nat> {
    UpTo(g.Size())
  }

  // ---- Outstanding dependencies -------------------------------------------------------

  /** How many entries of ds are not in done. */
  function Outstanding(ds: seq<nat>, done: set<nat>): nat {
    if ds == [] then 0 else (if ds[0] in done then 0 else 1) + Outstanding(ds[1..], done)
  }

  lemma {:induction false} OutstandingZero(ds: seq<nat>, done: set<nat>)
    ensures Outstanding(ds, done) == 0 <==> forall d :: d in ds ==> d in done
  {
    if ds != [] {
      OutstandingZero(ds[1..], done);
      assert forall d :: d in ds <==> d == ds[0] || d in ds[1..];
    }
  }

  lemma {:induction false} OutstandingNone(ds: seq<nat>)
    ensures Outstanding(ds, {}) == |ds|
  {
    if ds != [] { OutstandingNone(ds[1..]); }
  }

  lemma {:induction false} OutstandingAdd(ds: seq<nat>, done: set<nat>, t: nat)
    requires t !in done
    ensures Outstanding(ds, done + {t}) == Outstanding(ds, done) - multiset(ds)[t]
  {
    if ds != [] {
      OutstandingAdd(ds[1..], done, t);
      assert ds == [ds[0]] + ds[1..];
    }
  }

  // ---- Releasing the dependents of a finished task ---------------------------------------

  /** The loop shared by the parallel executor and Kahn's algorithm: one decrement per reverse
      edge, and a push at the moment a count reaches zero. */
  function Release(pending: seq<int>, queue: seq<nat>, ds: seq<nat>): (r: (seq<int>, seq<nat>))
    requires forall d :: d in ds ==> d < |pending|
    ensures |r.0| == |pending|
    decreases ds
  {
    if ds == [] then (pending, queue)
    else
      var d := ds[0];
      assert d in ds;
      var p := pending[d := pending[d] - 1];
      assert forall x :: x in ds[1..] ==> x in ds;
      Release(p, if p[d] == 0 then queue + [d] else queue, ds[1..])
  }

  lemma ReleaseCons(pending: seq<int>, queue: seq<nat>, d: nat, rest: seq<nat>)
    requires forall x :: x in [d] + rest ==> x < |pending|
    ensures d < |pending| && forall x :: x in rest ==> x < |pending|
    ensures var p := pending[d := pending[d] - 1];
            Release(pending, queue, [d] + rest) == Release(p, queue + if p[d] == 0 then [d] else [], rest)
  {
    var ds := [d] + rest;
    assert forall x :: x in rest ==> x in ds;
    assert ds[0] == d && ds[1..] == rest;
    assert d in ds;
    assert queue + [] == queue;
  }

  /** Under counts that cover all the decrements, the loop subtracts multiplicities and appends
      each task whose count runs out exactly once, and no other. */
  lemma {:induction false} ReleaseEffect(pending: seq<int>, queue: seq<nat>, ds: seq<nat>) returns (added: seq<nat>)
    requires forall d :: d in ds ==> d < |pending| && multiset(ds)[d] <= pending[d]
    ensures forall i :: 0 <= i < |pending| ==> Release(pending, queue, ds).0[i] == pending[i] - multiset(ds)[i]
    ensures Release(pending, queue, ds).1 == queue + added
    ensures NoDup(added)
    ensures forall i :: i in added <==> i in ds && pending[i] == multiset(ds)[i]
    decreases ds
  {
    if ds == [] {
      added := [];
    } else {
      hide NoDup;
      var d, rest := ds[0], ds[1..];
      CountCons(ds);
      var p := pending[d := pending[d] - 1];
      var q := if p[d] == 0 then queue + [d] else queue;
      var more := ReleaseEffect(p, q, rest);
      if p[d] == 0 {
        added := [d] + more;
        assert queue + added == q + more;
        NoDupCons(d, more);
      } else {
        added := more;
      }
    }
  }

  lemma CountCons(ds: seq<nat>)
    requires ds != []
    ensures ds[0] in ds && multiset(ds)[ds[0]] == multiset(ds[1..])[ds[0]] + 1
    ensures forall x :: x != ds[0] ==> multiset(ds)[x] == multiset(ds[1..])[x]
    ensures forall x :: x in ds <==> multiset(ds)[x] > 0
    ensures forall x :: x in ds[1..] <==> multiset(ds[1..])[x] > 0
  {
    assert ds == [ds[0]] + ds[1..];
  }

  lemma NoDupCons(d: nat, s: seq<nat>)
    requires d !in s && NoDup(s)
    ensures NoDup([d] + s)
  {}

  /** Releasing t turns the counts for `done` into the counts for `done + {t}` and appends exactly
      the dependents of t whose last outstanding dependency was t. */
  lemma ReleaseCounts(g: Graph, pending: seq<int>, queue: seq<nat>, done: set<nat>, t: nat) returns (added: seq<nat>)
    requires g.Valid() && t < g.Size() && t !in done
    requires |pending| == g.Size()
    requires forall i :: 0 <= i < g.Size() ==> pending[i] == Outstanding(g.deps[i], done)
    ensures forall i :: 0 <= i < g.Size() ==>
              Release(pending, queue, g.dependents[t]).0[i] == Outstanding(g.deps[i], done + {t})
    ensures Release(pending, queue, g.dependents[t]).1 == queue + added
    ensures NoDup(added)
    ensures forall i: nat :: i in added <==>
              i < g.Size() && Outstanding(g.deps[i], done) > 0 && Outstanding(g.deps[i], done + {t}) == 0
  {
    var ds := g.dependents[t];
    forall i | 0 <= i < g.Size()
      ensures Outstanding(g.deps[i], done + {t}) == pending[i] - multiset(ds)[i]
    {
      OutstandingAdd(g.deps[i], done, t);
    }
    added := ReleaseEffect(pending, queue, ds);
    forall i: nat
      ensures i in added <==>
              i < g.Size() && Outstanding(g.deps[i], done) > 0 && Outstanding(g.deps[i], done + {t}) == 0
    {
      if i < g.Size() {
        assert i in ds <==> multiset(ds)[i] > 0;
      }
    }
  }

  // ---- Cycles ---------------------------------------------------------------------------

  /** p follows dependency edges: each node depends on the next one. */
  ghost predicate IsPath(g: Graph, p: seq<nat>) {
    && |p| > 0
    && (forall k :: 0 <= k < |p| ==> p[k] < g.Size())
    && (forall k, l :: 0 <= k < |p| && 0 <= l < |p| && l == k + 1 ==> p[l] in g.deps[p[k]])
  }

  ghost predicate IsCycle(g: Graph, p: seq<nat>) {
    IsPath(g, p) && |p| > 1 && p[0] == p[|p| - 1]
  }

  ghost predicate Acyclic(g: Graph) {
    forall p :: !IsCycle(g, p)
  }

  ghost predicate DependsOn(g: Graph, i: nat, s: set<nat>) {
    i < g.Size() && exists d :: d in s && d in g.deps[i]
  }

  /** Every member of s depends on some member of s. */
  ghost predicate Stuck(g: Graph, s: set<nat>) {
    forall i {:trigger DependsOn(g, i, s)} :: i in s ==> DependsOn(g, i, s)
  }

  /** Dependencies come strictly before their dependents. */
  ghost predicate Ordered(g: Graph, order: seq<nat>) {
    forall a, b :: 0 <= a < |order| && 0 <= b < |order| && order[a] < g.Size() && order[b] in g.deps[order[a]] ==> b < a
  }

  /** The dependencies of every listed node are listed before it. */
  ghost predicate DepsEarlier(g: Graph, q: seq<nat>) {
    forall a, d :: 0 <= a < |q| && q[a] < g.Size() && d in g.deps[q[a]] ==> d in q[..a]
  }

  /** order lists every task once, dependencies first. */
  ghost predicate IsTopological(g: Graph, order: seq<nat>) {
    && NoDup(order) && Ordered(g, order)
    && (forall k :: 0 <= k < |order| ==> order[k] < g.Size())
    && (forall i: nat :: i < g.Size() ==> i in order)
  }

  ghost function Elements<T>(s: seq<T>): set<T> {
    set x | x in s
  }

  lemma {:induction false} NoDupCard<T>(s: seq<T>)
    requires NoDup(s)
    ensures |Elements(s)| == |s|
  {
    if s == [] {
      assert Elements(s) == {};
    } else {
      var k := |s| - 1;
      var init := s[..k];
      NoDupCard(init);
      assert s == init + [s[k]];
      assert Elements(s) == Elements(init) + {s[k]};
      assert s[k] !in init;
    }
  }

  lemma {:induction false} SubsetCard<T>(a: set<T>, b: set<T>)
    requires a <= b
    ensures |a| <= |b|
  {
    if a != {} {
      var x :| x in a;
      SubsetCard(a - {x}, b - {x});
    }
  }

  /** A walk of k+1 nodes that never leaves s. */
  lemma {:induction false} Walk(g: Graph, s: set<nat>, start: nat, k: nat) returns (p: seq<nat>)
    requires Stuck(g, s) && start in s
    ensures IsPath(g, p) && |p| == k + 1
    ensures forall i :: 0 <= i < |p| ==> p[i] in s
  {
    assert DependsOn(g, start, s);
    if k == 0 {
      p := [start];
    } else {
      var q := Walk(g, s, start, k - 1);
      assert DependsOn(g, q[k - 1], s);
      var d :| d in s && d in g.deps[q[k - 1]];
      assert DependsOn(g, d, s);
      p := q + [d];
    }
  }

  /** A non-empty set whose members all depend on members contains a dependency cycle. */
  lemma StuckHasCycle(g: Graph, s: set<nat>)
    requires s != {} && Stuck(g, s)
    ensures !Acyclic(g)
  {
    var start :| start in s;
    var p := Walk(g, s, start, |s|);
    if NoDup(p) {
      NoDupCard(p);
      SubsetCard(Elements(p), s);
      assert false;
    }
    var i, j :| 0 <= i < j < |p| && p[i] == p[j];
    RepeatIsCycle(g, p, i, j);
  }

  lemma {:induction false} PathFallsInOrder(g: Graph, order: seq<nat>, p: seq<nat>, a: nat, b: nat)
    requires Ordered(g, order) && IsPath(g, p)
    requires forall x :: x in p ==> x in order
    requires a < |order| && b < |order| && order[a] == p[0] && order[b] == p[|p| - 1]
    requires NoDup(order)
    ensures |p| > 1 ==> b < a
  {
    if |p| > 1 {
      var q := p[..|p| - 1];
      var last := q[|q| - 1];
      assert last == p[|p| - 2];
      assert last in p;
      var c :| 0 <= c < |order| && order[c] == last;
      assert forall x :: x in q ==> x in p;
      PathFallsInOrder(g, order, q, a, c);
      assert p[|p| - 1] in g.deps[last];
      assert b < c;
      if |q| == 1 { assert a == c; }
    }
  }

  /** A complete ordering with dependencies first rules cycles out. */
  lemma OrderedIsAcyclic(g: Graph, order: seq<nat>)
    requires Ordered(g, order) && NoDup(order)
    requires forall i: nat :: i < g.Size() ==> i in order
    ensures Acyclic(g)
  {
    forall p
      ensures !IsCycle(g, p)
    {
      if IsCycle(g, p) {
        assert p[0] in order;
        var a :| 0 <= a < |order| && order[a] == p[0];
        PathFallsInOrder(g, order, p, a, a);
        assert false;
      }
    }
  }

  // ---- Reachability -----------------------------------------------------------------------

  /** x is i itself or a direct or indirect dependency of i. */
  ghost predicate Reaches(g: Graph, i: nat, x: nat) {
    exists p :: IsPath(g, p) && p[0] == i && p[|p| - 1] == x
  }

  lemma ReachesSelf(g: Graph, i: nat)
    requires i < g.Size()
    ensures Reaches(g, i, i)
  {
    assert IsPath(g, [i]);
  }

  lemma ReachesThrough(g: Graph, i: nat, d: nat, x: nat)
    requires i < g.Size() && d in g.deps[i] && Reaches(g, d, x)
    ensures Reaches(g, i, x)
    ensures x == i ==> CycleFrom(g, i)
  {
    var p :| IsPath(g, p) && p[0] == d && p[|p| - 1] == x;
    var q := [i] + p;
    forall k, l | 0 <= k < |q| && 0 <= l < |q| && l == k + 1
      ensures q[l] in g.deps[q[k]]
    {
      if k > 0 { assert q[k] == p[k - 1] && q[l] == p[k]; }
    }
    assert IsPath(g, q);
    if x == i {
      ReachesSelf(g, i);
      assert IsCycle(g, q);
    }
  }

  /** Some cycle can be reached from i. */
  ghost predicate CycleFrom(g: Graph, i: nat) {
    exists c :: IsCycle(g, c) && Reaches(g, i, c[0])
  }

  lemma PathSuffix(g: Graph, p: seq<nat>, k: nat)
    requires IsPath(g, p) && k < |p|
    ensures IsPath(g, p[k..])
  {}

  lemma CycleLeads(g: Graph, i: nat) returns (d: nat)
    requires CycleFrom(g, i)
    ensures i < g.Size() && d in g.deps[i] && CycleFrom(g, d)
  {
    var c :| IsCycle(g, c) && Reaches(g, i, c[0]);
    var p :| IsPath(g, p) && p[0] == i && p[|p| - 1] == c[0];
    var q := if |p| > 1 then p else c;
    d := q[1];
    SecondReaches(g, q);
  }

  lemma SecondReaches(g: Graph, q: seq<nat>)
    requires IsPath(g, q) && |q| > 1
    ensures q[0] < g.Size() && q[1] in g.deps[q[0]] && Reaches(g, q[1], q[|q| - 1])
  {
    PathSuffix(g, q, 1);
    assert q[1..][0] == q[1] && q[1..][|q| - 2] == q[|q| - 1];
  }

  lemma CycleBehind(g: Graph, i: nat, d: nat)
    requires i < g.Size() && d in g.deps[i] && CycleFrom(g, d)
    ensures CycleFrom(g, i)
  {
    var c :| IsCycle(g, c) && Reaches(g, d, c[0]);
    ReachesThrough(g, i, d, c[0]);
  }

  /** A cycle is reached through one of the dependencies. */
  lemma CycleThrough(g: Graph, i: nat)
    requires i < g.Size()
    ensures CycleFrom(g, i) <==> exists d :: d in g.deps[i] && CycleFrom(g, d)
  {
    hide CycleFrom;
    if CycleFrom(g, i) {
      var d := CycleLeads(g, i);
    }
    if d :| d in g.deps[i] && CycleFrom(g, d) {
      CycleBehind(g, i, d);
    }
  }

  /** A path that repeats a node starts where a cycle can be reached. */
  lemma RepeatIsCycle(g: Graph, p: seq<nat>, i: nat, j: nat)
    requires IsPath(g, p) && i < j < |p| && p[i] == p[j]
    ensures CycleFrom(g, p[0])
  {
    var c := p[i..j + 1];
    forall k, l | 0 <= k < |c| && 0 <= l < |c| && l == k + 1
      ensures c[l] in g.deps[c[k]]
    {
      assert c[k] == p[i + k] && c[l] == p[i + l];
    }
    assert IsCycle(g, c);
    assert IsPath(g, p[..i + 1]);
    assert Reaches(g, p[0], c[0]);
  }

  /** Without cycles from its start no path is longer than the graph. */
  lemma PathIsShort(g: Graph, p: seq<nat>)
    requires IsPath(g, p) && !CycleFrom(g, p[0])
    ensures |p| <= g.Size()
  {
    forall i, j | 0 <= i < j < |p|
      ensures p[i] != p[j]
    {
      if p[i] == p[j] { RepeatIsCycle(g, p, i, j); }
    }
    NoDupCard(p);
    SubsetCard(Elements(p), Nodes(g));
  }

  lemma PathGrows(g: Graph, p: seq<nat>, d: nat)
    requires IsPath(g, p) && d < g.Size() && d in g.deps[p[|p| - 1]]
    ensures IsPath(g, p + [d])
  {}

  /** A set of nodes closed under dependencies contains whatever its members reach. */
  lemma {:induction false} ClosedUnderPaths(g: Graph, s: seq<nat>, p: seq<nat>)
    requires IsPath(g, p) && p[0] in s
    requires forall i, d :: i in s && i < g.Size() && d in g.deps[i] ==> d in s
    ensures p[|p| - 1] in s
  {
    if |p| > 1 {
      var init := p[..|p| - 1];
      ClosedUnderPaths(g, s, init);
      assert p[|p| - 1] in g.deps[init[|init| - 1]];
    }
  }
}
