/** The serial engine from manifest text to exit code: parse, collect, sort, run. */
module Engine {
  import opened Cache
  import opened Closure
  import opened Graphs
  import opened Manifest
  import opened ReverseEdges
  import opened Tasks
  import W = Workspace
  import TopoSort

  /** order lists exactly what the targets need, each once, dependencies first. */
  ghost predicate IsPlan(decls: seq<TaskDecl>, targets: seq<string>, order: seq<nat>) {
    && Collected(DeclGraph(decls), order)
    && (forall x: nat :: x in order <==> NeededFrom(DeclGraph(decls), Roots(DeclNames(decls), targets), x))
  }

  /** A plan for the targets is exactly an order that serves them. */
  lemma PlanIff(decls: seq<TaskDecl>, targets: seq<string>, order: seq<nat>)
    ensures IsPlan(decls, targets, order) <==> Serves(decls, targets, order)
  {
    hide Collected, NeededFrom, Serves, Roots, DeclGraph;
    ServesIff(decls, targets, order);
  }

  /** A dependency between collected tasks, seen from the collection, is one between their positions. */
  lemma DepInSubset(list: seq<Task>, ps: seq<nat>, a: nat, b: nat)
    requires NoDup(Names(list)) && (forall k :: 0 <= k < |ps| ==> ps[k] < |list|) && a < |ps| && b < |ps|
    requires b in TaskGraph(Select(list, ps)).deps[a]
    ensures ps[b] in DepGraph(list).deps[ps[a]]
  {
    var subset := Select(list, ps);
    var deps := list[ps[a]].decl.deps;
    ResolvedName(Names(subset), deps, b);
    NameResolved(Names(list), deps, Names(subset)[b]);
    FindIndexUnique(Names(list), ps[b]);
  }

  /** What was collected has no cycle. */
  lemma CollectedSubsetAcyclic(list: seq<Task>, ps: seq<nat>)
    requires NoDup(Names(list)) && Collected(DepGraph(list), ps)
    ensures Acyclic(TaskGraph(Select(list, ps)))
  {
    var g := TaskGraph(Select(list, ps));
    var order := AllPositions(|ps|);
    forall a, b | 0 <= a < |order| && 0 <= b < |order| && order[a] < g.Size() && order[b] in g.deps[order[a]]
      ensures b < a
    {
      DepInSubset(list, ps, a, b);
      assert ps[b] in ps[..a];
    }
    forall i: nat | i < g.Size() ensures i in order { assert order[i] == i; }
    OrderedIsAcyclic(g, order);
  }

  // ---- When the sort succeeds ------------------------------------------------------------------------

  /** Task a depends on a name that two collected tasks bear. */
  ghost predicate DependsOnTwo(decls: seq<TaskDecl>, ps: seq<nat>, a: nat)
    requires (forall k :: 0 <= k < |ps| ==> ps[k] < |decls|) && a < |ps|
  {
    exists y, z :: 0 <= y < z < |ps| && decls[ps[y]].name == decls[ps[z]].name && decls[ps[y]].name in decls[ps[a]].deps
  }

  /** Some collected task depends on a name that two collected tasks bear. */
  ghost predicate Ambiguous(decls: seq<TaskDecl>, ps: seq<nat>)
    requires forall k :: 0 <= k < |ps| ==> ps[k] < |decls|
  {
    exists a :: 0 <= a < |ps| && DependsOnTwo(decls, ps, a)
  }

  lemma {:induction false} TwiceInside(s: seq<string>, x: string) returns (y: nat, z: nat)
    requires multiset(s)[x] >= 2
    ensures y < z < |s| && s[y] == x == s[z]
  {
    var init, last := s[..|s| - 1], s[|s| - 1];
    assert s == init + [last];
    if last == x {
      z := |s| - 1;
      assert x in init;
      y :| y < |init| && init[y] == x;
    } else {
      y, z := TwiceInside(init, x);
    }
  }

  lemma TwoPlaces(s: seq<string>, y: nat, z: nat)
    requires y < z < |s| && s[y] == s[z]
    ensures multiset(s)[s[y]] >= 2
  {
    assert s == s[..z] + [s[z]] + s[z + 1..];
    assert s[..z][y] == s[y];
  }

  /** In a collection a name has more bearers than its first exactly when two collected tasks bear it. */
  lemma OneBearerIff(list: seq<Task>, ps: seq<nat>, a: nat, x: string)
    requires Collected(DepGraph(list), ps) && a < |ps| && x in list[ps[a]].decl.deps
    ensures TopoSort.InList(list, ps)
    ensures TopoSort.OneBearer(list, ps, x) <==> multiset(Names(Select(list, ps)))[x] < 2
  {
    var names := Names(list);
    var f := FindIndex(names, x);
    if f >= 0 {
      NameResolved(names, list[ps[a]].decl.deps, x);
      assert f as nat in DepGraph(list).deps[ps[a]];
      assert f as nat in ps[..a];
      TopoSort.KnownBearer(list, ps, x);
    }
  }

  lemma SurplusOfTask(list: seq<Task>, ps: seq<nat>, a: nat)
    requires Collected(DepGraph(list), ps) && a < |ps|
    ensures TopoSort.InList(list, ps)
    ensures DependsOnTwo(Decls(list), ps, a) <==> TopoSort.Surplus(list, ps, a) > 0
  {
    hide TopoSort.OneBearer, DepGraph, Resolve;
    var sub, deps := Names(Select(list, ps)), list[ps[a]].decl.deps;
    TopoSort.BearersCover(list, ps, deps);
    if DependsOnTwo(Decls(list), ps, a) {
      var y, z :| 0 <= y < z < |ps| && Decls(list)[ps[y]].name == Decls(list)[ps[z]].name && Decls(list)[ps[y]].name in deps;
      assert sub[y] == sub[z];
      TwoPlaces(sub, y, z);
      OneBearerIff(list, ps, a, sub[y]);
    }
    if TopoSort.Surplus(list, ps, a) > 0 {
      var x :| x in deps && !TopoSort.OneBearer(list, ps, x);
      OneBearerIff(list, ps, a, x);
      var y, z := TwiceInside(sub, x);
      assert Decls(list)[ps[y]].name == Decls(list)[ps[z]].name;
    }
  }

  /** The sort counts more than the known dependencies for some task exactly when the collection is ambiguous. */
  lemma SurplusIff(list: seq<Task>, ps: seq<nat>)
    requires Collected(DepGraph(list), ps)
    ensures TopoSort.InList(list, ps)
    ensures Ambiguous(Decls(list), ps) <==> exists a :: 0 <= a < |ps| && TopoSort.Surplus(list, ps, a) > 0
  {
    hide TopoSort.Surplus, DependsOnTwo;
    forall a | 0 <= a < |ps|
      ensures DependsOnTwo(Decls(list), ps, a) <==> TopoSort.Surplus(list, ps, a) > 0
    {
      SurplusOfTask(list, ps, a);
    }
  }

  /** A dependency in the counted graph of an unambiguous collection is one of the list, and back. */
  lemma CountedDep(list: seq<Task>, ps: seq<nat>, a: nat, b: nat)
    requires TopoSort.InList(list, ps) && a < |ps| && b < |ps| && TopoSort.Surplus(list, ps, a) == 0
    ensures b in TopoSort.CountedGraph(list, ps).deps[a] <==> ps[b] in DepGraph(list).deps[ps[a]]
  {
    hide TopoSort.CountedGraph, TopoSort.Surplus, Resolve, DepGraph;
    TopoSort.SurplusIsOwn(list, ps, a);
    var xs := Resolve(Names(list), list[ps[a]].decl.deps);
    assert xs == DepGraph(list).deps[ps[a]];
    FindIndexUnique(ps, b);
    if ps[b] in xs { NameResolved(ps, xs, ps[b]); }
    if b in Resolve(ps, xs) { ResolvedName(ps, xs, b); }
  }

  /** topo_sort succeeds on a collection exactly when it is unambiguous. */
  lemma SortSucceedsIff(list: seq<Task>, ps: seq<nat>)
    requires Collected(DepGraph(list), ps)
    ensures TopoSort.InList(list, ps) && (Acyclic(TopoSort.CountedGraph(list, ps)) <==> !Ambiguous(Decls(list), ps))
  {
    hide TopoSort.CountedGraph, TopoSort.Surplus, Ambiguous, DepGraph;
    SurplusIff(list, ps);
    var g := TopoSort.CountedGraph(list, ps);
    if Ambiguous(Decls(list), ps) {
      var a: nat :| a < |ps| && TopoSort.Surplus(list, ps, a) > 0;
      TopoSort.SurplusIsOwn(list, ps, a);
      assert IsCycle(g, [a, a]);
    } else {
      var order := AllPositions(|ps|);
      forall a, b | 0 <= a < |order| && 0 <= b < |order| && order[a] < g.Size() && order[b] in g.deps[order[a]]
        ensures b < a
      {
        CountedDep(list, ps, a, b);
        assert ps[b] in ps[..a];
      }
      forall i: nat | i < g.Size() ensures i in order { assert order[i] == i; }
      OrderedIsAcyclic(g, order);
    }
  }

  lemma SelectKeeps(n: nat, ps: seq<nat>, qs: seq<nat>)
    requires NoDup(ps) && NoDup(qs) && |ps| == n
    requires (forall k :: 0 <= k < |qs| ==> qs[k] < n) && forall i: nat :: i < n ==> i in qs
    ensures NoDup(Select(ps, qs)) && forall x: nat :: x in Select(ps, qs) <==> x in ps
  {
    var order := Select(ps, qs);
    forall x: nat | x in ps
      ensures x in order
    {
      var j: nat :| j < |ps| && ps[j] == x;
      assert j in qs;
      var b: nat :| b < |qs| && qs[b] == j;
      assert order[b] == x;
    }
  }

  /** The dependencies of the a-th task in the sorted collection come before it. */
  lemma SortedDepsEarlier(list: seq<Task>, ps: seq<nat>, qs: seq<nat>, a: nat, d: nat)
    requires Collected(DepGraph(list), ps) && !Ambiguous(Decls(list), ps) && TopoSort.InList(list, ps)
    requires IsTopological(TopoSort.CountedGraph(list, ps), qs) && (forall k :: 0 <= k < |qs| ==> qs[k] < |ps|)
    requires a < |qs| && d in DepGraph(list).deps[ps[qs[a]]]
    ensures d in Select(ps, qs)[..a]
  {
    SurplusIff(list, ps);
    hide TopoSort.CountedGraph, TopoSort.Surplus, DepGraph, Ambiguous;
    assert d in ps[..qs[a]];
    var j: nat :| j < |ps| && ps[j] == d;
    CountedDep(list, ps, qs[a], j);
    assert j in qs;
    var b: nat :| b < |qs| && qs[b] == j;
    assert Select(ps, qs)[..a][b] == d;
  }

  /** Sorting an unambiguous collection gives a plan again. */
  lemma SortedIsPlan(list: seq<Task>, ps: seq<nat>, qs: seq<nat>)
    requires Collected(DepGraph(list), ps) && !Ambiguous(Decls(list), ps) && TopoSort.InList(list, ps)
    requires IsTopological(TopoSort.CountedGraph(list, ps), qs)
    ensures (forall k :: 0 <= k < |qs| ==> qs[k] < |ps|) && Collected(DepGraph(list), Select(ps, qs))
    ensures forall x: nat :: x in Select(ps, qs) <==> x in ps
    ensures Select(list, Select(ps, qs)) == Select(Select(list, ps), qs)
  {
    hide TopoSort.CountedGraph, DepGraph, Ambiguous;
    SelectKeeps(|ps|, ps, qs);
    var order := Select(ps, qs);
    forall a, d | 0 <= a < |order| && d in DepGraph(list).deps[order[a]]
      ensures d in order[..a]
    {
      SortedDepsEarlier(list, ps, qs, a, d);
    }
  }

  lemma PickedOnce(list: seq<Task>, ps: seq<nat>)
    requires NoDup(list) && Collected(DepGraph(list), ps)
    ensures NoDup(Select(list, ps)) && forall t :: t in Select(list, ps) ==> t in list
  {}

  /** The parallel entry point passes the collection on without sorting it. That is enough: a collection
      is a valid acyclic graph, which is what the executor's protocol needs to come to an end. */
  lemma CollectedIsSchedulable(list: seq<Task>, ps: seq<nat>)
    requires NoDup(list) && WellLinked(list) && Inside(list) && Collected(DepGraph(list), ps)
    ensures TaskGraph(Select(list, ps)).Valid() && Acyclic(TaskGraph(Select(list, ps)))
  {
    hide Acyclic, Mirrored, NoDup;
    var needed := Select(list, ps);
    PickedOnce(list, ps);
    SubsetIsLinked(list, needed);
    GraphOfValid(Names(needed), DepNames(needed), DependentNames(needed));
    CollectedSubsetAcyclic(list, ps);
  }

  // ---- The engine --------------------------------------------------------------------------------------

  /** main.c:60-96: sort the collection and run it. */
  method SortAndRun(ws: W.Workspace, list: seq<Task>, ghost ps: seq<nat>, needed: seq<Task>) returns (code: int, ghost order: seq<nat>)
    requires NoDup(list) && LinkedUpTo(list, |list|, 0)
    requires Collected(DepGraph(list), ps) && needed == Select(list, ps)
    requires forall t :: t in list ==> t.taskHash == None
    modifies ws, needed
    ensures Collected(DepGraph(list), order) && forall x: nat :: x in order <==> x in ps
    ensures Ambiguous(Decls(list), ps) ==> ws.Value() == old(ws.Value()) && code == 1
    ensures !Ambiguous(Decls(list), ps) ==>
              var (w, ends) := SerialRun(ws.env, old(ws.Value()), Select(Decls(list), order));
              ws.Value() == w && code == if AllSucceeded(ends) then 0 else 1
  {
    hide NoDup, SerialRun, Resolve, LinkedUpTo, IsTopological, Acyclic, NeededFrom, TopoSort.CountedGraph, DepGraph, Select, Ambiguous;
    PickedOnce(list, ps);
    SortSucceedsIff(list, ps);
    ghost var qs;
    var sorted;
    sorted, qs := TopoSort.Sort(needed, list, ps);
    if sorted.None? {
      return 1, ps;
    }
    SortedIsPlan(list, ps, qs);
    order := Select(ps, qs);
    PickedOnce(list, order);
    assert Decls(sorted.value) == Select(Decls(list), order);
    var failed := ws.RunAll(sorted.value);
    code := if failed then 1 else 0;
  }

  /** main: where no cycle is reachable, 1 without running anything if the needed tasks are ambiguous, and
      otherwise 0 exactly when every task of a plan for the targets succeeds, in a run of the plan through
      the cache. */
  method Build(ws: W.Workspace, content: string, targets: seq<string>) returns (code: int, ghost order: seq<nat>)
    requires NoCycleFrom(DeclGraph(Parse(content)), Roots(DeclNames(Parse(content)), targets))
    modifies ws
    ensures IsPlan(Parse(content), targets, order) && Serves(Parse(content), targets, order)
    ensures Ambiguous(Parse(content), order) ==> ws.Value() == old(ws.Value()) && code == 1
    ensures !Ambiguous(Parse(content), order) ==>
              var (w, ends) := SerialRun(ws.env, old(ws.Value()), Select(Parse(content), order));
              ws.Value() == w && code == if AllSucceeded(ends) then 0 else 1
  {
    hide Parse, NoDup, NoCycleFrom, SerialRun, NeededFrom, Serves, Resolve, LinkedUpTo, Mirrored, DeclGraph, Ambiguous;
    var list := ParseManifest(content);
    assert DeclNames(Decls(list)) == Names(list);
    var needed := CollectNeeded(list, targets);
    ghost var ps := Needed(list, targets).value;
    if |needed| == 0 {
      NothingAmbiguous(Parse(content), ps);
      W.RunNothing(ws.env, ws.Value(), Select(Parse(content), ps));
      PlanIff(Parse(content), targets, ps);
      return 0, ps;
    }
    PickedOnce(list, ps);
    code, order := SortAndRun(ws, list, ps, needed);
    SameAmbiguity(Parse(content), ps, order);
    PlanIff(Parse(content), targets, order);
  }

  lemma NothingAmbiguous(decls: seq<TaskDecl>, ps: seq<nat>)
    requires ps == []
    ensures !Ambiguous(decls, ps)
  {}

  /** Ambiguity is about the tasks, not their order. */
  lemma SameAmbiguity(decls: seq<TaskDecl>, ps: seq<nat>, qs: seq<nat>)
    requires NoDup(ps) && NoDup(qs) && (forall x: nat :: x in qs <==> x in ps) && forall k :: 0 <= k < |ps| ==> ps[k] < |decls|
    ensures (forall k :: 0 <= k < |qs| ==> qs[k] < |decls|) && (Ambiguous(decls, ps) <==> Ambiguous(decls, qs))
  {
    assert forall k :: 0 <= k < |qs| ==> qs[k] in qs && qs[k] in ps;
    AmbiguityMoves(decls, ps, qs);
    AmbiguityMoves(decls, qs, ps);
  }

  lemma AmbiguityMoves(decls: seq<TaskDecl>, ps: seq<nat>, qs: seq<nat>)
    requires NoDup(ps) && (forall x: nat :: x in ps ==> x in qs)
    requires (forall k :: 0 <= k < |ps| ==> ps[k] < |decls|) && forall k :: 0 <= k < |qs| ==> qs[k] < |decls|
    ensures Ambiguous(decls, ps) ==> Ambiguous(decls, qs)
  {
    if Ambiguous(decls, ps) {
      var a :| 0 <= a < |ps| && DependsOnTwo(decls, ps, a);
      var y, z :| 0 <= y < z < |ps| && decls[ps[y]].name == decls[ps[z]].name && decls[ps[y]].name in decls[ps[a]].deps;
      assert ps[a] in ps && ps[y] in ps && ps[z] in ps;
      var b: nat :| b < |qs| && qs[b] == ps[a];
      var i: nat :| i < |qs| && qs[i] == ps[y];
      var j: nat :| j < |qs| && qs[j] == ps[z];
      assert i != j;
      assert DependsOnTwo(decls, qs, b) by {
        var lo, hi := if i < j then i else j, if i < j then j else i;
        assert decls[qs[lo]].name == decls[qs[hi]].name;
      }
    }
  }

  /** With targets named, only first bearers are collected, so a build by name is never ambiguous; nor is
      one of tasks with unique names. */
  lemma NamedIsUnambiguous(decls: seq<TaskDecl>, targets: seq<string>, order: seq<nat>)
    requires IsPlan(decls, targets, order) && (targets != [] || NoDup(DeclNames(decls)))
    ensures !Ambiguous(decls, order)
  {
    hide DeclGraph;
    forall y, z | 0 <= y < z < |order|
      ensures decls[order[y]].name != decls[order[z]].name
    {
      if targets != [] {
        FirstBearer(decls, targets, order[y]);
        FirstBearer(decls, targets, order[z]);
      }
    }
  }

  lemma FirstBearer(decls: seq<TaskDecl>, targets: seq<string>, x: nat)
    requires targets != [] && NeededFrom(DeclGraph(decls), Roots(DeclNames(decls), targets), x)
    ensures x < |decls| && FindIndex(DeclNames(decls), decls[x].name) == x
  {
    var names, g := DeclNames(decls), DeclGraph(decls);
    var r :| r in Roots(names, targets) && Reaches(g, r, x);
    var p :| IsPath(g, p) && p[0] == r && p[|p| - 1] == x;
    if |p| == 1 {
      ResolvedName(names, targets, x);
    } else {
      var d := p[|p| - 2];
      assert x in g.deps[d];
      ResolvedName(names, decls[d].deps, x);
    }
  }
}
