/** Kahn's algorithm over the tasks' indegree fields and a queue of n slots. */
module TopoSort {
  import opened Graphs
  import opened ReverseEdges
  import opened Tasks
  import O = KahnOrder

  // ---- The algorithm's invariant, on positions ---------------------------------------------------

  /** q is everything queued so far, of which the first h have been taken out. */
  ghost predicate KahnInv(g: Graph, indegrees: seq<int>, q: seq<nat>, h: nat) {
    && |indegrees| == g.Size() && h <= |q| && NoDup(q)
    && (forall i :: 0 <= i < g.Size() ==> indegrees[i] == Outstanding(g.deps[i], Elements(q[..h])))
    && (forall i: nat :: i in q <==> i < g.Size() && Outstanding(g.deps[i], Elements(q[..h])) == 0)
    && DepsEarlier(g, q)
  }

  lemma TakeOne(q: seq<nat>, h: nat)
    requires h < |q| && NoDup(q)
    ensures Elements(q[..h + 1]) == Elements(q[..h]) + {q[h]} && q[h] !in Elements(q[..h]) && q[h] in q
  {}

  /** Taking out one task and releasing its dependents keeps the invariant. */
  lemma KahnStep(g: Graph, indegrees: seq<int>, q: seq<nat>, h: nat)
    requires g.Valid() && KahnInv(g, indegrees, q, h) && h < |q|
    ensures q[h] < g.Size() && forall d :: d in g.dependents[q[h]] ==> d < g.Size()
    ensures var (p', q') := Release(indegrees, q, g.dependents[q[h]]);
            KahnInv(g, p', q', h + 1) && q <= q'
  {
    TakeOne(q, h);
    var t, done := q[h], Elements(q[..h]);
    var added := ReleaseCounts(g, indegrees, q, done, t);
    var q' := q + added;
    assert q'[..h + 1] == q[..h + 1];
    forall i: nat
      ensures i in q' <==> i < g.Size() && Outstanding(g.deps[i], done + {t}) == 0
      ensures i in added ==> i !in q
    {
      if i < g.Size() { OutstandingAdd(g.deps[i], done, t); }
    }
    assert NoDup(q') by {
      forall a, b | 0 <= a < b < |q'|
        ensures q'[a] != q'[b]
      {
        if a < |q| <= b {
          assert q'[a] in q;
          assert q'[b] == added[b - |q|];
        }
      }
    }
    AddedDepsEarlier(g, q, added, h + 1);
  }

  lemma AddedDepsEarlier(g: Graph, q: seq<nat>, added: seq<nat>, h: nat)
    requires DepsEarlier(g, q) && h <= |q|
    requires forall i :: i in added ==> i < g.Size() && Outstanding(g.deps[i], Elements(q[..h])) == 0
    ensures DepsEarlier(g, q + added)
  {
    var q' := q + added;
    forall a, d | 0 <= a < |q'| && q'[a] < g.Size() && d in g.deps[q'[a]]
      ensures d in q'[..a]
    {
      if a < |q| {
        assert q'[..a] == q[..a];
      } else {
        assert q'[a] in added;
        OutstandingZero(g.deps[q'[a]], Elements(q[..h]));
        assert d in q[..h];
        assert q[..h] <= q'[..a];
      }
    }
  }

  lemma KahnFits(g: Graph, indegrees: seq<int>, q: seq<nat>, h: nat)
    requires KahnInv(g, indegrees, q, h)
    ensures |q| <= g.Size()
  {
    QueueSize(g, q);
  }

  /** With the queue used up, every task left over waits for one left over. */
  lemma LeftOverStuck(g: Graph, indegrees: seq<int>, q: seq<nat>, rest: set<nat>)
    requires g.Valid() && KahnInv(g, indegrees, q, |q|) && rest == Nodes(g) - Elements(q)
    ensures Stuck(g, rest)
  {
    assert q[..|q|] == q;
    forall i | i in rest
      ensures DependsOn(g, i, rest)
    {
      OutstandingZero(g.deps[i], Elements(q));
      var d :| d in g.deps[i] && d !in Elements(q);
      assert d in rest;
    }
  }

  lemma QueueSize(g: Graph, q: seq<nat>)
    requires NoDup(q) && forall i :: i in q ==> i < g.Size()
    ensures |q| <= g.Size()
    ensures |q| == g.Size() <==> Elements(q) == Nodes(g)
    ensures |q| == g.Size() <==> Nodes(g) - Elements(q) == {}
  {
    NoDupCard(q);
    SubsetCard(Elements(q), Nodes(g));
    if Elements(q) != Nodes(g) {
      var x :| x in Nodes(g) && x !in Elements(q);
      SubsetCard(Elements(q), Nodes(g) - {x});
    }
  }

  /** With the queue used up: either it holds every task, in an order, and there is no cycle, or the
      tasks left over contain one. */
  lemma KahnEnd(g: Graph, indegrees: seq<int>, q: seq<nat>)
    requires g.Valid() && KahnInv(g, indegrees, q, |q|)
    ensures |q| == g.Size() <==> Acyclic(g)
    ensures |q| == g.Size() ==> IsTopological(g, q)
  {
    QueueSize(g, q);
    if |q| == g.Size() {
      forall i: nat | i < g.Size() ensures i in q { assert i in Nodes(g); }
      OrderFromEarlier(g, q);
      OrderedIsAcyclic(g, q);
      forall k | 0 <= k < |q| ensures q[k] < g.Size() { assert q[k] in q; }
    } else {
      var rest := Nodes(g) - Elements(q);
      LeftOverStuck(g, indegrees, q, rest);
      StuckHasCycle(g, rest);
    }
  }

  lemma OrderFromEarlier(g: Graph, q: seq<nat>)
    requires NoDup(q) && DepsEarlier(g, q)
    ensures Ordered(g, q)
  {}

  lemma {:induction false} ReleasePrefix(pending: seq<int>, q: seq<nat>, ds: seq<nat>)
    requires forall d :: d in ds ==> d < |pending|
    ensures q <= Release(pending, q, ds).1
    decreases ds
  {
    if ds != [] {
      assert ds[0] in ds && forall d :: d in ds[1..] ==> d in ds;
      var p := pending[ds[0] := pending[ds[0]] - 1];
      ReleasePrefix(p, if p[ds[0]] == 0 then q + [ds[0]] else q, ds[1..]);
    }
  }

  lemma KahnInit(g: Graph, indegrees: seq<int>, q: seq<nat>)
    requires g.Valid() && |indegrees| == g.Size()
    requires forall i :: 0 <= i < g.Size() ==> indegrees[i] == |g.deps[i]|
    requires NoDup(q) && forall i: nat :: i in q <==> i < g.Size() && g.deps[i] == []
    ensures KahnInv(g, indegrees, q, 0)
  {
    assert Elements(q[..0]) == {};
    forall i | 0 <= i < g.Size()
      ensures Outstanding(g.deps[i], {}) == |g.deps[i]|
    {
      OutstandingNone(g.deps[i]);
    }
  }

  // ---- The graph the algorithm works on -----------------------------------------------------------

  ghost predicate InList(list: seq<Task>, ps: seq<nat>) {
    NoDup(ps) && forall k :: 0 <= k < |ps| ==> ps[k] < |list|
  }

  /** How many tasks of a subset bear the names xs, occurrence by occurrence. */
  function Bearers(names: seq<string>, xs: seq<string>): nat {
    if xs == [] then 0 else multiset(names)[xs[0]] + Bearers(names, xs[1..])
  }

  /** The collected tasks that the names xs stand for: in the list a name stands for its first bearer. */
  function Known(list: seq<Task>, ps: seq<nat>, xs: seq<string>): (r: seq<nat>)
    ensures forall i :: i in r ==> i < |ps|
  {
    Resolve(ps, Resolve(Names(list), xs))
  }

  /** One name: its first bearer is one of its bearers. */
  lemma KnownBearer(list: seq<Task>, ps: seq<nat>, x: string)
    requires InList(list, ps)
    ensures var f := FindIndex(Names(list), x);
            f >= 0 && f as nat in ps ==> multiset(Names(Select(list, ps)))[x] >= 1
  {
    var f := FindIndex(Names(list), x);
    if f >= 0 && f as nat in ps {
      var k: nat :| k < |ps| && ps[k] == f;
      assert Names(Select(list, ps))[k] == x;
    }
  }

  lemma KnownCons(list: seq<Task>, ps: seq<nat>, x: string, rest: seq<string>)
    ensures var f := FindIndex(Names(list), x);
            |Known(list, ps, [x] + rest)| == (if f >= 0 && f as nat in ps then 1 else 0) + |Known(list, ps, rest)|
  {
    assert ([x] + rest)[1..] == rest;
    var f := FindIndex(Names(list), x);
    var more := Resolve(Names(list), rest);
    if f < 0 {
      assert Resolve(Names(list), [x] + rest) == [] + more == more;
    } else {
      var all := [f as nat] + more;
      assert Resolve(Names(list), [x] + rest) == all && all[0] == f && all[1..] == more;
      assert |Resolve(ps, all)| == (if FindIndex(ps, f as nat) < 0 then 0 else 1) + |Resolve(ps, more)|;
    }
  }

  /** The code counts at least the known dependencies, and no more exactly when each name in xs is borne by
      no collected task but its first bearer. */
  lemma {:induction false} BearersCover(list: seq<Task>, ps: seq<nat>, xs: seq<string>)
    requires InList(list, ps)
    ensures |Known(list, ps, xs)| <= Bearers(Names(Select(list, ps)), xs)
    ensures |Known(list, ps, xs)| == Bearers(Names(Select(list, ps)), xs) <==> forall x :: x in xs ==> OneBearer(list, ps, x)
    decreases |xs|
  {
    hide FindIndex;
    if xs != [] {
      assert xs == [xs[0]] + xs[1..] && forall x :: x in xs <==> x == xs[0] || x in xs[1..];
      KnownCons(list, ps, xs[0], xs[1..]);
      KnownBearer(list, ps, xs[0]);
      BearersCover(list, ps, xs[1..]);
      var f := FindIndex(Names(list), xs[0]);
      assert OneBearer(list, ps, xs[0]) <==> multiset(Names(Select(list, ps)))[xs[0]] == if f >= 0 && f as nat in ps then 1 else 0;
    }
  }

  ghost predicate OneBearer(list: seq<Task>, ps: seq<nat>, x: string)
    requires InList(list, ps)
  {
    var f := FindIndex(Names(list), x);
    multiset(Names(Select(list, ps)))[x] == if f >= 0 && f as nat in ps then 1 else 0
  }

  /** What the code counts beyond the dependencies that have a reverse edge. */
  function Surplus(list: seq<Task>, ps: seq<nat>, a: nat): nat
    requires InList(list, ps) && a < |ps|
  {
    var deps := list[ps[a]].decl.deps;
    BearersCover(list, ps, deps);
    Bearers(Names(Select(list, ps)), deps) - |Known(list, ps, deps)|
  }

  /** The graph topo_sort works on: the known dependencies, and for what is counted without ever being
      counted down, the task itself. */
  function CountedGraph(list: seq<Task>, ps: seq<nat>): (g: Graph)
    requires InList(list, ps)
    ensures g.Size() == |ps| == |g.dependents|
  {
    Graph(seq(|ps|, a requires 0 <= a < |ps| => Known(list, ps, list[ps[a]].decl.deps) + Repeat(a, Surplus(list, ps, a))),
          seq(|ps|, a requires 0 <= a < |ps| => Resolve(ps, LinksOf(list, ps[a], |list|, 0)) + Repeat(a, Surplus(list, ps, a))))
  }

  lemma CountedPair(list: seq<Task>, ps: seq<nat>, i: nat, j: nat)
    requires InList(list, ps) && i < |ps| && j < |ps|
    ensures multiset(CountedGraph(list, ps).deps[j])[i] == multiset(CountedGraph(list, ps).dependents[i])[j]
  {
    hide Surplus, FindIndex, Resolve, Repeat, DependentsOf;
    var names, deps := Names(list), DepNames(list);
    ResolveCount(ps, Resolve(names, deps[ps[j]]), i);
    ResolveCount(ps, LinksOf(list, ps[i], |list|, 0), j);
    DependentsCount(names, deps, ps[i], |list|, ps[j]);
    RepeatCount(j, Surplus(list, ps, j), i);
    RepeatCount(i, Surplus(list, ps, i), j);
  }

  lemma CountedIsValid(list: seq<Task>, ps: seq<nat>)
    requires InList(list, ps)
    ensures CountedGraph(list, ps).Valid()
  {
    var g := CountedGraph(list, ps);
    forall i, j | 0 <= i < |ps| && 0 <= j < |ps|
      ensures multiset(g.deps[j])[i] == multiset(g.dependents[i])[j]
    {
      CountedPair(list, ps, i, j);
    }
    hide Surplus, Known, Resolve, Repeat, LinksOf, FindIndex;
  }

  lemma CountedDegree(list: seq<Task>, ps: seq<nat>, a: nat)
    requires InList(list, ps) && a < |ps|
    ensures |CountedGraph(list, ps).deps[a]| == Bearers(Names(Select(list, ps)), list[ps[a]].decl.deps)
  {}

  lemma SurplusIsOwn(list: seq<Task>, ps: seq<nat>, a: nat)
    requires InList(list, ps) && a < |ps|
    ensures Surplus(list, ps, a) > 0 ==> a in CountedGraph(list, ps).deps[a]
    ensures Surplus(list, ps, a) == 0 ==>
              && CountedGraph(list, ps).deps[a] == Known(list, ps, list[ps[a]].decl.deps)
              && CountedGraph(list, ps).dependents[a] == Resolve(ps, LinksOf(list, ps[a], |list|, 0))
  {
    hide Surplus, Known, Resolve, LinksOf;
    var k := Surplus(list, ps, a);
    if k > 0 { assert Repeat(a, k)[0] == a; } else { assert Repeat(a, k) == []; }
  }

  // ---- Unique names ----------------------------------------------------------------------------------

  /** With unique names a name, its position and its place in the subset find one another. */
  lemma OnePlace(list: seq<Task>, ps: seq<nat>, x: string)
    requires InList(list, ps) && NoDup(Names(list))
    ensures var f := FindIndex(Names(list), x);
            FindIndex(Names(Select(list, ps)), x) == if f < 0 then -1 else FindIndex(ps, f as nat)
  {
    var sub, f := Names(Select(list, ps)), FindIndex(Names(list), x);
    var k := FindIndex(sub, x);
    if k >= 0 {
      FindIndexUnique(Names(list), ps[k]);
      FindIndexUnique(ps, k);
    }
  }

  lemma {:induction false} SameKnown(list: seq<Task>, ps: seq<nat>, xs: seq<string>)
    requires InList(list, ps) && NoDup(Names(list))
    ensures Known(list, ps, xs) == Resolve(Names(Select(list, ps)), xs)
    decreases |xs|
  {
    hide FindIndex, NoDup, InList;
    if xs != [] {
      OnePlace(list, ps, xs[0]);
      SameKnown(list, ps, xs[1..]);
      var f, more := FindIndex(Names(list), xs[0]), Resolve(Names(list), xs[1..]);
      if f >= 0 {
        var all := [f as nat] + more;
        assert Resolve(Names(list), xs) == all && all[0] == f && all[1..] == more;
      } else {
        assert Resolve(Names(list), xs) == [] + more == more;
      }
    }
  }

  lemma {:induction false} SameLinks(list: seq<Task>, ps: seq<nat>, links: seq<nat>)
    requires InList(list, ps) && NoDup(Names(list)) && forall k :: 0 <= k < |links| ==> links[k] < |list|
    ensures Resolve(ps, links) == Resolve(Names(Select(list, ps)), Names(Select(list, links)))
    decreases |links|
  {
    hide FindIndex, NoDup, InList;
    if links != [] {
      var x := links[0];
      OnePlace(list, ps, list[x].decl.name);
      FindIndexUnique(Names(list), x);
      SameLinks(list, ps, links[1..]);
      var names := Names(Select(list, links));
      assert names[0] == list[x].decl.name && names[1..] == Names(Select(list, links[1..]));
    }
  }

  lemma {:induction false} BearersUnique(list: seq<Task>, ps: seq<nat>, a: nat)
    requires InList(list, ps) && NoDup(Names(list)) && a < |ps|
    ensures Surplus(list, ps, a) == 0
  {
    var sub, deps := Names(Select(list, ps)), list[ps[a]].decl.deps;
    BearersCover(list, ps, deps);
    assert NoDup(sub);
    forall x | x in deps
      ensures OneBearer(list, ps, x)
    {
      OnePlace(list, ps, x);
      BearersOf(sub, x);
    }
  }

  lemma {:induction false} BearersOf(names: seq<string>, x: string)
    requires NoDup(names)
    ensures multiset(names)[x] == if x in names then 1 else 0
  {
    if names != [] {
      var init, last := names[..|names| - 1], names[|names| - 1];
      assert names == init + [last];
      BearersOf(init, x);
    }
  }

  /** With unique names it is the executor's graph: the same dependencies, the same dependents. */
  lemma UniqueNamesGraph(list: seq<Task>, ps: seq<nat>)
    requires InList(list, ps) && NoDup(Names(list)) && LinkedUpTo(list, |list|, 0)
    ensures CountedGraph(list, ps) == TaskGraph(Select(list, ps))
  {
    hide Surplus, Known, NoDup, LinksOf;
    var g, h := CountedGraph(list, ps), TaskGraph(Select(list, ps));
    forall a | 0 <= a < |ps|
      ensures g.deps[a] == h.deps[a] && g.dependents[a] == h.dependents[a]
    {
      BearersUnique(list, ps, a);
      SurplusIsOwn(list, ps, a);
      SameKnown(list, ps, list[ps[a]].decl.deps);
      SameLinks(list, ps, LinksOf(list, ps[a], |list|, 0));
      assert list[ps[a]].dependents == Links(list, ps[a], |list|, 0);
    }
    assert g.deps == h.deps && g.dependents == h.dependents;
  }

  // ---- The algorithm on the tasks ----------------------------------------------------------------

  function Indegrees(tasks: seq<Task>): (r: seq<int>)
    reads tasks`indegree
    ensures |r| == |tasks|
    ensures forall i :: 0 <= i < |tasks| ==> r[i] == tasks[i].indegree
  {
    if tasks == [] then []
    else Indegrees(tasks[..|tasks| - 1]) + [tasks[|tasks| - 1].indegree]
  }

  /** task.c:223-233: indegrees within the subset, counting every bearer of every dependency's name. */
  method CountIndegrees(subset: seq<Task>)
    requires NoDup(subset)
    modifies subset`indegree
    ensures forall i :: 0 <= i < |subset| ==> subset[i].indegree == Bearers(Names(subset), subset[i].decl.deps)
  {
    for i := 0 to |subset|
      invariant forall k :: 0 <= k < i ==> subset[k].indegree == 0
    {
      subset[i].indegree := 0;
    }
    for i := 0 to |subset|
      invariant forall k :: 0 <= k < i ==> subset[k].indegree == Bearers(Names(subset), subset[k].decl.deps)
      invariant forall k :: i <= k < |subset| ==> subset[k].indegree == 0
    {
      DistinctTasks(subset, i);
      CountDeps(subset[i], subset);
    }
  }

  lemma {:induction false} BearersAppend(names: seq<string>, xs: seq<string>, x: string)
    ensures Bearers(names, xs + [x]) == Bearers(names, xs) + multiset(names)[x]
  {
    if xs == [] {
      assert xs + [x] == [x];
    } else {
      assert (xs + [x])[1..] == xs[1..] + [x];
      BearersAppend(names, xs[1..], x);
    }
  }

  method CountDeps(t: Task, subset: seq<Task>)
    requires t.indegree == 0
    modifies t`indegree
    ensures t.indegree == Bearers(Names(subset), t.decl.deps)
  {
    ghost var names := Names(subset);
    var deps := t.decl.deps;
    for d := 0 to |deps|
      invariant t.indegree == Bearers(names, deps[..d])
    {
      BearersAppend(names, deps[..d], deps[d]);
      assert deps[..d] + [deps[d]] == deps[..d + 1];
      AddMatches(t, subset, deps[d]);
    }
    assert deps[..|deps|] == deps;
  }

  /** The inner loop: one more for every task of that name. */
  method AddMatches(t: Task, subset: seq<Task>, name: string)
    modifies t`indegree
    ensures t.indegree == old(t.indegree) + multiset(Names(subset))[name]
  {
    ghost var names := Names(subset);
    for j := 0 to |subset|
      invariant t.indegree == old(t.indegree) + multiset(names[..j])[name]
    {
      assert names[..j + 1] == names[..j] + [subset[j].decl.name];
      if name == subset[j].decl.name {
        t.indegree := t.indegree + 1;
      }
    }
    assert names[..|subset|] == names;
  }

  /** The position of a task object, or -1. */
  method IndexOfTask(tasks: seq<Task>, t: Task) returns (index: int)
    ensures -1 <= index < |tasks|
    ensures index >= 0 ==> tasks[index] == t
    ensures index == -1 <==> t !in tasks
  {
    for j := 0 to |tasks|
      invariant forall k :: 0 <= k < j ==> tasks[k] != t
    {
      if tasks[j] == t {
        return j;
      }
    }
    return -1;
  }

  /** The tasks queued so far, by position, and the tasks' indegrees. */
  ghost predicate Queued(subset: seq<Task>, queue: array<Task?>, q: seq<nat>)
    reads queue
  {
    && |q| <= queue.Length == |subset|
    && (forall k :: 0 <= k < |q| ==> q[k] < |subset| && queue[k] == subset[q[k]])
  }

  /** Looking a dependent up by object is looking up its position in the list. */
  lemma IndexIsPlace(list: seq<Task>, ps: seq<nat>, x: nat, index: int)
    requires NoDup(list) && InList(list, ps) && x < |list|
    requires var subset := Select(list, ps);
             -1 <= index < |subset| && (index >= 0 ==> subset[index] == list[x]) && (index == -1 <==> list[x] !in subset)
    ensures index == FindIndex(ps, x)
  {
    if index >= 0 { assert ps[index] == x; }
  }

  lemma DistinctTasks(subset: seq<Task>, index: nat)
    requires NoDup(subset) && index < |subset|
    ensures forall k :: 0 <= k < |subset| && k != index ==> subset[k] != subset[index]
  {}

  /** task.c:252-253: count the task at index down and queue it at zero. */
  method CountDown(subset: seq<Task>, dep: Task, ghost index: nat, queue: array<Task?>, qt: nat, ghost q: seq<nat>)
    returns (qt': nat)
    requires NoDup(subset) && index < |subset| && subset[index] == dep
    requires Queued(subset, queue, q) && qt == |q|
    requires dep.indegree == 1 ==> |q| < |subset|
    modifies dep`indegree, queue
    ensures Indegrees(subset) == old(Indegrees(subset))[index := old(Indegrees(subset))[index] - 1]
    ensures var q' := if Indegrees(subset)[index] == 0 then q + [index] else q;
            Queued(subset, queue, q') && qt' == |q'|
  {
    hide Indegrees, NoDup;
    qt' := qt;
    DistinctTasks(subset, index);
    dep.indegree := dep.indegree - 1;
    assert Indegrees(subset) == old(Indegrees(subset))[index := old(Indegrees(subset))[index] - 1];
    if dep.indegree == 0 {
      queue[qt'] := dep;
      qt' := qt' + 1;
    }
  }

  lemma PickedDistinct(list: seq<Task>, ps: seq<nat>)
    requires NoDup(list) && InList(list, ps)
    ensures NoDup(Select(list, ps))
  {}

  /** One dependent: in the subset it is counted down, otherwise skipped. */
  method ReleaseOne(ghost list: seq<Task>, ghost ps: seq<nat>, subset: seq<Task>, ghost x: nat, dep: Task, queue: array<Task?>,
                    qt: nat, ghost q: seq<nat>, ghost rest: seq<nat>, ghost goal: (seq<int>, seq<nat>))
    returns (qt': nat, ghost q': seq<nat>)
    requires NoDup(list) && InList(list, ps) && subset == Select(list, ps) && x < |list| && dep == list[x]
    requires Queued(subset, queue, q) && qt == |q| && forall y :: y in rest ==> y < |subset|
    requires var index := FindIndex(ps, x);
             goal == Release(Indegrees(subset), q, if index < 0 then rest else [index as nat] + rest)
    requires |goal.1| <= |subset|
    modifies subset`indegree, queue
    ensures Queued(subset, queue, q') && qt' == |q'| && goal == Release(Indegrees(subset), q', rest)
  {
    hide Indegrees, NoDup, InList, FindIndex, Release, Select;
    var index := IndexOfTask(subset, dep);
    IndexIsPlace(list, ps, x, index);
    PickedDistinct(list, ps);
    qt', q' := qt, q;
    if index >= 0 {
      ghost var p := Indegrees(subset);
      ReleaseCons(p, q, index, rest);
      p := p[index := p[index] - 1];
      q' := if p[index] == 0 then q + [index as nat] else q;
      assert q + [] == q;
      ReleasePrefix(p, q', rest);
      qt' := CountDown(subset, dep, index, queue, qt, q);
    }
  }

  /** task.c:246-254: the in-subset dependents of a task taken out are counted down; those that reach
      zero are queued behind q. */
  method ReleaseDependents(ghost list: seq<Task>, ghost ps: seq<nat>, subset: seq<Task>, t: Task, ghost links: seq<nat>,
                           queue: array<Task?>, qt: nat, ghost q: seq<nat>, ghost goal: (seq<int>, seq<nat>))
    returns (qt': nat)
    requires NoDup(list) && InList(list, ps) && subset == Select(list, ps)
    requires (forall k :: 0 <= k < |links| ==> links[k] < |list|) && t.dependents == Select(list, links)
    requires Queued(subset, queue, q) && qt == |q|
    requires goal == Release(Indegrees(subset), q, Resolve(ps, links))
    requires |goal.1| <= |subset|
    modifies subset`indegree, queue
    ensures qt' == |goal.1| && Queued(subset, queue, goal.1) && Indegrees(subset) == goal.0
  {
    hide Indegrees, NoDup, InList, FindIndex, Release, Resolve;
    qt' := qt;
    var dependents := t.dependents;
    ghost var now := q;
    assert links[0..] == links;
    for i := 0 to |dependents|
      invariant Queued(subset, queue, now) && qt' == |now|
      invariant Release(Indegrees(subset), now, Resolve(ps, links[i..])) == goal
    {
      ResolveFirst(ps, links, i);
      qt', now := ReleaseOne(list, ps, subset, links[i], dependents[i], queue, qt', now, Resolve(ps, links[i + 1..]), goal);
    }
    NothingToRelease(Indegrees(subset), now, ps, links);
  }

  /** task.c:236-240: the tasks without indegree, in subset order. */
  method QueueRoots(subset: seq<Task>, queue: array<Task?>) returns (qt: nat, ghost q: seq<nat>)
    requires queue.Length == |subset|
    modifies queue
    ensures Queued(subset, queue, q) && qt == |q| && NoDup(q)
    ensures forall k: nat :: k in q <==> k < |subset| && subset[k].indegree == 0
    ensures forall k, l :: 0 <= k < l < |q| ==> q[k] < q[l]
  {
    qt, q := 0, [];
    for i := 0 to |subset|
      invariant Queued(subset, queue, q) && qt == |q| && qt <= i
      invariant NoDup(q) && forall k: nat :: k in q <==> k < i && subset[k].indegree == 0
      invariant forall k, l :: 0 <= k < l < |q| ==> q[k] < q[l]
    {
      if subset[i].indegree == 0 {
        queue[qt] := subset[i];
        qt := qt + 1;
        assert forall k :: 0 <= k < |q| ==> q[k] in q;
        q := q + [i];
      }
    }
  }

  lemma SortInit(list: seq<Task>, ps: seq<nat>, q: seq<nat>)
    requires InList(list, ps)
    requires var subset := Select(list, ps);
             && (forall i :: 0 <= i < |subset| ==> subset[i].indegree == Bearers(Names(subset), subset[i].decl.deps))
             && NoDup(q) && forall k: nat :: k in q <==> k < |subset| && subset[k].indegree == 0
    ensures CountedGraph(list, ps).Valid() && KahnInv(CountedGraph(list, ps), Indegrees(Select(list, ps)), q, 0)
  {
    hide Graph.Valid, NoDup, KahnInv, CountedGraph, Bearers, Indegrees;
    var subset, g := Select(list, ps), CountedGraph(list, ps);
    CountedIsValid(list, ps);
    forall i | 0 <= i < |subset|
      ensures Indegrees(subset)[i] == |g.deps[i]|
    {
      CountedDegree(list, ps, i);
    }
    KahnInit(g, Indegrees(subset), q);
  }

  lemma NotOwnDependency(g: Graph, indegrees: seq<int>, q: seq<nat>, h: nat)
    requires KahnInv(g, indegrees, q, h) && h < |q|
    ensures q[h] < g.Size() && q[h] !in g.deps[q[h]]
  {
    assert q[h] in q;
    OutstandingZero(g.deps[q[h]], Elements(q[..h]));
    TakeOne(q, h);
  }

  /** A queued task has all its dependencies behind it, so none of what it counts is its own. */
  lemma NoSurplus(list: seq<Task>, ps: seq<nat>, indegrees: seq<int>, q: seq<nat>, h: nat)
    requires InList(list, ps) && KahnInv(CountedGraph(list, ps), indegrees, q, h) && h < |q|
    ensures q[h] < |ps| && CountedGraph(list, ps).dependents[q[h]] == Resolve(ps, LinksOf(list, ps[q[h]], |list|, 0))
  {
    hide Surplus, Known, Resolve, LinksOf, KahnInv, CountedGraph;
    NotOwnDependency(CountedGraph(list, ps), indegrees, q, h);
    SurplusIsOwn(list, ps, q[h]);
  }

  // ---- The order of the queue -----------------------------------------------------------------------

  lemma RootsOrdered(list: seq<Task>, ps: seq<nat>, q: seq<nat>)
    requires InList(list, ps)
    requires KahnInv(CountedGraph(list, ps), Indegrees(Select(list, ps)), q, 0)
    requires forall k, l :: 0 <= k < l < |q| ==> q[k] < q[l]
    ensures O.Inside(CountedGraph(list, ps), q) && O.QueueOrder(CountedGraph(list, ps), ps, q)
  {
    hide CountedGraph, Indegrees, O.QueueOrder;
    var g := CountedGraph(list, ps);
    forall k | 0 <= k < |q|
      ensures q[k] < g.Size() && g.deps[q[k]] == []
    {
      assert q[k] in q && Elements(q[..0]) == {};
      OutstandingNone(g.deps[q[k]]);
    }
    O.RootsInOrder(g, ps, q);
  }

  lemma QueuedWithin(g: Graph, indegrees: seq<int>, q: seq<nat>, h: nat, x: nat)
    requires KahnInv(g, indegrees, q, h) && x in q
    ensures x < g.Size() && O.DepsWithin(g, q, x, h)
  {
    OutstandingZero(g.deps[x], Elements(q[..h]));
  }

  lemma ReleasedByLast(g: Graph, indegrees: seq<int>, q: seq<nat>, h: nat, indegrees': seq<int>, added: seq<nat>, x: nat)
    requires KahnInv(g, indegrees, q, h) && h < |q| && KahnInv(g, indegrees', q + added, h + 1) && x in added
    ensures x < g.Size() && O.LastDep(g, q, x, h)
  {
    var q' := q + added;
    assert x in q' && q'[..h + 1] == q[..h + 1];
    QueuedWithin(g, indegrees', q', h + 1, x);
    NotQueuedBefore(q, added, x);
    OutstandingZero(g.deps[x], Elements(q[..h]));
    var d :| d in g.deps[x] && d !in Elements(q[..h]);
    TakeOne(q, h);
    assert d in Elements(q[..h + 1]);
  }

  lemma NotQueuedBefore(q: seq<nat>, added: seq<nat>, x: nat)
    requires NoDup(q + added) && x in added
    ensures x !in q
  {
    var b :| 0 <= b < |added| && added[b] == x;
    assert (q + added)[|q| + b] == x;
    assert forall a :: 0 <= a < |q| ==> (q + added)[a] == q[a];
  }

  lemma LinksAscend(list: seq<Task>, i: nat)
    ensures O.Ascending(LinksOf(list, i, |list|, 0))
  {
    O.DependentsAscend(Names(list), DepNames(list), i, |list|);
  }

  lemma AddedDistinct(q: seq<nat>, added: seq<nat>)
    requires NoDup(q + added)
    ensures NoDup(added)
  {
    assert forall a :: 0 <= a < |added| ==> (q + added)[|q| + a] == added[a];
  }

  /** One turn of the loop keeps the order. */
  lemma OrderKept(list: seq<Task>, ps: seq<nat>, indegrees: seq<int>, q: seq<nat>, h: nat)
    requires InList(list, ps) && CountedGraph(list, ps).Valid() && h < |q|
    requires KahnInv(CountedGraph(list, ps), indegrees, q, h)
    requires O.Inside(CountedGraph(list, ps), q) && O.QueueOrder(CountedGraph(list, ps), ps, q)
    ensures q[h] < |ps| && forall d :: d in CountedGraph(list, ps).dependents[q[h]] ==> d < |indegrees|
    ensures var q' := Release(indegrees, q, CountedGraph(list, ps).dependents[q[h]]).1;
            O.Inside(CountedGraph(list, ps), q') && O.QueueOrder(CountedGraph(list, ps), ps, q')
  {
    hide CountedGraph, Graph.Valid, Resolve, LinksOf, Release, O.QueueOrder, O.LastDep, O.DepsWithin;
    var g := CountedGraph(list, ps);
    KahnStep(g, indegrees, q, h);
    NoSurplus(list, ps, indegrees, q, h);
    LinksAscend(list, ps[q[h]]);
    O.ResolveAscends(ps, LinksOf(list, ps[q[h]], |list|, 0));
    var added := O.ReleaseAscends(indegrees, q, g.dependents[q[h]], ps);
    var p' := Release(indegrees, q, g.dependents[q[h]]).0;
    AddedDistinct(q, added);
    O.StrictlyAscending(ps, added);
    forall k | 0 <= k < |q|
      ensures O.DepsWithin(g, q, q[k], h)
    {
      QueuedWithin(g, indegrees, q, h, q[k]);
    }
    forall k | 0 <= k < |added|
      ensures added[k] < g.Size() && O.LastDep(g, q, added[k], h)
    {
      ReleasedByLast(g, indegrees, q, h, p', added, added[k]);
    }
    O.OrderStep(g, ps, q, added, h);
  }

  /** What the loop body may rely on: the task taken out, and that its release fits the queue. */
  lemma SortStep(list: seq<Task>, ps: seq<nat>, queue: array<Task?>, q: seq<nat>, h: nat) returns (goal: (seq<int>, seq<nat>), links: seq<nat>)
    requires InList(list, ps) && LinkedUpTo(list, |list|, 0) && CountedGraph(list, ps).Valid() && h < |q|
    requires KahnInv(CountedGraph(list, ps), Indegrees(Select(list, ps)), q, h) && Queued(Select(list, ps), queue, q)
    requires O.Inside(CountedGraph(list, ps), q) && O.QueueOrder(CountedGraph(list, ps), ps, q)
    ensures var subset := Select(list, ps);
            && q[h] < |subset| && queue[h] == subset[q[h]]
            && (forall k :: 0 <= k < |links| ==> links[k] < |list|) && subset[q[h]].dependents == Select(list, links)
            && goal == Release(Indegrees(subset), q, Resolve(ps, links))
            && KahnInv(CountedGraph(list, ps), goal.0, goal.1, h + 1) && |goal.1| <= |subset| && q <= goal.1
            && forall k :: 0 <= k < |goal.1| ==> goal.1[k] < |subset|
    ensures O.Inside(CountedGraph(list, ps), goal.1) && O.QueueOrder(CountedGraph(list, ps), ps, goal.1)
  {
    hide O.QueueOrder, KahnInv, CountedGraph, Resolve, LinksOf, Graph.Valid, Release;
    var g, subset := CountedGraph(list, ps), Select(list, ps);
    KahnStep(g, Indegrees(subset), q, h);
    NoSurplus(list, ps, Indegrees(subset), q, h);
    OrderKept(list, ps, Indegrees(subset), q, h);
    links := LinksOf(list, ps[q[h]], |list|, 0);
    assert list[ps[q[h]]].dependents == Links(list, ps[q[h]], |list|, 0);
    goal := Release(Indegrees(subset), q, g.dependents[q[h]]);
    KahnFits(g, goal.0, goal.1, h + 1);
    QueueInside(g, goal.0, goal.1, h + 1);
  }

  lemma QueueInside(g: Graph, indegrees: seq<int>, q: seq<nat>, h: nat)
    requires KahnInv(g, indegrees, q, h)
    ensures forall k :: 0 <= k < |q| ==> q[k] < g.Size()
  {
    assert forall k :: 0 <= k < |q| ==> q[k] in q;
  }

  lemma PickNext(subset: seq<Task>, q: seq<nat>, q': seq<nat>, h: nat)
    requires h < |q| && q <= q' && forall k :: 0 <= k < |q| ==> q[k] < |subset|
    requires forall k :: 0 <= k < |q'| ==> q'[k] < |subset|
    ensures Select(subset, q'[..h + 1]) == Select(subset, q[..h]) + [subset[q[h]]]
  {}

  /** One turn of the loop: a task is taken out and its dependents are released. */
  method TakeNext(ghost list: seq<Task>, ghost ps: seq<nat>, subset: seq<Task>, queue: array<Task?>, qh: nat, qt: nat, ghost order: seq<nat>)
    returns (t: Task, qt': nat, ghost order': seq<nat>)
    requires NoDup(list) && LinkedUpTo(list, |list|, 0) && InList(list, ps) && subset == Select(list, ps)
    requires CountedGraph(list, ps).Valid() && KahnInv(CountedGraph(list, ps), Indegrees(subset), order, qh)
    requires qh < qt == |order| && Queued(subset, queue, order)
    requires O.Inside(CountedGraph(list, ps), order) && O.QueueOrder(CountedGraph(list, ps), ps, order)
    modifies subset`indegree, queue
    ensures Queued(subset, queue, order') && qt' == |order'| && KahnInv(CountedGraph(list, ps), Indegrees(subset), order', qh + 1)
    ensures O.Inside(CountedGraph(list, ps), order') && O.QueueOrder(CountedGraph(list, ps), ps, order')
    ensures qh < qt' && Select(subset, order'[..qh + 1]) == Select(subset, order[..qh]) + [t]
  {
    hide O.QueueOrder, O.Inside, KahnInv, Release, Resolve, LinkedUpTo, InList, Indegrees, CountedGraph, Select, NoDup, Graph.Valid;
    ghost var goal, links := SortStep(list, ps, queue, order, qh);
    t := queue[qh];
    PickNext(subset, order, goal.1, qh);
    qt' := ReleaseDependents(list, ps, subset, t, links, queue, qt, order, goal);
    order' := goal.1;
  }

  /** The loop: every task that is queued is taken out, in the order of the queue. */
  method Drain(ghost list: seq<Task>, ghost ps: seq<nat>, subset: seq<Task>, queue: array<Task?>, roots: nat, ghost start: seq<nat>)
    returns (result: seq<Task>, ghost order: seq<nat>)
    requires NoDup(list) && LinkedUpTo(list, |list|, 0) && InList(list, ps) && subset == Select(list, ps)
    requires CountedGraph(list, ps).Valid() && KahnInv(CountedGraph(list, ps), Indegrees(subset), start, 0)
    requires roots == |start| && Queued(subset, queue, start)
    requires O.Inside(CountedGraph(list, ps), start) && O.QueueOrder(CountedGraph(list, ps), ps, start)
    modifies subset`indegree, queue
    ensures (forall k :: 0 <= k < |order| ==> order[k] < |subset|) && result == Select(subset, order)
    ensures KahnInv(CountedGraph(list, ps), Indegrees(subset), order, |order|)
    ensures O.Inside(CountedGraph(list, ps), order) && O.QueueOrder(CountedGraph(list, ps), ps, order)
  {
    hide O.QueueOrder, O.Inside, KahnInv, Resolve, LinkedUpTo, InList, Indegrees, CountedGraph, NoDup, Graph.Valid;
    result, order := [], start;
    var qh, qt := 0, roots;
    assert Select(subset, order[..0]) == [];
    while qh < qt
      invariant qh <= qt == |order| <= |subset| && Queued(subset, queue, order)
      invariant KahnInv(CountedGraph(list, ps), Indegrees(subset), order, qh)
      invariant O.Inside(CountedGraph(list, ps), order) && O.QueueOrder(CountedGraph(list, ps), ps, order)
      invariant result == Select(subset, order[..qh])
      decreases |subset| - qh
    {
      hide Select;
      var t;
      t, qt, order := TakeNext(list, ps, subset, queue, qh, qt, order);
      qh := qh + 1;
      result := result + [t];
    }
    assert order[..qh] == order;
  }

  /** topo_sort on any selection of a parsed list: NULL exactly when the counted graph has a cycle, and
      otherwise the tasks in an order with dependencies first, those without any in subset order and the
      others by the place of their last dependency. Every queue write stays within the n slots. */
  method Sort(subset: seq<Task>, ghost list: seq<Task>, ghost ps: seq<nat>) returns (r: Option<seq<Task>>, ghost order: seq<nat>)
    requires NoDup(list) && LinkedUpTo(list, |list|, 0) && InList(list, ps) && subset == Select(list, ps)
    modifies subset`indegree
    ensures r.None? <==> !Acyclic(CountedGraph(list, ps))
    ensures r.Some? ==> IsTopological(CountedGraph(list, ps), order) && r.value == Select(subset, order)
    ensures r.Some? ==> O.QueueOrder(CountedGraph(list, ps), ps, order)
  {
    hide O.QueueOrder, O.Inside, KahnInv, IsTopological, Acyclic, LinkedUpTo, InList, Indegrees, CountedGraph, Select, NoDup, Bearers, Graph.Valid, Queued;
    PickedDistinct(list, ps);
    CountIndegrees(subset);
    var queue := new Task?[|subset|](_ => null);
    var roots;
    roots, order := QueueRoots(subset, queue);
    SortInit(list, ps, order);
    RootsOrdered(list, ps, order);
    var result;
    result, order := Drain(list, ps, subset, queue, roots, order);
    KahnEnd(CountedGraph(list, ps), Indegrees(subset), order);
    if |result| != |subset| {
      return None, order;
    }
    return Some(result), order;
  }
}
