/** Building the reverse edges of a task list, and what subsets of the list inherit. */
module ReverseEdges {
  import opened Graphs
  import opened Tasks

  /** How many of the dependencies ds resolve to position i. */
  function Occurrences(names: seq<string>, ds: seq<string>, i: nat): nat {
    multiset(Resolve(names, ds))[i]
  }

  function Repeat(j: nat, count: nat): (r: seq<nat>)
    ensures |r| == count && forall x :: x in r ==> x == j
  {
    seq(count, _ => j)
  }

  /** The dependents of position i among the first k tasks: in list order, once per occurrence. */
  function DependentsOf(names: seq<string>, deps: seq<seq<string>>, i: nat, k: nat): (r: seq<nat>)
    requires k <= |deps|
    ensures forall x :: x in r ==> x < k
  {
    if k == 0 then [] else DependentsOf(names, deps, i, k - 1) + Repeat(k - 1, Occurrences(names, deps[k - 1], i))
  }

  lemma {:induction false} DependentsCount(names: seq<string>, deps: seq<seq<string>>, i: nat, k: nat, j: nat)
    requires k <= |deps|
    ensures multiset(DependentsOf(names, deps, i, k))[j] == if j < k then Occurrences(names, deps[j], i) else 0
  {
    hide Occurrences, Repeat;
    if k > 0 {
      DependentsCount(names, deps, i, k - 1, j);
      RepeatCount(k - 1, Occurrences(names, deps[k - 1], i), j);
    }
  }

  lemma {:induction false} RepeatCount(j: nat, count: nat, x: nat)
    ensures multiset(Repeat(j, count))[x] == if x == j then count else 0
  {
    if count > 0 {
      assert Repeat(j, count) == Repeat(j, count - 1) + [j];
      RepeatCount(j, count - 1, x);
    } else {
      assert Repeat(j, count) == [];
    }
  }

  lemma RepeatOneMore(names: seq<string>, ds: seq<string>, d: nat, i: nat, j: nat)
    requires d < |ds|
    ensures var hit := FindIndex(names, ds[d]) == i;
            Repeat(j, Occurrences(names, ds[..d + 1], i)) == Repeat(j, Occurrences(names, ds[..d], i)) + if hit then [j] else []
  {
    assert ds[..d + 1] == ds[..d] + [ds[d]];
    ResolveAppend(names, ds[..d], ds[d]);
  }

  /** Every task's dependents are those of the first k tasks, plus the first d dependencies of task k. */
  ghost predicate LinkedUpTo(tasks: seq<Task>, k: nat, d: nat)
    requires (k < |tasks| && d <= |tasks[k].decl.deps|) || (k == |tasks| && d == 0)
    reads tasks`dependents
  {
    forall i {:trigger tasks[i].dependents} :: 0 <= i < |tasks| ==> tasks[i].dependents == Links(tasks, i, k, d)
  }

  function Links(tasks: seq<Task>, i: nat, k: nat, d: nat): seq<Task>
    requires (k < |tasks| && d <= |tasks[k].decl.deps|) || (k == |tasks| && d == 0)
  {
    Select(tasks, LinksOf(tasks, i, k, d))
  }

  function LinksOf(tasks: seq<Task>, i: nat, k: nat, d: nat): (r: seq<nat>)
    requires (k < |tasks| && d <= |tasks[k].decl.deps|) || (k == |tasks| && d == 0)
    ensures forall x :: 0 <= x < |r| ==> r[x] < |tasks|
  {
    var names, deps := Names(tasks), DepNames(tasks);
    var before := DependentsOf(names, deps, i, k);
    assert forall x :: 0 <= x < |before| ==> before[x] in before;
    if d == 0 then before
    else
      var more := Repeat(k, Occurrences(names, tasks[k].decl.deps[..d], i));
      assert forall x :: 0 <= x < |more| ==> more[x] in more;
      before + more
  }

  /** One dependency further, only the task it names has one more dependent. */
  lemma LinkOneMore(tasks: seq<Task>, i: nat, k: nat, d: nat)
    requires k < |tasks| && d < |tasks[k].decl.deps|
    ensures Links(tasks, i, k, d + 1) ==
            Links(tasks, i, k, d) + if FindIndex(Names(tasks), tasks[k].decl.deps[d]) == i then [tasks[k]] else []
  {
    hide Occurrences, DependentsOf, FindIndex;
    var names, ds := Names(tasks), tasks[k].decl.deps;
    RepeatOneMore(names, ds, d, i, k);
    if d == 0 {
      NoOccurrences(names, ds, i, k);
    }
    assert LinksOf(tasks, i, k, d + 1) ==
           LinksOf(tasks, i, k, d) + if FindIndex(names, ds[d]) == i then [k] else [];
  }

  lemma NoOccurrences(names: seq<string>, ds: seq<string>, i: nat, j: nat)
    ensures Repeat(j, Occurrences(names, ds[..0], i)) == []
  {}

  lemma LinkTaskDone(tasks: seq<Task>, i: nat, k: nat)
    requires k < |tasks|
    ensures Links(tasks, i, k + 1, 0) == Links(tasks, i, k, |tasks[k].decl.deps|)
  {
    var names, ds := Names(tasks), tasks[k].decl.deps;
    assert ds[..|ds|] == ds;
    if ds == [] {
      NoOccurrences(names, ds, i, k);
    }
  }

  /** task.c:151-168. */
  method BuildReverse(tasks: seq<Task>)
    requires NoDup(tasks)
    modifies tasks`dependents
    ensures LinkedUpTo(tasks, |tasks|, 0)
  {
    hide Links;
    for i := 0 to |tasks|
      invariant forall k :: 0 <= k < i ==> tasks[k].dependents == []
    {
      tasks[i].dependents := [];
    }
    NoLinks(tasks);
    for i := 0 to |tasks|
      invariant LinkedUpTo(tasks, i, 0)
    {
      var deps := tasks[i].decl.deps;
      for d := 0 to |deps|
        invariant LinkedUpTo(tasks, i, d)
      {
        AddLink(tasks, i, d);
      }
      forall k | 0 <= k < |tasks|
        ensures Links(tasks, k, i + 1, 0) == Links(tasks, k, i, |deps|)
      {
        LinkTaskDone(tasks, k, i);
      }
    }
  }

  lemma NoLinks(tasks: seq<Task>)
    ensures forall k :: 0 <= k < |tasks| ==> Links(tasks, k, 0, 0) == []
  {}

  /** One dependency: the task it names, if any, gets task i as a dependent. */
  method AddLink(tasks: seq<Task>, i: nat, d: nat)
    requires NoDup(tasks) && i < |tasks| && d < |tasks[i].decl.deps|
    requires LinkedUpTo(tasks, i, d)
    modifies tasks`dependents
    ensures LinkedUpTo(tasks, i, d + 1)
  {
    hide Links, FindIndex;
    var index := FindTask(tasks, tasks[i].decl.deps[d]);
    forall k | 0 <= k < |tasks|
      ensures Links(tasks, k, i, d + 1) == if index == k then Links(tasks, k, i, d) + [tasks[i]] else Links(tasks, k, i, d)
    {
      LinkOneMore(tasks, k, i, d);
    }
    if index >= 0 {
      var dep := tasks[index];
      dep.dependents := dep.dependents + [tasks[i]];
    }
  }

  // ---- What the reverse edges are good for -----------------------------------------------------------

  /** The dependents of each task are tasks of the list. */
  ghost predicate Inside(tasks: seq<Task>)
    reads tasks`dependents
  {
    forall t, d :: t in tasks && d in t.dependents ==> d in tasks
  }

  lemma MirroredPair(tasks: seq<Task>, i: nat, j: nat)
    requires NoDup(Names(tasks)) && i < |tasks| && j < |tasks|
    ensures multiset(DepNames(tasks)[j])[Names(tasks)[i]] == multiset(Names(Links(tasks, i, |tasks|, 0)))[Names(tasks)[j]]
  {
    hide DependentsOf, NoDup;
    var names, deps := Names(tasks), DepNames(tasks);
    DependentsCount(names, deps, i, |tasks|, j);
    ResolveCount(names, deps[j], i);
    PickedNames(tasks, LinksOf(tasks, i, |tasks|, 0), j);
  }

  /** With unique names the reverse edges mirror the dependencies exactly, occurrence by occurrence. */
  lemma BuiltIsLinked(tasks: seq<Task>)
    requires LinkedUpTo(tasks, |tasks|, 0) && NoDup(Names(tasks))
    ensures WellLinked(tasks) && Inside(tasks)
  {
    hide Links, NoDup;
    forall i, j | 0 <= i < |tasks| && 0 <= j < |tasks|
      ensures multiset(DepNames(tasks)[j])[Names(tasks)[i]] == multiset(DependentNames(tasks)[i])[Names(tasks)[j]]
    {
      MirroredPair(tasks, i, j);
      assert tasks[i].dependents == Links(tasks, i, |tasks|, 0);
    }
    forall t, d | t in tasks && d in t.dependents
      ensures d in tasks
    {
      var i :| 0 <= i < |tasks| && tasks[i] == t;
      assert tasks[i].dependents == Links(tasks, i, |tasks|, 0);
      LinksInside(tasks, i);
    }
  }

  lemma LinksInside(tasks: seq<Task>, i: nat)
    ensures forall d :: d in Links(tasks, i, |tasks|, 0) ==> d in tasks
  {}

  lemma NamesDiffer(tasks: seq<Task>, i: nat, j: nat)
    requires NoDup(Names(tasks)) && i < |tasks| && j < |tasks|
    ensures Names(tasks)[i] == Names(tasks)[j] <==> i == j
  {}

  lemma {:induction false} PickedNames(tasks: seq<Task>, ps: seq<nat>, j: nat)
    requires NoDup(Names(tasks)) && j < |tasks|
    requires forall k :: 0 <= k < |ps| ==> ps[k] < |tasks|
    ensures multiset(Names(Select(tasks, ps)))[Names(tasks)[j]] == multiset(ps)[j]
  {
    if ps != [] {
      hide NoDup, Select, Names;
      var init, p := ps[..|ps| - 1], ps[|ps| - 1];
      assert ps == init + [p];
      PickedNames(tasks, init, j);
      assert Names(Select(tasks, ps)) == Names(Select(tasks, init)) + [Names(tasks)[p]];
      NamesDiffer(tasks, p, j);
    }
  }

  /** Any selection of a linked list's tasks is what both schedulers need: linked, with dependents that
      are the same objects. */
  lemma SubsetIsLinked(tasks: seq<Task>, subset: seq<Task>)
    requires WellLinked(tasks) && Inside(tasks)
    requires NoDup(subset) && forall t :: t in subset ==> t in tasks
    ensures WellLinked(subset)
    ensures SameObjects(subset)
  {
    forall i, j | 0 <= i < j < |subset|
      ensures Names(subset)[i] != Names(subset)[j]
    {
      SameNameSameTask(tasks, subset[i], subset[j]);
    }
    forall i, j | 0 <= i < |subset| && 0 <= j < |subset|
      ensures multiset(DepNames(subset)[j])[Names(subset)[i]] == multiset(DependentNames(subset)[i])[Names(subset)[j]]
    {
      assert subset[i] in tasks && subset[j] in tasks;
      var a :| 0 <= a < |tasks| && tasks[a] == subset[i];
      var b :| 0 <= b < |tasks| && tasks[b] == subset[j];
      assert multiset(DepNames(tasks)[b])[Names(tasks)[a]] == multiset(DependentNames(tasks)[a])[Names(tasks)[b]];
    }
    forall t, d | t in subset && d in t.dependents && d.decl.name in Names(subset)
      ensures d in subset
    {
      assert t in tasks && d in tasks;
      var k :| 0 <= k < |subset| && Names(subset)[k] == d.decl.name;
      assert subset[k] in subset;
      SameNameSameTask(tasks, subset[k], d);
    }
  }

  lemma SameNameSameTask(tasks: seq<Task>, t: Task, u: Task)
    requires NoDup(Names(tasks)) && t in tasks && u in tasks
    ensures t.decl.name == u.decl.name ==> t == u
  {}
}
