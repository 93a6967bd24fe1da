/** Tasks, task lists and the lookup of tasks by name. */
module Tasks {
  import opened Graphs

  datatype Option<+T> = None | Some(value: T)

  datatype Status = Pending | Running | Skipped | Success | Failed

  /** The declared part of a task, fixed once the manifest is parsed. A task without a `cmd` line
      has no command at all, which is not the empty command. */
  datatype TaskDecl = TaskDecl(name: string, cmd: Option<string>, inputs: seq<string>, outputs: seq<string>, deps: seq<string>)

  class Task {
    const decl: TaskDecl
    var taskHash: Option<string>
    var resultHash: Option<string>
    var status: Status
    var indegree: int
    var dependents: seq<Task>

    constructor (decl: TaskDecl)
      ensures this.decl == decl && status == Pending && taskHash == None && resultHash == None
      ensures indegree == 0 && dependents == []
    {
      this.decl := decl;
      taskHash, resultHash, status, indegree, dependents := None, None, Pending, 0, [];
    }
  }

  /** The position of the first entry equal to name, or -1. */
  function FindIndex<T(==)>(names: seq<T>, name: T): (r: int)
    ensures -1 <= r < |names|
    ensures r >= 0 ==> names[r] == name && forall j :: 0 <= j < r ==> names[j] != name
    ensures r == -1 <==> name !in names
  {
    if names == [] then -1
    else if names[0] == name then 0
    else
      var r := FindIndex(names[1..], name);
      assert names == [names[0]] + names[1..];
      if r < 0 then -1 else r + 1
  }

  function Names(tasks: seq<Task>): (r: seq<string>)
    ensures |r| == |tasks|
    ensures forall i :: 0 <= i < |tasks| ==> r[i] == tasks[i].decl.name
  {
    seq(|tasks|, i requires 0 <= i < |tasks| => tasks[i].decl.name)
  }

  /** find_task and find_task_index: a scan for the first task of that name. */
  method FindTask(tasks: seq<Task>, name: string) returns (index: int)
    ensures index == FindIndex(Names(tasks), name)
  {
    var names := Names(tasks);
    index := 0;
    while index < |tasks|
      invariant 0 <= index <= |tasks|
      invariant forall j :: 0 <= j < index ==> names[j] != name
    {
      if tasks[index].decl.name == name {
        return;
      }
      index := index + 1;
    }
    index := -1;
  }

  lemma FindIndexUnique<T>(names: seq<T>, k: nat)
    requires NoDup(names) && k < |names|
    ensures FindIndex(names, names[k]) == k
  {}

  /** The positions named by xs, in order, dropping the names that are not in the list. */
  function Resolve<T(==)>(names: seq<T>, xs: seq<T>): (r: seq<nat>)
    ensures forall i :: i in r ==> i < |names|
  {
    if xs == [] then []
    else
      var i := FindIndex(names, xs[0]);
      (if i < 0 then [] else [i as nat]) + Resolve(names, xs[1..])
  }

  lemma ResolveFirst<T>(names: seq<T>, xs: seq<T>, k: nat)
    requires k < |xs|
    ensures var i := FindIndex(names, xs[k]);
            Resolve(names, xs[k..]) == if i < 0 then Resolve(names, xs[k + 1..]) else [i as nat] + Resolve(names, xs[k + 1..])
  {}

  lemma {:induction false} ResolveAppend<T>(names: seq<T>, xs: seq<T>, x: T)
    ensures Resolve(names, xs + [x]) ==
            Resolve(names, xs) + (if FindIndex(names, x) < 0 then [] else [FindIndex(names, x) as nat])
  {
    if xs == [] {
      assert xs + [x] == [x];
    } else {
      assert (xs + [x])[1..] == xs[1..] + [x];
      ResolveAppend(names, xs[1..], x);
    }
  }

  /** With unique names, position i occurs as often as its name does. */
  lemma {:induction false} ResolveCount<T>(names: seq<T>, xs: seq<T>, i: nat)
    requires NoDup(names) && i < |names|
    ensures multiset(Resolve(names, xs))[i] == multiset(xs)[names[i]]
  {
    if xs != [] {
      ResolveCount(names, xs[1..], i);
      assert xs == [xs[0]] + xs[1..];
      FindIndexUnique(names, i);
    }
  }

  lemma {:induction false} ResolvedName<T>(names: seq<T>, xs: seq<T>, i: nat)
    requires i in Resolve(names, xs)
    ensures i < |names| && names[i] in xs && FindIndex(names, names[i]) == i
  {
    if i !in Resolve(names, xs[1..]) {
      assert FindIndex(names, xs[0]) == i;
    } else {
      ResolvedName(names, xs[1..], i);
    }
  }

  lemma {:induction false} NameResolved<T>(names: seq<T>, xs: seq<T>, x: T)
    requires x in xs && x in names
    ensures FindIndex(names, x) in Resolve(names, xs)
  {
    if x != xs[0] {
      assert x in xs[1..];
      NameResolved(names, xs[1..], x);
    }
  }

  lemma NothingToRelease<T>(p: seq<int>, q: seq<nat>, names: seq<T>, all: seq<T>)
    requires forall d :: d in Resolve(names, all[|all|..]) ==> d < |p|
    ensures Release(p, q, Resolve(names, all[|all|..])) == (p, q)
  {}

  /** The dependency graph of a subset, by position: deps and dependents by name, names outside the
      subset dropped. */
  function GraphOf(names: seq<string>, deps: seq<seq<string>>, dependents: seq<seq<string>>): (g: Graph)
    requires |deps| == |names| == |dependents|
    ensures g.Size() == |names|
  {
    Graph(seq(|names|, i requires 0 <= i < |names| => Resolve(names, deps[i])),
          seq(|names|, i requires 0 <= i < |names| => Resolve(names, dependents[i])))
  }

  /** Each in-subset dependency occurrence has its own reverse edge. */
  ghost predicate Mirrored(names: seq<string>, deps: seq<seq<string>>, dependents: seq<seq<string>>)
    requires |deps| == |names| == |dependents|
  {
    forall i, j :: 0 <= i < |names| && 0 <= j < |names| ==>
      multiset(deps[j])[names[i]] == multiset(dependents[i])[names[j]]
  }

  lemma GraphOfValid(names: seq<string>, deps: seq<seq<string>>, dependents: seq<seq<string>>)
    requires |deps| == |names| == |dependents|
    requires NoDup(names) && Mirrored(names, deps, dependents)
    ensures GraphOf(names, deps, dependents).Valid()
  {
    var g := GraphOf(names, deps, dependents);
    forall i, j | 0 <= i < |names| && 0 <= j < |names|
      ensures multiset(g.deps[j])[i] == multiset(g.dependents[i])[j]
    {
      ResolveCount(names, deps[j], i);
      ResolveCount(names, dependents[i], j);
    }
  }

  /** The declared parts. */
  function Decls(tasks: seq<Task>): (r: seq<TaskDecl>)
    ensures |r| == |tasks| && forall i :: 0 <= i < |tasks| ==> r[i] == tasks[i].decl
  {
    seq(|tasks|, i requires 0 <= i < |tasks| => tasks[i].decl)
  }

  function DepNames(tasks: seq<Task>): (r: seq<seq<string>>)
    ensures |r| == |tasks|
    ensures forall i :: 0 <= i < |tasks| ==> r[i] == tasks[i].decl.deps
  {
    seq(|tasks|, i requires 0 <= i < |tasks| => tasks[i].decl.deps)
  }

  function DependentNames(tasks: seq<Task>): (r: seq<seq<string>>)
    reads tasks`dependents
    ensures |r| == |tasks|
    ensures forall i :: 0 <= i < |tasks| ==> r[i] == Names(tasks[i].dependents)
  {
    if tasks == [] then []
    else DependentNames(tasks[..|tasks| - 1]) + [Names(tasks[|tasks| - 1].dependents)]
  }

  function TaskGraph(tasks: seq<Task>): (g: Graph)
    reads tasks`dependents
    ensures g.Size() == |tasks|
  {
    GraphOf(Names(tasks), DepNames(tasks), DependentNames(tasks))
  }

  /** What the schedulers rely on: unique names and exact reverse edges. */
  ghost predicate WellLinked(tasks: seq<Task>)
    reads tasks`dependents
  {
    NoDup(Names(tasks)) && Mirrored(Names(tasks), DepNames(tasks), DependentNames(tasks))
  }

  /** A dependent with the name of a subset task is that task. */
  ghost predicate SameObjects(subset: seq<Task>)
    reads subset`dependents
  {
    forall t, d :: t in subset && d in t.dependents && d.decl.name in Names(subset) ==> d in subset
  }
}
