/** The executor's shared context: a linked ready queue, the pending counters, `remaining` and
    `failed`. Each method is one critical section, proved to be the scheduler's step. */
module ParallelExecutor {
  import opened Graphs
  import opened Tasks
  import S = Scheduler

  class ReadyNode {
    const task: Task
    var next: ReadyNode?

    constructor (task: Task)
      ensures this.task == task && next == null
    {
      this.task := task;
      next := null;
    }
  }

  /** A singly linked FIFO with head and tail pointers. */
  class ReadyQueue {
    var head: ReadyNode?
    var tail: ReadyNode?
    ghost var spine: seq<ReadyNode>
    ghost var nodes: set<ReadyNode>

    ghost predicate Valid()
      reads this, nodes
    {
      && (forall n :: n in spine ==> n in nodes)
      && NoDup(spine)
      && head == (if spine == [] then null else spine[0])
      && tail == (if spine == [] then null else spine[|spine| - 1])
      && (forall i, j :: 0 <= i < |spine| && 0 <= j < |spine| && j == i + 1 ==> spine[i].next == spine[j])
      && (spine != [] ==> spine[|spine| - 1].next == null)
    }

    ghost function Contents(): (r: seq<Task>)
      reads this
      ensures |r| == |spine|
    {
      seq(|spine|, i requires 0 <= i < |spine| reads this => spine[i].task)
    }

    constructor ()
      ensures Valid() && Contents() == [] && nodes == {}
    {
      head, tail, spine, nodes := null, null, [], {};
    }

    /** push_ready */
    method Push(t: Task)
      requires Valid()
      modifies this, nodes
      ensures Valid() && Contents() == old(Contents()) + [t]
      ensures fresh(nodes - old(nodes))
    {
      var node := new ReadyNode(t);
      if head == null {
        head := node;
      } else {
        tail.next := node;
      }
      tail := node;
      spine := spine + [node];
      nodes := nodes + {node};
    }

    /** pop_ready: None when the queue is empty. */
    method Pop() returns (r: Option<Task>)
      requires Valid()
      modifies this
      ensures Valid()
      ensures old(Contents()) == [] ==> r == None && Contents() == []
      ensures old(Contents()) != [] ==> r == Some(old(Contents())[0]) && Contents() == old(Contents())[1..]
      ensures nodes == old(nodes)
    {
      if head == null {
        return None;
      }
      var node := head;
      r := Some(node.task);
      if |spine| > 1 {
        assert spine[0].next == spine[1];
      }
      head := node.next;
      spine := spine[1..];
      if head == null {
        tail := null;
      }
    }
  }

  /** The positions of queued tasks. */
  function Positions(names: seq<string>, ts: seq<Task>): (r: seq<nat>)
    requires forall t :: t in ts ==> t.decl.name in names
    ensures |r| == |ts|
    ensures forall i :: 0 <= i < |ts| ==> r[i] == FindIndex(names, ts[i].decl.name)
  {
    seq(|ts|, i requires 0 <= i < |ts| => assert ts[i] in ts; FindIndex(names, ts[i].decl.name))
  }

  /** What a Complete step does to the context. */
  lemma CompletesAs(tasks: seq<Task>, g: Graph, oc: seq<S.Outcome>, proto: S.Protocol, s: S.State, w: nat, t: Task)
    requires g == TaskGraph(tasks) && g.Valid() && S.Enabled(g, oc, s, S.Complete(w)) && tasks[s.workers[w].t] == t
    ensures var ds := Resolve(Names(tasks), Names(t.dependents));
            && (forall d :: d in ds ==> d < |s.sh.pending|)
            && var (p, q) := Release(s.sh.pending, s.sh.ready, ds);
               S.Apply(g, oc, proto, s, S.Complete(w)).sh == s.sh.(pending := p, ready := q, remaining := s.sh.remaining - 1)
  {
    assert g.dependents[s.workers[w].t] == Resolve(Names(tasks), Names(t.dependents));
    hide Resolve, Release;
  }

  /** What a worker finds when it holds the mutex at the top of its loop. */
  datatype Offer = MustSleep | MustLeave | Take(task: Task)

  class ParallelCtx {
    const tasks: seq<Task>
    const pending: array<int>
    const queue: ReadyQueue
    var remaining: int
    var failed: bool

    ghost predicate Valid()
      reads this, pending, queue, queue.nodes
    {
      && queue.Valid()
      && pending.Length == |tasks|
      && (forall t :: t in queue.Contents() ==> t.decl.name in Names(tasks))
    }

    /** The value the protocol's steps are stated on. */
    ghost function Shared(): S.Shared
      requires Valid()
      reads this, pending, queue, queue.nodes
    {
      S.Shared(pending[..], Positions(Names(tasks), queue.Contents()), remaining, failed)
    }

    /** The shared value of a valid context. */
    ghost function Value(): Option<S.Shared>
      reads this, pending, queue, queue.nodes
    {
      if Valid() then Some(Shared()) else None
    }

    /** push_ready on the context: one more position at the back of the queue. */
    method PushReady(t: Task)
      requires Value().Some? && t.decl.name in Names(tasks)
      modifies queue, queue.nodes
      ensures var sh := old(Value()).value;
              Value() == Some(sh.(ready := sh.ready + [FindIndex(Names(tasks), t.decl.name)]))
      ensures queue.Contents() == old(queue.Contents()) + [t]
      ensures fresh(queue.nodes - old(queue.nodes))
    {
      ghost var names := Names(tasks);
      ghost var before := queue.Contents();
      queue.Push(t);
      assert Positions(names, queue.Contents()) == Positions(names, before) + [FindIndex(names, t.decl.name)];
    }

    /** parallel_executor.c:143-166: the in-subset dependency counts, and every task without one queued in
        order, for any subset. With unique names that is the protocol's initial value. */
    constructor (tasks: seq<Task>)
      ensures this.tasks == tasks && fresh(pending) && fresh(queue) && fresh(queue.nodes)
      ensures Counted(TaskGraph(tasks), |tasks|)
      ensures NoDup(Names(tasks)) ==> Value() == Some(S.Init(TaskGraph(tasks), 0).sh)
    {
      hide S.Init, NoDup, TaskGraph, DepsAre, Counted, Value, Valid, Shared, ReadyQueue.Valid, ReadyQueue.Contents, Names;
      this.tasks := tasks;
      pending := new int[|tasks|];
      queue := new ReadyQueue();
      remaining := |tasks|;
      failed := false;
      new;
      GraphDeps();
      FillPending(TaskGraph(tasks));
    }

    lemma GraphDeps()
      ensures DepsAre(TaskGraph(tasks))
    {}

    ghost predicate DepsAre(g: Graph) {
      g.Size() == |tasks| && forall k :: 0 <= k < |tasks| ==> g.deps[k] == Resolve(Names(tasks), tasks[k].decl.deps)
    }

    /** The counters and the queue after i iterations of the initial loop. */
    ghost predicate Counted(g: Graph, i: nat)
      reads this, pending, queue, queue.nodes
    {
      && Valid() && i <= g.Size() == |tasks| == remaining && !failed
      && (forall k :: 0 <= k < i ==> pending[k] == |g.deps[k]|)
      && queue.Contents() == Select(tasks, Rootless(g, i))
    }

    /** The tasks among the first i without known dependencies. */
    ghost function Rootless(g: Graph, i: nat): (r: seq<nat>)
      requires i <= g.Size() == |tasks|
      ensures forall k :: 0 <= k < |r| ==> r[k] < |tasks|
    {
      var roots := S.Roots(g, i);
      assert forall k :: 0 <= k < |roots| ==> roots[k] in roots;
      roots
    }

    lemma NothingCounted(g: Graph)
      requires queue.Valid() && pending.Length == |tasks| && queue.Contents() == []
      requires g.Size() == |tasks| == remaining && !failed
      ensures Counted(g, 0)
    {}

    lemma CountedIsInit(g: Graph)
      requires Counted(g, |tasks|) && NoDup(Names(tasks))
      ensures Value() == Some(S.Init(g, 0).sh)
    {
      hide S.Roots, NoDup;
      var roots := Rootless(g, |tasks|);
      forall k | 0 <= k < |roots|
        ensures Positions(Names(tasks), queue.Contents())[k] == roots[k]
      {
        FindIndexUnique(Names(tasks), roots[k]);
      }
      assert Positions(Names(tasks), queue.Contents()) == roots;
      assert pending[..] == S.Init(g, 0).sh.pending;
    }

    method FillPending(ghost g: Graph)
      requires queue.Valid() && pending.Length == |tasks| && queue.Contents() == [] && queue.nodes == {}
      requires g.Size() == |tasks| == remaining && !failed && DepsAre(g)
      modifies pending, queue
      ensures fresh(queue.nodes)
      ensures Counted(g, |tasks|)
      ensures NoDup(Names(tasks)) ==> Value() == Some(S.Init(g, 0).sh)
    {
      hide Counted, DepsAre, NoDup, S.Init, Value;
      NothingCounted(g);
      var i := 0;
      while i < |tasks|
        invariant 0 <= i <= |tasks|
        invariant Counted(g, i) && fresh(queue.nodes)
      {
        SetPending(i, g);
        i := i + 1;
      }
      if NoDup(Names(tasks)) { CountedIsInit(g); }
    }

    /** One iteration of the initial loop. */
    method SetPending(i: nat, ghost g: Graph)
      requires i < |tasks| && DepsAre(g) && Counted(g, i)
      modifies pending, queue, queue.nodes
      ensures Counted(g, i + 1)
      ensures fresh(queue.nodes - old(queue.nodes))
    {
      hide Resolve, NoDup, FindIndex, S.Roots, Rootless, Select;
      var count := CountKnown(i);
      pending[i] := count;
      RootsMore(g, i);
      if count == 0 {
        assert Names(tasks)[i] in Names(tasks);
        PushReady(tasks[i]);
      }
    }

    lemma RootsMore(g: Graph, i: nat)
      requires i < g.Size() == |tasks|
      ensures Select(tasks, Rootless(g, i + 1)) == Select(tasks, Rootless(g, i)) + if g.deps[i] == [] then [tasks[i]] else []
    {}

    /** The number of in-subset dependency occurrences of task i. */
    method CountKnown(i: nat) returns (count: nat)
      requires i < |tasks|
      ensures count == |Resolve(Names(tasks), tasks[i].decl.deps)|
    {
      var names := Names(tasks);
      var deps := tasks[i].decl.deps;
      count := 0;
      var d := 0;
      while d < |deps|
        invariant 0 <= d <= |deps|
        invariant count == |Resolve(names, deps[..d])|
      {
        var index := FindTask(tasks, deps[d]);
        ResolveAppend(names, deps[..d], deps[d]);
        assert deps[..d] + [deps[d]] == deps[..d + 1];
        if index >= 0 {
          count := count + 1;
        }
        d := d + 1;
      }
      assert deps[..d] == deps;
    }

    /** parallel_executor.c:61-72: sleep, leave or take the first ready task. For worker w, idle in state s
        of the protocol, this is its step l. */
    method TakeTask(ghost g: Graph, ghost oc: seq<S.Outcome>, ghost proto: S.Protocol, ghost s: S.State, ghost w: nat)
      returns (r: Offer, ghost l: S.Label)
      requires Value() == Some(s.sh) && remaining >= 0
      requires g.Valid() && S.InRange(g, oc, s, w) && s.MutexFree() && s.workers[w].Idle?
      modifies this, queue
      ensures l == (if r.MustSleep? then S.Sleep(w) else if r.MustLeave? then S.Leave(w) else S.Pop(w))
      ensures S.Enabled(g, oc, s, l) && Value() == Some(S.Apply(g, oc, proto, s, l).sh)
      ensures r.Take? ==>
                var x := S.Apply(g, oc, proto, s, l).workers[w];
                x.Popped? && x.t == FindIndex(Names(tasks), r.task.decl.name)
      ensures var sh := old(Value()).value;
              if sh.ready == [] then
                Value() == Some(sh) && r == (if sh.remaining > 0 then MustSleep else MustLeave)
              else
                && r.Take? && FindIndex(Names(tasks), r.task.decl.name) == sh.ready[0]
                && Value() == Some(sh.(ready := sh.ready[1..]))
    {
      ghost var before := queue.Contents();
      ghost var positions := Positions(Names(tasks), before);
      if queue.head == null {
        return if remaining > 0 then MustSleep else MustLeave, if remaining > 0 then S.Sleep(w) else S.Leave(w);
      }
      l := S.Pop(w);
      var t := queue.Pop();
      assert forall x :: x in queue.Contents() ==> x in before;
      assert Positions(Names(tasks), queue.Contents()) == positions[1..];
      r := Take(t.value);
    }

    /** parallel_executor.c:83-84: a task whose inputs could not be hashed; the worker's AbortHash step. */
    method AbandonTask(ghost g: Graph, ghost oc: seq<S.Outcome>, ghost s: S.State, ghost w: nat)
      requires Value() == Some(s.sh) && g.Valid() && S.Enabled(g, oc, s, S.AbortHash(w))
      modifies this
      ensures Value() == Some(S.Apply(g, oc, S.Literal, s, S.AbortHash(w)).sh)
      ensures var sh := old(Value()).value;
              Value() == Some(sh.(remaining := sh.remaining - 1, failed := true))
    {
      failed := true;
      remaining := remaining - 1;
    }

    /** parallel_executor.c:97: a failed execution is noted; all the worker's AbortExec step does to the
        context before it blocks on its own mutex. */
    method NoteFailure(ghost g: Graph, ghost oc: seq<S.Outcome>, ghost s: S.State, ghost w: nat)
      requires Value() == Some(s.sh) && g.Valid() && S.Enabled(g, oc, s, S.AbortExec(w))
      modifies this
      ensures Value() == Some(S.Apply(g, oc, S.Literal, s, S.AbortExec(w)).sh)
      ensures Value() == Some(old(Value()).value.(failed := true))
    {
      failed := true;
    }

    /** parallel_executor.c:103-119: count the task off and release its in-subset dependents; the worker's
        Complete step. */
    method CompleteTask(t: Task, ghost g: Graph, ghost oc: seq<S.Outcome>, ghost proto: S.Protocol, ghost s: S.State, ghost w: nat)
      requires Value() == Some(s.sh) && g == TaskGraph(tasks) && g.Valid() && S.Enabled(g, oc, s, S.Complete(w))
      requires tasks[s.workers[w].t] == t
      modifies this, pending, queue, queue.nodes
      ensures Value() == Some(S.Apply(g, oc, proto, s, S.Complete(w)).sh)
    {
      hide Graph.Valid, TaskGraph, Resolve, Release, S.Enabled, S.Apply, Valid, Shared, Value;
      CompletesAs(tasks, g, oc, proto, s, w, t);
      CountOff(t);
    }

    /** The task is no longer remaining and its dependents lose one dependency each. */
    method CountOff(t: Task)
      requires Value().Some?
      modifies this, pending, queue, queue.nodes
      ensures var sh := old(Value()).value;
              var ds := Resolve(Names(tasks), Names(old(t.dependents)));
              && (forall d :: d in ds ==> d < |sh.pending|)
              && var (p, q) := Release(sh.pending, sh.ready, ds);
                 Value() == Some(sh.(pending := p, ready := q, remaining := sh.remaining - 1))
    {
      hide NoDup, FindIndex, Release, Resolve;
      remaining := remaining - 1;
      var names := Names(tasks);
      var dependents := t.dependents;
      ghost var all := Names(dependents);
      ghost var sh := Value().value;
      ghost var goal := Release(sh.pending, sh.ready, Resolve(names, all));
      assert all[0..] == all;
      var i := 0;
      while i < |dependents|
        invariant 0 <= i <= |dependents| == |all|
        invariant fresh(queue.nodes - old(queue.nodes))
        invariant Value() == Some(sh) && |sh.pending| == |names|
        invariant sh.remaining == old(remaining) - 1 && sh.failed == old(failed)
        invariant Release(sh.pending, sh.ready, Resolve(names, all[i..])) == goal
      {
        ResolveFirst(names, all, i);
        ReleaseOne(dependents[i], Resolve(names, all[i + 1..]));
        sh := Value().value;
        i := i + 1;
      }
      NothingToRelease(sh.pending, sh.ready, names, all);
    }

    /** One iteration: an in-subset dependent is counted down, any other task is skipped. */
    method ReleaseOne(dep: Task, ghost rest: seq<nat>)
      requires Value().Some? && forall x :: x in rest ==> x < |tasks|
      modifies pending, queue, queue.nodes
      ensures Value().Some?
      ensures fresh(queue.nodes - old(queue.nodes))
      ensures var index := FindIndex(Names(tasks), dep.decl.name);
              var sh, sh' := old(Value()).value, Value().value;
              && sh' == sh.(pending := sh'.pending, ready := sh'.ready) && |sh'.pending| == |sh.pending| == |tasks|
              && Release(sh'.pending, sh'.ready, rest) ==
                 Release(sh.pending, sh.ready, if index < 0 then rest else [index as nat] + rest)
    {
      var index := FindTask(tasks, dep.decl.name);
      if index >= 0 {
        ReleaseCons(Value().value.pending, Value().value.ready, index, rest);
        CountDown(index, dep);
      }
    }

    /** parallel_executor.c:114-118: decrement, and push when the count reaches zero. */
    method CountDown(index: nat, dep: Task)
      requires Value().Some? && index < |tasks| && index == FindIndex(Names(tasks), dep.decl.name)
      modifies pending, queue, queue.nodes
      ensures var sh := old(Value()).value;
              && |sh.pending| == |tasks|
              && var p := sh.pending[index := sh.pending[index] - 1];
                 Value() == Some(sh.(pending := p, ready := sh.ready + if p[index] == 0 then [index] else []))
      ensures fresh(queue.nodes - old(queue.nodes))
    {
      hide NoDup, FindIndex;
      pending[index] := pending[index] - 1;
      assert pending[..] == old(pending[..])[index := old(pending[index]) - 1];
      assert old(Value()).value.ready + [] == old(Value()).value.ready;
      if pending[index] == 0 {
        PushReady(dep);
      }
    }
  }
}
