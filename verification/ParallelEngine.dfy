/** The parallel entry point against the serial one, from manifest text and targets: the executor runs
    the collection as it is, the serial engine sorts it first, and both leave the same. */
module ParallelEngine {
  import opened Cache
  import opened Closure
  import opened Engine
  import opened Graphs
  import opened Interleaving
  import opened Manifest
  import opened ReverseEdges
  import opened Tasks
  import S = Scheduler
  import SI = ScheduleIndependence
  import T = Transparency

  /** Where the entries of order stand in ps. */
  ghost function Places(ps: seq<nat>, order: seq<nat>): (qs: seq<nat>)
    requires forall x :: x in order ==> x in ps
    ensures |qs| == |order| && forall k :: 0 <= k < |qs| ==> qs[k] < |ps| && ps[qs[k]] == order[k]
  {
    seq(|order|, k requires 0 <= k < |order| => assert order[k] in order; var j: nat :| j < |ps| && ps[j] == order[k]; j)
  }

  /** Two plans for the same targets list the same tasks, so one is an ordering of the other. */
  lemma PlanOfCollection(list: seq<Task>, ps: seq<nat>, order: seq<nat>) returns (qs: seq<nat>)
    requires NoDup(Names(list)) && Collected(DepGraph(list), ps) && Collected(DepGraph(list), order)
    requires forall x: nat :: x in order <==> x in ps
    ensures IsTopological(TaskGraph(Select(list, ps)), qs)
    ensures (forall k :: 0 <= k < |qs| ==> qs[k] < |ps|) && Select(ps, qs) == order
  {
    hide DepGraph, TaskGraph, Resolve;
    qs := Places(ps, order);
    var g := TaskGraph(Select(list, ps));
    forall a, b | 0 <= a < |qs| && 0 <= b < |qs| && qs[b] in g.deps[qs[a]]
      ensures b < a
    {
      DepInSubset(list, ps, qs[a], qs[b]);
      assert order[b] in DepGraph(list).deps[order[a]];
      assert order[b] in order[..a];
    }
    forall i: nat | i < |ps|
      ensures i in qs
    {
      assert ps[i] in ps && ps[i] in order;
      var k: nat :| k < |order| && order[k] == ps[i];
      assert qs[k] == i;
    }
  }

  /** The tasks of a parallel run of the needed collection, and the plan of the serial run. */
  ghost predicate SameProject(content: string, targets: seq<string>, list: seq<Task>, ps: seq<nat>, order: seq<nat>)
    reads list`dependents
  {
    && Decls(list) == Parse(content) && NoDup(list) && WellLinked(list) && Inside(list)
    && NoCycleFrom(DepGraph(list), Roots(Names(list), targets))
    && Needed(list, targets) == Some(ps) && (forall k :: 0 <= k < |ps| ==> ps[k] < |list|)
    && IsPlan(Parse(content), targets, order)
  }

  lemma PlanKnown(content: string, targets: seq<string>, list: seq<Task>, ps: seq<nat>, order: seq<nat>)
    requires SameProject(content, targets, list, ps, order)
    ensures Collected(DepGraph(list), ps) && Collected(DepGraph(list), order)
    ensures forall x: nat :: x in order <==> x in ps
  {
    assert DeclNames(Decls(list)) == Names(list);
    var ps' := CollectIsClosure(DepGraph(list), Roots(Names(list), targets));
  }

  /** The task declarations the executor gets. */
  function Handed(content: string, ps: seq<nat>): seq<TaskDecl>
    requires forall k :: 0 <= k < |ps| ==> ps[k] < |Parse(content)|
  {
    Select(Parse(content), ps)
  }

  lemma HandedGraph(content: string, targets: seq<string>, list: seq<Task>, ps: seq<nat>, order: seq<nat>) returns (qs: seq<nat>)
    requires SameProject(content, targets, list, ps, order)
    ensures (forall k :: 0 <= k < |ps| ==> ps[k] < |Parse(content)|) && Handed(content, ps) == Decls(Select(list, ps))
    ensures TaskGraph(Select(list, ps)).Valid() && IsTopological(TaskGraph(Select(list, ps)), qs)
    ensures (forall k :: 0 <= k < |qs| ==> qs[k] < |ps|) && (forall k :: 0 <= k < |order| ==> order[k] < |Parse(content)|)
    ensures Select(ps, qs) == order && Select(Handed(content, ps), qs) == Select(Parse(content), order)
  {
    hide DepGraph, TaskGraph, NoCycleFrom, IsTopological, Graph.Valid, Needed;
    PlanKnown(content, targets, list, ps, order);
    CollectedIsSchedulable(list, ps);
    qs := PlanOfCollection(list, ps, order);
    assert Handed(content, ps) == Decls(Select(list, ps));
    assert forall k :: 0 <= k < |order| ==> order[k] == ps[qs[k]];
  }

  /** Every run of the parallel engine that has gone as far as it can leaves what the serial engine leaves:
      exit code 0, the same files, and for the k-th task of the serial plan the same key and result hash.
      The serial engine is the one of Build, which ends with SerialRun of its plan. */
  lemma ParallelIsSerial(content: string, targets: seq<string>, list: seq<Task>, ps: seq<nat>, order: seq<nat>,
                         env: Env, past: iset<Turn>, seen: iset<string>, w0: World, oc: seq<S.Outcome>, proto: S.Protocol,
                         workers: nat, joints: seq<Joint>, labels: seq<S.Label>) returns (qs: seq<nat>)
    requires SameProject(content, targets, list, ps, order)
    requires Layout(TaskGraph(Select(list, ps)), Decls(Select(list, ps)))
    requires var (w1, ends) := SerialRun(env, w0, Select(Parse(content), order));
             AllSucceeded(ends) && Assumed(env, past, seen, Decls(Select(list, ps)), w1.files)
    requires T.CacheInv(env, past, seen, w0)
    requires IsJointRun(env, TaskGraph(Select(list, ps)), Decls(Select(list, ps)), oc, proto, workers, w0, joints, labels) && workers > 0
    requires forall t :: 0 <= t < |oc| ==> oc[t].Succeeds?
    requires SI.Stopped(env, TaskGraph(Select(list, ps)), Decls(Select(list, ps)), oc, proto, joints[|labels|])
    ensures (forall k :: 0 <= k < |qs| ==> qs[k] < |ps|) && Select(ps, qs) == order
    ensures var d := joints[|labels|].data;
            var (w1, ends) := SerialRun(env, w0, Select(Parse(content), order));
            && joints[|labels|].ctl.main == S.Returned(0) && d.world.files == w1.files && |ends| == |order|
            && forall k :: 0 <= k < |order| ==>
                 qs[k] in d.ends && !d.ends[qs[k]].Failure() && !ends[k].Failure()
                 && d.ends[qs[k]].key == ends[k].key && d.ends[qs[k]].result == ends[k].result
  {
    assert forall k :: 0 <= k < |ps| ==> ps[k] < |list|;
    hide SameProject, Layout, Assumed, T.CacheInv, IsJointRun, SI.Stopped, AllSucceeded, TaskGraph, Graph.Valid, IsTopological;
    qs := HandedGraph(content, targets, list, ps, order);
    SI.EverySchedule(env, past, seen, TaskGraph(Select(list, ps)), Decls(Select(list, ps)), qs, w0, oc, proto, workers, joints, labels);
  }

  /** And whatever fails, every run of the intended executor on the collection leaves what a run of the
      serial plan that went on after failures leaves, and ends each task as that run does. */
  lemma ParallelIsThrough(content: string, targets: seq<string>, list: seq<Task>, ps: seq<nat>, order: seq<nat>,
                          env: Env, past: iset<Turn>, seen: iset<string>, w0: World, oc: seq<S.Outcome>,
                          workers: nat, joints: seq<Joint>, labels: seq<S.Label>) returns (qs: seq<nat>)
    requires SameProject(content, targets, list, ps, order)
    requires Layout(TaskGraph(Select(list, ps)), Decls(Select(list, ps)))
    requires var ref := SI.RunThrough(env, w0, Select(Parse(content), order)).0.files;
             Assumed(env, past, seen, Decls(Select(list, ps)), ref) && oc == SI.Outcomes(env, Decls(Select(list, ps)), ref)
    requires T.CacheInv(env, past, seen, w0)
    requires IsJointRun(env, TaskGraph(Select(list, ps)), Decls(Select(list, ps)), oc, S.Intended, workers, w0, joints, labels) && workers > 0
    requires SI.Stopped(env, TaskGraph(Select(list, ps)), Decls(Select(list, ps)), oc, S.Intended, joints[|labels|])
    ensures (forall k :: 0 <= k < |qs| ==> qs[k] < |ps|) && Select(ps, qs) == order
    ensures var d := joints[|labels|].data;
            var (w1, ends) := SI.RunThrough(env, w0, Select(Parse(content), order));
            && joints[|labels|].ctl.main == S.Returned(if AllSucceeded(ends) then 0 else 1) && d.world.files == w1.files
            && forall k :: 0 <= k < |order| ==> qs[k] in d.ends && SI.SameEnd(d.ends[qs[k]], ends[k])
  {
    assert forall k :: 0 <= k < |ps| ==> ps[k] < |list|;
    hide SameProject, Layout, Assumed, T.CacheInv, IsJointRun, SI.Stopped, AllSucceeded, TaskGraph, Graph.Valid, IsTopological, SI.RunThrough,
         SI.SameEnd, SI.Outcomes;
    qs := HandedGraph(content, targets, list, ps, order);
    SI.EveryOutcome(env, past, seen, TaskGraph(Select(list, ps)), Decls(Select(list, ps)), qs, w0, oc, S.Intended, workers, joints, labels);
  }
}
