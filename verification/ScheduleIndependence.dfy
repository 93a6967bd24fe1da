/** Any complete run of the parallel executor ends like a run of the same tasks in turn, failures
    included, and so like the serial run where that succeeds. */
module ScheduleIndependence {
  import opened Graphs
  import opened Tasks
  import opened Cache
  import opened StoreFacts
  import opened Records
  import opened Interleaving
  import opened Independence
  import opened SchedulerRuns
  import T = Transparency
  import W = WarmRerun
  import S = Scheduler

  // ---- A run through all tasks ----------------------------------------------------------------------

  /** Every task in turn, going on after failures, as the intended executor does. */
  function RunThrough(env: Env, w: World, ts: seq<TaskDecl>): (r: (World, seq<TaskEnd>))
    ensures |r.1| == |ts|
    decreases |ts|
  {
    if ts == [] then (w, [])
    else
      var (w1, e) := RunTask(env, w, ts[0]);
      var (w2, rest) := RunThrough(env, w1, ts[1..]);
      (w2, [e] + rest)
  }

  /** The serial loop takes the same turns up to and including its first failure. */
  lemma {:induction false} SerialIsPrefix(env: Env, w: World, ts: seq<TaskDecl>)
    ensures SerialRun(env, w, ts).1 <= RunThrough(env, w, ts).1
    ensures AllSucceeded(SerialRun(env, w, ts).1) ==> SerialRun(env, w, ts) == RunThrough(env, w, ts)
    ensures AllSucceeded(RunThrough(env, w, ts).1) ==> SerialRun(env, w, ts) == RunThrough(env, w, ts)
    decreases |ts|
  {
    hide RunTask;
    if ts != [] {
      var (w1, e) := RunTask(env, w, ts[0]);
      SerialIsPrefix(env, w1, ts[1..]);
      var serial, all := SerialRun(env, w1, ts[1..]).1, RunThrough(env, w1, ts[1..]).1;
      assert e in [e] && e in [e] + all && e in [e] + serial;
      assert forall x :: x in all ==> x in [e] + all;
      assert forall x :: x in serial ==> x in [e] + serial;
    }
  }

  // ---- The run through all tasks as a reference -------------------------------------------------------

  /** execute_task changes declared outputs only. */
  lemma TaskTouches(env: Env, w: World, t: TaskDecl)
    requires KeepsToOutputs(env, t)
    ensures forall p :: p !in OutputSet(t) ==> SameAt(w.files, RunTask(env, w, t).0.files, p)
  {
    hide RecordResult, RestoreAll, ParseRecord, KeyOf;
    HashTaskMeans(env, w, t);
    var (w1, key) := HashTask(env, w, t);
    if key.Some? {
      if key.value in w1.meta {
        var entries := ParseRecord(w1.meta[key.value]).outputs;
        RestoreAllIsMap(w1, entries, t.outputs);
        RestoreMapFacts(w1.objects, entries, t.outputs);
      } else {
        RecordFiles(env, w1.(files := w1.files + RunCommand(env, w1.files, t).writes), t, key.value);
      }
    }
  }

  lemma RecordFiles(env: Env, w: World, t: TaskDecl, key: string)
    ensures RecordResult(env, w, t, key).0.files == w.files
  {
    OutputHashesMeans(env, w, t.outputs);
    RecordEntriesMeans(env, OutputHashes(env, w, t.outputs).0, t.outputs);
  }

  lemma {:induction false} RunTouches(env: Env, w: World, ts: seq<TaskDecl>)
    requires forall t :: t in ts ==> KeepsToOutputs(env, t)
    ensures forall p :: p !in W.AllOutputs(ts) ==> SameAt(w.files, RunThrough(env, w, ts).0.files, p)
    decreases |ts|
  {
    hide KeepsToOutputs, RunTask;
    if ts != [] {
      assert ts[0] in ts && forall t :: t in ts[1..] ==> t in ts;
      TaskTouches(env, w, ts[0]);
      W.AllOutputsCons(ts);
      RunTouches(env, RunTask(env, w, ts[0]).0, ts[1..]);
    }
  }

  /** A turn on the reference inputs that leaves the reference outputs ends as on the reference files, and
      the reference is fixed for its task. */
  lemma TurnAtReference(env: Env, past: iset<Turn>, seen: iset<string>, decls: seq<TaskDecl>, before: Files, ref: Files, w: World, i: nat)
    requires Assumed(env, past, seen, decls, ref) && i < |decls|
    requires T.CacheInv(env, OccurringTurns(past, decls, ref), seen, w)
    requires Agree(w.files, ref, decls[i].inputs) && Agree(w.files, before, decls[i].outputs)
    requires Agree(RunTask(env, w, decls[i]).0.files, ref, decls[i].outputs)
    ensures var (w', e) := RunTask(env, w, decls[i]);
            && T.CacheInv(env, OccurringTurns(past, decls, ref), seen, w')
            && EndsAs(env, ref, decls[i], e) && Fixed(env, before, ref, decls[i])
  {
    hide RecordResult, ParseRecord, CleanResultOf, KeyOf, T.CacheInv, OccurringTurns, RestoreAll, HashTask;
    var t, occ := decls[i], OccurringTurns(past, decls, ref);
    assert Behaved(env, t);
    AgreeingInputs(env, t, w.files, ref);
    HashTaskMeans(env, w, t);
    var (w1, key) := HashTask(env, w, t);
    InputsKnown(ref, seen, w.files, t);
    T.GrownKeepsInv(env, occ, seen, w, w1, t.inputs);
    LeavesFixed(env, before, ref, t, w.files);
    if key.Some? {
      if key.value in w1.meta {
        MeetsReference(env, past, seen, decls, ref, w1, i, key.value);
        T.FilesKeepInv(env, occ, seen, w1, w1.files + RunCommand(env, ref, t).writes);
        SucceedsInPlace(env, before, ref, t);
      } else {
        FreshAtReference(env, past, seen, decls, before, ref, w1, i, key.value);
      }
    } else {
      assert w1.files + WritesIn(env, ref, t) == w1.files;
    }
  }

  lemma InputsKnown(ref: Files, seen: iset<string>, files: Files, t: TaskDecl)
    requires Within(ref, seen) && Agree(files, ref, t.inputs)
    ensures forall p :: p in t.inputs && p in files ==> files[p] in seen
  {
    forall p | p in t.inputs && p in files
      ensures files[p] in seen
    {
      assert SameAt(files, ref, p);
    }
  }

  /** Where a turn lands on the reference outputs, the reference is fixed for it. */
  lemma LeavesFixed(env: Env, before: Files, ref: Files, t: TaskDecl, files: Files)
    requires Agree(files, before, t.outputs)
    ensures Agree(files + WritesIn(env, ref, t), ref, t.outputs) ==> Fixed(env, before, ref, t)
  {
    hide WritesIn;
    var writes := WritesIn(env, ref, t);
    if Agree(files + writes, ref, t.outputs) {
      forall o | o in t.outputs
        ensures SameAt(before + writes, ref, o)
      {
        assert SameAt(files, before, o) && SameAt(files + writes, ref, o);
      }
    }
  }

  /** A successful command's writes are in the reference already. */
  lemma SucceedsInPlace(env: Env, before: Files, ref: Files, t: TaskDecl)
    requires WritesOutputs(env, t) && InputsExist(ref, t) && RunCommand(env, ref, t).ok
    ensures Fixed(env, before, ref, t) ==> After(env, Turn(t, ref)) == ref
  {
    var writes := RunCommand(env, ref, t).writes;
    if Fixed(env, before, ref, t) {
      forall p | p in writes
        ensures p in ref && ref[p] == writes[p]
      {
        assert p in OutputSet(t);
        assert SameAt(before + WritesIn(env, ref, t), ref, p);
      }
    }
  }

  /** A turn that meets no record runs the command. */
  lemma FreshAtReference(env: Env, past: iset<Turn>, seen: iset<string>, decls: seq<TaskDecl>, before: Files, ref: Files, w: World, i: nat, key: string)
    requires Assumed(env, past, seen, decls, ref) && i < |decls|
    requires T.CacheInv(env, OccurringTurns(past, decls, ref), seen, w) && key !in w.meta
    requires InputsExist(ref, decls[i]) && key == KeyOf(env, ref, decls[i])
    requires RunCommand(env, w.files, decls[i]) == RunCommand(env, ref, decls[i]) && Agree(w.files, before, decls[i].outputs)
    requires Agree(ExecuteTask(env, w, decls[i], key).0.files, ref, decls[i].outputs)
    ensures var (w', e) := ExecuteTask(env, w, decls[i], key);
            && T.CacheInv(env, OccurringTurns(past, decls, ref), seen, w') && EndsAs(env, ref, decls[i], e)
            && w'.files == w.files + WritesIn(env, ref, decls[i])
  {
    hide RecordResult, CleanResultOf, KeyOf, T.CacheInv, OccurringTurns;
    var t, occ := decls[i], OccurringTurns(past, decls, ref);
    assert Behaved(env, t);
    var r := RunCommand(env, ref, t);
    var w2 := w.(files := w.files + r.writes);
    T.FilesKeepInv(env, occ, seen, w, w2.files);
    if r.ok {
      RecordFiles(env, w2, t, key);
      LeavesFixed(env, before, ref, t, w.files);
      SucceedsInPlace(env, before, ref, t);
      OwnTurn(past, decls, ref, i);
      T.RecordInv(env, occ, seen, w2, Turn(t, ref), key);
    }
  }

  lemma OwnTurn(past: iset<Turn>, decls: seq<TaskDecl>, ref: Files, i: nat)
    requires i < |decls|
    ensures Turn(decls[i], ref) in OccurringTurns(past, decls, ref)
  {}

  /** A record met under the reference key restores what the command writes in the reference. */
  lemma MeetsReference(env: Env, past: iset<Turn>, seen: iset<string>, decls: seq<TaskDecl>, ref: Files, w: World, i: nat, key: string)
    requires Assumed(env, past, seen, decls, ref) && i < |decls|
    requires T.CacheInv(env, OccurringTurns(past, decls, ref), seen, w)
    requires InputsExist(ref, decls[i]) && key == KeyOf(env, ref, decls[i]) && key in w.meta
    ensures var b := Turn(decls[i], ref);
            && Succeeds(env, b)
            && ExecuteTask(env, w, decls[i], key) ==
               (w.(files := w.files + RunCommand(env, ref, decls[i]).writes), Hit(key, CleanResultOf(env, After(env, b), decls[i])))
  {
    hide ParseRecord, CleanResultOf, KeyOf, RestoreAll, RecordOf;
    var occ := OccurringTurns(past, decls, ref);
    assert T.Explained(env, occ, w.objects, key, w.meta[key]);
    var a :| a in occ && T.WrittenBy(env, w.objects, key, w.meta[key], a);
    assert KeyLaw(env, a, Turn(decls[i], ref));
    T.HitMeans(env, w, a, decls[i], key);
  }

  /** Every turn of a run through all tasks, seen from the files it ends in. */
  lemma {:induction false} AllSettle(env: Env, past: iset<Turn>, seen: iset<string>, decls: seq<TaskDecl>, before: Files, ref: Files, w: World, qs: seq<nat>)
    requires Assumed(env, past, seen, decls, ref) && T.CacheInv(env, OccurringTurns(past, decls, ref), seen, w)
    requires (forall k :: 0 <= k < |qs| ==> qs[k] < |decls|) && W.NoOverwrites(Select(decls, qs))
    requires forall k :: 0 <= k < |qs| ==> Agree(w.files, before, decls[qs[k]].outputs)
    requires RunThrough(env, w, Select(decls, qs)).0.files == ref
    ensures var ends := RunThrough(env, w, Select(decls, qs)).1;
            forall k :: 0 <= k < |qs| ==> EndsAs(env, ref, decls[qs[k]], ends[k]) && Fixed(env, before, ref, decls[qs[k]])
    decreases |qs|
  {
    hide Assumed, T.CacheInv, OccurringTurns, EndsAs, Fixed, RunTask, Agree;
    if qs != [] {
      var ts := Select(decls, qs);
      var rest := Select(decls, qs[1..]);
      var t := decls[qs[0]];
      assert ts[0] == t && ts[1..] == rest;
      var (w1, e) := RunTask(env, w, t);
      FirstAgrees(env, past, seen, decls, before, ref, w, qs);
      TurnAtReference(env, past, seen, decls, before, ref, w, qs[0]);
      AllSettle(env, past, seen, decls, before, ref, w1, qs[1..]);
      forall k | 0 <= k < |qs|
        ensures EndsAs(env, ref, decls[qs[k]], RunThrough(env, w, ts).1[k]) && Fixed(env, before, ref, decls[qs[k]])
      {
        if k > 0 { assert qs[k] == qs[1..][k - 1]; }
      }
    }
  }

  lemma AllKeep(env: Env, past: iset<Turn>, seen: iset<string>, decls: seq<TaskDecl>, ref: Files, qs: seq<nat>)
    requires Assumed(env, past, seen, decls, ref) && forall k :: 0 <= k < |qs| ==> qs[k] < |decls|
    ensures forall t :: t in Select(decls, qs) ==> KeepsToOutputs(env, t)
  {
    forall t | t in Select(decls, qs)
      ensures KeepsToOutputs(env, t)
    {
      var k :| 0 <= k < |qs| && Select(decls, qs)[k] == t;
      assert Behaved(env, decls[qs[k]]);
    }
  }

  /** The first task's inputs and outputs are in the end as it found and left them, and the outputs of the
      others are as before when it is done. */
  lemma FirstAgrees(env: Env, past: iset<Turn>, seen: iset<string>, decls: seq<TaskDecl>, before: Files, ref: Files, w: World, qs: seq<nat>)
    requires Assumed(env, past, seen, decls, ref) && qs != []
    requires (forall k :: 0 <= k < |qs| ==> qs[k] < |decls|) && W.NoOverwrites(Select(decls, qs))
    requires forall k :: 0 <= k < |qs| ==> Agree(w.files, before, decls[qs[k]].outputs)
    requires RunThrough(env, w, Select(decls, qs)).0.files == ref
    ensures var (w1, e) := RunTask(env, w, decls[qs[0]]);
            && Agree(w.files, ref, decls[qs[0]].inputs) && Agree(w1.files, ref, decls[qs[0]].outputs)
            && forall k :: 1 <= k < |qs| ==> Agree(w1.files, before, decls[qs[k]].outputs)
  {
    hide Assumed, KeepsToOutputs, RunTask;
    var ts := Select(decls, qs);
    var rest := Select(decls, qs[1..]);
    var t := decls[qs[0]];
    assert ts[0] == t && ts[1..] == rest;
    var w1 := RunTask(env, w, t).0;
    AllKeep(env, past, seen, decls, ref, qs);
    AllKeep(env, past, seen, decls, ref, qs[1..]);
    RunTouches(env, w, ts);
    RunTouches(env, w1, rest);
    TaskTouches(env, w, t);
    forall k, o | 1 <= k < |qs| && o in decls[qs[k]].outputs
      ensures SameAt(w1.files, before, o)
    {
      assert rest[k - 1] == decls[qs[k]] && rest[k - 1] in rest && o in W.AllOutputs(rest);
      assert o !in OutputSet(t);
      assert SameAt(w.files, before, o);
    }
  }

  // ---- Orders ---------------------------------------------------------------------------------------

  lemma {:induction false} NoOverwritesByIndex(ts: seq<TaskDecl>)
    requires forall a, b, p :: 0 <= a <= b < |ts| && p in ts[a].inputs ==> p !in ts[b].outputs
    requires forall a, b, o :: 0 <= a < b < |ts| && o in ts[a].outputs ==> o !in ts[b].outputs
    ensures W.NoOverwrites(ts)
    decreases |ts|
  {
    if ts != [] {
      NoOverwritesByIndex(ts[1..]);
    }
  }

  /** In a topological order no task overwrites what an earlier one read or wrote. */
  lemma TopologicalNoOverwrites(g: Graph, decls: seq<TaskDecl>, order: seq<nat>)
    requires Layout(g, decls) && IsTopological(g, order)
    ensures W.NoOverwrites(Select(decls, order))
  {
    var ts := Select(decls, order);
    forall a, b, p | 0 <= a <= b < |ts| && p in ts[a].inputs
      ensures p !in ts[b].outputs
    {
      if p in ts[b].outputs {
        assert order[a] in order && order[b] in order;
        assert Ancestor(g, order[a], order[b]);
        AncestorEarlier(g, order, a, b);
        assert false;
      }
    }
    forall a, b, o | 0 <= a < b < |ts| && o in ts[a].outputs
      ensures o !in ts[b].outputs
    {
      assert order[a] in order && order[b] in order && order[a] != order[b];
    }
    NoOverwritesByIndex(ts);
  }

  lemma AncestorEarlier(g: Graph, order: seq<nat>, a: nat, b: nat)
    requires IsTopological(g, order) && a < |order| && b < |order| && Ancestor(g, order[a], order[b])
    ensures b < a
  {
    var p :| IsPath(g, p) && |p| > 1 && p[0] == order[a] && p[|p| - 1] == order[b];
    PathFallsInOrder(g, order, p, a, b);
  }

  lemma OutputsAreOutputs(decls: seq<TaskDecl>, order: seq<nat>, p: string)
    requires forall k :: 0 <= k < |order| ==> order[k] < |decls|
    ensures p in W.AllOutputs(Select(decls, order)) ==> IsOutput(decls, p)
  {}

  /** Past records stay explained when more turns count as occurring. */
  lemma MoreTurns(env: Env, past: iset<Turn>, occ: iset<Turn>, seen: iset<string>, w: World)
    requires T.CacheInv(env, past, seen, w) && past <= occ
    ensures T.CacheInv(env, occ, seen, w)
  {
    forall k | k in w.meta
      ensures T.Explained(env, occ, w.objects, k, w.meta[k])
    {
      assert T.Explained(env, past, w.objects, k, w.meta[k]);
    }
  }

  /** Tasks in an order with dependencies first, their inputs and outputs laid out. */
  ghost predicate Planned(g: Graph, decls: seq<TaskDecl>, order: seq<nat>) {
    g.Valid() && Layout(g, decls) && IsTopological(g, order)
  }

  lemma PlanPositions(g: Graph, decls: seq<TaskDecl>, order: seq<nat>)
    requires Planned(g, decls, order)
    ensures |order| == |decls| && (forall k :: 0 <= k < |order| ==> order[k] < |decls|) && forall t: nat :: t < |decls| ==> t in order
  {
    NoDupCard(order);
    assert Elements(order) == Nodes(g);
  }

  /** A plan of decls that the serial loop completes from w0. */
  ghost predicate SerialSuccess(env: Env, g: Graph, decls: seq<TaskDecl>, order: seq<nat>, w0: World) {
    Planned(g, decls, order) && AllSucceeded(SerialRun(env, w0, Select(decls, order)).1)
  }

  /** What the executor's tasks do on the files a run through all of them ends in. */
  function Outcomes(env: Env, decls: seq<TaskDecl>, ref: Files): (r: seq<S.Outcome>)
    ensures |r| == |decls|
  {
    seq(|decls|, t requires 0 <= t < |decls| => OutcomeIn(env, ref, decls[t]))
  }

  /** The files a run through all tasks ends in are a reference for the executor. */
  lemma ThroughReference(env: Env, past: iset<Turn>, seen: iset<string>, g: Graph, decls: seq<TaskDecl>, order: seq<nat>, w0: World)
    requires Planned(g, decls, order) && T.CacheInv(env, past, seen, w0)
    requires Assumed(env, past, seen, decls, RunThrough(env, w0, Select(decls, order)).0.files)
    ensures var (w1, ends) := RunThrough(env, w0, Select(decls, order));
            && Reference(env, decls, w0.files, w1.files)
            && (forall k :: 0 <= k < |order| ==> order[k] < |decls| && EndsAs(env, w1.files, decls[order[k]], ends[k]))
  {
    hide Assumed, T.CacheInv, EndsAs, Fixed, RunThrough, W.NoOverwrites, W.AllOutputs, KeepsToOutputs, Layout, IsTopological;
    PlanPositions(g, decls, order);
    var ts := Select(decls, order);
    var w1 := RunThrough(env, w0, ts).0;
    MoreTurns(env, past, OccurringTurns(past, decls, w1.files), seen, w0);
    TopologicalNoOverwrites(g, decls, order);
    AllSettle(env, past, seen, decls, w0.files, w1.files, w0, order);
    forall t: nat | t < |decls|
      ensures Fixed(env, w0.files, w1.files, decls[t])
    {
      assert t in order;
      var k :| 0 <= k < |order| && order[k] == t;
      assert Fixed(env, w0.files, w1.files, decls[order[k]]);
    }
    AllKeep(env, past, seen, decls, w1.files, order);
    RunTouches(env, w0, ts);
    forall p | !IsOutput(decls, p)
      ensures SameAt(w0.files, w1.files, p)
    {
      OutputsAreOutputs(decls, order, p);
    }
  }

  /** The scene of a joint run against the run through all tasks. */
  lemma ThroughScene(env: Env, past: iset<Turn>, seen: iset<string>, g: Graph, decls: seq<TaskDecl>, order: seq<nat>, w0: World, oc: seq<S.Outcome>)
    returns (sc: Scene)
    requires Planned(g, decls, order) && T.CacheInv(env, past, seen, w0) && |oc| == g.Size()
    requires Assumed(env, past, seen, decls, RunThrough(env, w0, Select(decls, order)).0.files)
    ensures var (w1, ends) := RunThrough(env, w0, Select(decls, order));
            && sc == Scene(env, past, seen, g, decls, oc, w0.files, w1.files) && sc.Valid()
            && T.CacheInv(env, sc.Occ(), seen, w0)
            && (forall k :: 0 <= k < |order| ==> order[k] < |decls| && EndsAs(env, w1.files, decls[order[k]], ends[k]))
  {
    hide Assumed, T.CacheInv, EndsAs, Reference, RunThrough, IsTopological;
    PlanPositions(g, decls, order);
    ThroughReference(env, past, seen, g, decls, order, w0);
    sc := Scene(env, past, seen, g, decls, oc, w0.files, RunThrough(env, w0, Select(decls, order)).0.files);
    MoreTurns(env, past, sc.Occ(), seen, w0);
  }

  /** With a cold cache it is enough that the tasks' keys differ. */
  lemma ColdAssumed(env: Env, seen: iset<string>, decls: seq<TaskDecl>, ref: Files)
    requires HashNames(env) && NoCollision(env, seen) && Within(ref, seen)
    requires forall t :: 0 <= t < |decls| ==> Behaved(env, decls[t])
    requires DistinctKeys(env, decls, ref)
    ensures Assumed(env, iset{}, seen, decls, ref)
  {
    forall a, t | a in OccurringTurns(iset{}, decls, ref) && 0 <= t < |decls|
      ensures KeyLaw(env, a, Turn(decls[t], ref))
    {
      var u: nat :| u < |decls| && a == Turn(decls[u], ref);
      if u == t {
        assert Behaved(env, decls[t]);
        T.OwnRecord(env, a);
      }
    }
  }

  ghost predicate DistinctKeys(env: Env, decls: seq<TaskDecl>, ref: Files) {
    forall t, u :: 0 <= t < u < |decls| && InputsExist(ref, decls[t]) && InputsExist(ref, decls[u]) ==>
      KeyOf(env, ref, decls[t]) != KeyOf(env, ref, decls[u])
  }

  // ---- Every schedule -------------------------------------------------------------------------------

  /** The control part of a joint run is a run of the protocol. */
  lemma ControlRun(env: Env, g: Graph, decls: seq<TaskDecl>, oc: seq<S.Outcome>, proto: S.Protocol, workers: nat, w0: World,
                   joints: seq<Joint>, labels: seq<S.Label>) returns (states: seq<S.State>)
    requires IsJointRun(env, g, decls, oc, proto, workers, w0, joints, labels)
    ensures S.IsRun(g, oc, proto, workers, states, labels)
    ensures forall k :: 0 <= k < |joints| ==> states[k] == joints[k].ctl
  {
    states := seq(|joints|, k requires 0 <= k < |joints| => joints[k].ctl);
    forall k | 0 <= k < |labels|
      ensures S.IsStep(g, oc, proto, states[k], labels[k], states[k + 1])
    {
      assert JointStep(env, g, decls, oc, proto, joints[k], labels[k], joints[k + 1]);
    }
  }

  /** A state in which every task has finished holds the reference files and ends. */
  lemma FinishedJoint(sc: Scene, j: Joint)
    requires JointInv(sc, j) && |sc.decls| == sc.g.Size()
    requires forall t: nat :: t < sc.g.Size() ==> t in j.ctl.finished
    ensures j.data.world.files == sc.ref
    ensures forall t: nat :: t < |sc.decls| ==> t in j.data.ends && EndOk(sc, t, j.data.ends[t])
  {
    var files := j.data.world.files;
    forall p: string
      ensures SameAt(files, sc.ref, p)
    {
      if IsOutput(sc.decls, p) {
        var t: nat :| t < |sc.decls| && p in sc.decls[t].outputs;
        assert t in j.ctl.finished;
        assert t in j.data.written;
      }
    }
    assert files.Keys == sc.ref.Keys by {
      forall p: string ensures p in files <==> p in sc.ref { assert SameAt(files, sc.ref, p); }
    }
    forall p | p in files ensures files[p] == sc.ref[p] { assert SameAt(files, sc.ref, p); }
  }

  /** When main has returned, every task has finished and the code is 1 exactly when some outcome is a failure. */
  lemma ReturnedControl(env: Env, g: Graph, decls: seq<TaskDecl>, oc: seq<S.Outcome>, proto: S.Protocol, workers: nat, w0: World,
                        joints: seq<Joint>, labels: seq<S.Label>)
    requires IsJointRun(env, g, decls, oc, proto, workers, w0, joints, labels) && workers > 0
    requires joints[|labels|].ctl.main.Returned?
    ensures forall t: nat :: t < g.Size() ==> t in joints[|labels|].ctl.finished
    ensures joints[|labels|].ctl.main.code == if exists t: nat :: t < g.Size() && !oc[t].Succeeds? then 1 else 0
  {
    var states := ControlRun(env, g, decls, oc, proto, workers, w0, joints, labels);
    ReturnedMeansDone(g, oc, proto, workers, states, labels, |labels|);
  }

  lemma FinishedRun(sc: Scene, proto: S.Protocol, workers: nat, w0: World, joints: seq<Joint>, labels: seq<S.Label>) returns (last: Joint)
    requires sc.Valid() && sc.before == w0.files && T.CacheInv(sc.env, sc.Occ(), sc.seen, w0) && workers > 0
    requires IsJointRun(sc.env, sc.g, sc.decls, sc.oc, proto, workers, w0, joints, labels)
    requires joints[|labels|].ctl.main.Returned?
    ensures last == joints[|labels|] && last.data.world.files == sc.ref
    ensures forall t: nat :: t < |sc.decls| ==> t in last.data.ends && EndOk(sc, t, last.data.ends[t])
    ensures last.ctl.main.code == if exists t: nat :: t < |sc.decls| && !OutcomeIn(sc.env, sc.ref, sc.decls[t]).Succeeds? then 1 else 0
  {
    hide JointInv, T.CacheInv, Assumed, Reference, EndsAs, OutcomeIn;
    last := joints[|labels|];
    JointRunInv(sc, proto, workers, w0, joints, labels, |labels|);
    ReturnedControl(sc.env, sc.g, sc.decls, sc.oc, proto, workers, w0, joints, labels);
    FinishedJoint(sc, last);
    forall t: nat | t < |sc.decls|
      ensures t < |sc.oc| && sc.oc[t] == OutcomeIn(sc.env, sc.ref, sc.decls[t])
    {
      assert EndOk(sc, t, last.data.ends[t]);
    }
    CodeOf(sc.env, sc.decls, sc.ref, sc.oc);
  }

  lemma CodeOf(env: Env, decls: seq<TaskDecl>, ref: Files, oc: seq<S.Outcome>)
    requires |oc| == |decls| && forall t: nat :: t < |decls| ==> oc[t] == OutcomeIn(env, ref, decls[t])
    ensures (exists t: nat :: t < |oc| && !oc[t].Succeeds?) <==> exists t: nat :: t < |decls| && !OutcomeIn(env, ref, decls[t]).Succeeds?
  {
    hide OutcomeIn;
    if t: nat :| t < |oc| && !oc[t].Succeeds? {
      assert !OutcomeIn(env, ref, decls[t]).Succeeds?;
    }
    if t: nat :| t < |decls| && !OutcomeIn(env, ref, decls[t]).Succeeds? {
      assert !oc[t].Succeeds?;
    }
  }

  /** Two ends of a task that differ at most in whether its command ran or a record was met. */
  predicate SameEnd(e: TaskEnd, e': TaskEnd) {
    Forget(e) == Forget(e') && (!e.Failure() ==> e.key == e'.key)
  }

  lemma SameEnds(env: Env, ref: Files, t: TaskDecl, e: TaskEnd, e': TaskEnd)
    requires EndsAs(env, ref, t, e) && EndsAs(env, ref, t, e')
    ensures SameEnd(e, e') && (e'.Failure() <==> !OutcomeIn(env, ref, t).Succeeds?)
  {
    hide KeyOf, CleanResultOf;
  }

  /** The executor left the files that the run through all tasks leaves, and ended each task as it does. */
  ghost predicate LeftAsThrough(env: Env, decls: seq<TaskDecl>, order: seq<nat>, w0: World, d: Data)
    requires forall k :: 0 <= k < |order| ==> order[k] < |decls|
  {
    var (w1, ends) := RunThrough(env, w0, Select(decls, order));
    && d.world.files == w1.files
    && (forall k :: 0 <= k < |order| ==> order[k] in d.ends && SameEnd(d.ends[order[k]], ends[k]))
  }

  /** Schedule independence, failures included: any run of the executor that returns, with any number of
      workers, whichever task is popped by whom and however the commands overlap, returns 1 exactly when
      some task of a run through all tasks in turn fails, leaves the files that run leaves, and gives each
      task the same failure or the same key and result hash. */
  lemma SameAsThrough(env: Env, past: iset<Turn>, seen: iset<string>, g: Graph, decls: seq<TaskDecl>, order: seq<nat>, w0: World,
                      oc: seq<S.Outcome>, proto: S.Protocol, workers: nat, joints: seq<Joint>, labels: seq<S.Label>)
    requires Planned(g, decls, order) && T.CacheInv(env, past, seen, w0)
    requires Assumed(env, past, seen, decls, RunThrough(env, w0, Select(decls, order)).0.files)
    requires IsJointRun(env, g, decls, oc, proto, workers, w0, joints, labels) && workers > 0
    requires joints[|labels|].ctl.main.Returned?
    ensures joints[|labels|].ctl.main.code == if AllSucceeded(RunThrough(env, w0, Select(decls, order)).1) then 0 else 1
    ensures LeftAsThrough(env, decls, order, w0, joints[|labels|].data)
  {
    hide Assumed, T.CacheInv, Layout, Reference, EndsAs, IsTopological, RunThrough, OutcomeIn, SameEnd, AllSucceeded;
    PlanPositions(g, decls, order);
    var sc := ThroughScene(env, past, seen, g, decls, order, w0, oc);
    var last := FinishedRun(sc, proto, workers, w0, joints, labels);
    var ends := RunThrough(env, w0, Select(decls, order)).1;
    forall k | 0 <= k < |order|
      ensures SameEnd(last.data.ends[order[k]], ends[k]) && (ends[k].Failure() <==> !OutcomeIn(env, sc.ref, decls[order[k]]).Succeeds?)
    {
      assert EndOk(sc, order[k], last.data.ends[order[k]]);
      SameEnds(env, sc.ref, decls[order[k]], last.data.ends[order[k]], ends[k]);
    }
    SomeFails(env, decls, order, sc.ref, ends);
  }

  lemma SomeFails(env: Env, decls: seq<TaskDecl>, order: seq<nat>, ref: Files, ends: seq<TaskEnd>)
    requires |ends| == |order| && (forall k :: 0 <= k < |order| ==> order[k] < |decls|) && forall t: nat :: t < |decls| ==> t in order
    requires forall k :: 0 <= k < |order| ==> (ends[k].Failure() <==> !OutcomeIn(env, ref, decls[order[k]]).Succeeds?)
    ensures AllSucceeded(ends) <==> !exists t: nat :: t < |decls| && !OutcomeIn(env, ref, decls[t]).Succeeds?
  {
    hide OutcomeIn;
    if t: nat :| t < |decls| && !OutcomeIn(env, ref, decls[t]).Succeeds? {
      assert t in order;
      var k :| 0 <= k < |order| && order[k] == t;
      assert ends[k] in ends;
    }
  }

  // ---- No schedule gets stuck -------------------------------------------------------------------------

  /** The protocol's outcomes are what the tasks do in the reference. */
  ghost predicate Faithful(sc: Scene) {
    |sc.oc| == |sc.decls| && forall t :: 0 <= t < |sc.decls| ==> sc.oc[t] == OutcomeIn(sc.env, sc.ref, sc.decls[t])
  }

  /** The label under which a worker on a task goes on, given the data. */
  function NextOnTask(env: Env, decl: TaskDecl, d: Data, x: S.Worker, w: nat): S.Label
    requires x.Hashed? ==> x.t in d.keys
    requires x.Running? ==> x.t in d.snaps
  {
    match x
    case Popped(_) => if InputsExist(d.world.files, decl) then S.HashOk(w) else S.HashFail(w)
    case Hashed(t) => if d.keys[t] in d.world.meta then S.CacheHit(w) else S.RunStart(w)
    case Running(t) => if RunCommand(env, d.snaps[t], decl).ok then S.RunOk(w) else S.RunFail(w)
    case _ => S.Record(w)
  }

  lemma TaskMoves(sc: Scene, j: Joint, w: nat) returns (l: S.Label, t: nat)
    requires Steady(sc, j) && Faithful(sc) && S.InRange(sc.g, sc.oc, j.ctl, w)
    requires j.ctl.workers[w].Popped? || j.ctl.workers[w].Hashed? || j.ctl.workers[w].Running? || j.ctl.workers[w].Ran?
    ensures S.Enabled(sc.g, sc.oc, j.ctl, l) && OnTask(l) && l.w == w && !l.Spurious?
    ensures t == j.ctl.workers[w].t && t < |sc.decls| && DataEnabled(sc.env, t, sc.decls[t], j.data, l)
  {
    hide KeyOf, HashTask, T.CacheInv, Scene.Occ, FilesOk, EndOk, S.Books, S.Owners, Scene.Valid;
    t := AtTask(sc, j, w);
    var decl, x := sc.decls[t], j.ctl.workers[w];
    l := NextOnTask(sc.env, decl, j.data, x, w);
    HashTaskMeans(sc.env, j.data.world, decl);
    if x.Hashed? && j.data.keys[t] in j.data.world.meta {
      HitRestores(sc, j.data.world, t, j.data.keys[t]);
    }
    if x.Running? { RunData(sc, j.data, t, j.data.snaps[t]); }
  }

  lemma ControlMoves(g: Graph, oc: seq<S.Outcome>, proto: S.Protocol, s: S.State) returns (l: S.Label)
    requires g.Valid() && Acyclic(g) && S.Inv(g, oc, proto, s) && !s.main.Returned? && (proto.Intended? || Benign(g, oc))
    ensures S.Enabled(g, oc, s, l) && !l.Spurious?
    ensures OnTask(l) ==> S.InRange(g, oc, s, l.w)
    ensures OnTask(l) ==>
              s.workers[l.w].Popped? || s.workers[l.w].Hashed? || s.workers[l.w].Running? || s.workers[l.w].Ran?
  {
    hide S.Books, S.Owners, S.Verdicts, S.Sleepers, Acyclic, Benign;
    AlwaysMoves(g, oc, proto, s);
    l :| S.Enabled(g, oc, s, l) && !l.Spurious?;
  }

  /** As long as main has not returned, some step other than a spurious wake-up is possible, whatever has
      failed. With RunBound, main returns. */
  lemma JointMoves(sc: Scene, proto: S.Protocol, j: Joint) returns (l: S.Label, j': Joint)
    requires Steady(sc, j) && S.Inv(sc.g, sc.oc, proto, j.ctl) && Acyclic(sc.g) && Faithful(sc)
    requires proto.Intended? || Benign(sc.g, sc.oc)
    requires !j.ctl.main.Returned?
    ensures JointStep(sc.env, sc.g, sc.decls, sc.oc, proto, j, l, j') && !l.Spurious?
  {
    l := ControlMoves(sc.g, sc.oc, proto, j.ctl);
    if OnTask(l) {
      var t;
      l, t := TaskMoves(sc, j, l.w);
      j' := Joint(S.Apply(sc.g, sc.oc, proto, j.ctl, l), DataApply(sc.env, t, sc.decls[t], j.data, l));
    } else {
      j' := Joint(S.Apply(sc.g, sc.oc, proto, j.ctl, l), j.data);
    }
  }

  /** Nothing but spurious wake-ups is possible any more. */
  ghost predicate Stopped(env: Env, g: Graph, decls: seq<TaskDecl>, oc: seq<S.Outcome>, proto: S.Protocol, j: Joint)
    requires g.Valid() && |decls| == g.Size()
  {
    forall l, j' :: JointStep(env, g, decls, oc, proto, j, l, j') ==> l.Spurious?
  }

  lemma StoppedHasReturned(sc: Scene, proto: S.Protocol, workers: nat, w0: World, joints: seq<Joint>, labels: seq<S.Label>)
    requires sc.Valid() && sc.before == w0.files && T.CacheInv(sc.env, sc.Occ(), sc.seen, w0) && Acyclic(sc.g) && Faithful(sc)
    requires IsJointRun(sc.env, sc.g, sc.decls, sc.oc, proto, workers, w0, joints, labels)
    requires proto.Intended? || Benign(sc.g, sc.oc)
    requires Stopped(sc.env, sc.g, sc.decls, sc.oc, proto, joints[|labels|])
    ensures joints[|labels|].ctl.main.Returned?
  {
    hide T.CacheInv, Assumed, Reference, Layout, Acyclic, Faithful, Benign;
    JointRunInv(sc, proto, workers, w0, joints, labels, |labels|);
    var last := joints[|labels|];
    if !last.ctl.main.Returned? {
      var l, j' := JointMoves(sc, proto, last);
    }
  }

  /** Every schedule, whatever fails: a run of the intended executor that has gone as far as it can, and by
      RunBound every run gets there, has returned, with the code, the files and the ends of the run through
      all tasks. So does the code as written where its outcomes are benign. */
  lemma EveryOutcome(env: Env, past: iset<Turn>, seen: iset<string>, g: Graph, decls: seq<TaskDecl>, order: seq<nat>, w0: World,
                     oc: seq<S.Outcome>, proto: S.Protocol, workers: nat, joints: seq<Joint>, labels: seq<S.Label>)
    requires Planned(g, decls, order) && T.CacheInv(env, past, seen, w0)
    requires var ref := RunThrough(env, w0, Select(decls, order)).0.files;
             Assumed(env, past, seen, decls, ref) && oc == Outcomes(env, decls, ref)
    requires IsJointRun(env, g, decls, oc, proto, workers, w0, joints, labels) && workers > 0
    requires proto.Intended? || Benign(g, oc)
    requires Stopped(env, g, decls, oc, proto, joints[|labels|])
    ensures joints[|labels|].ctl.main == S.Returned(if AllSucceeded(RunThrough(env, w0, Select(decls, order)).1) then 0 else 1)
    ensures LeftAsThrough(env, decls, order, w0, joints[|labels|].data)
  {
    OrderedIsAcyclic(g, order);
    hide Assumed, T.CacheInv, Layout, Reference, EndsAs, AllSucceeded, IsJointRun, Stopped, Acyclic, RunThrough, OutcomeIn, IsTopological, Benign;
    PlanPositions(g, decls, order);
    var sc := ThroughScene(env, past, seen, g, decls, order, w0, oc);
    StoppedHasReturned(sc, proto, workers, w0, joints, labels);
    SameAsThrough(env, past, seen, g, decls, order, w0, oc, proto, workers, joints, labels);
  }

  // ---- Where the serial loop succeeds -------------------------------------------------------------------

  /** The parallel run left what the serial run leaves: its files, and each task's key and result hash. */
  ghost predicate LeftAsSerial(env: Env, decls: seq<TaskDecl>, order: seq<nat>, w0: World, d: Data)
    requires forall k :: 0 <= k < |order| ==> order[k] < |decls|
  {
    var (serial, ends) := SerialRun(env, w0, Select(decls, order));
    && d.world.files == serial.files
    && |ends| == |order|
    && (forall k :: 0 <= k < |order| ==>
          && order[k] in d.ends && !d.ends[order[k]].Failure() && !ends[k].Failure()
          && d.ends[order[k]].key == ends[k].key && d.ends[order[k]].result == ends[k].result)
  }

  lemma ThroughIsSerial(env: Env, decls: seq<TaskDecl>, order: seq<nat>, w0: World, d: Data)
    requires forall k :: 0 <= k < |order| ==> order[k] < |decls|
    requires AllSucceeded(SerialRun(env, w0, Select(decls, order)).1) && LeftAsThrough(env, decls, order, w0, d)
    ensures LeftAsSerial(env, decls, order, w0, d)
  {
    hide SerialRun, RunThrough;
    SerialIsPrefix(env, w0, Select(decls, order));
    var ends := RunThrough(env, w0, Select(decls, order)).1;
    forall k | 0 <= k < |order|
      ensures !ends[k].Failure()
    {
      assert ends[k] in ends;
    }
  }

  /** Where the serial loop succeeds, any run of the executor that returns returns 0 and leaves the serial
      run's files, keys and result hashes. */
  lemma SameAsSerial(env: Env, past: iset<Turn>, seen: iset<string>, g: Graph, decls: seq<TaskDecl>, order: seq<nat>, w0: World,
                     oc: seq<S.Outcome>, proto: S.Protocol, workers: nat, joints: seq<Joint>, labels: seq<S.Label>)
    requires SerialSuccess(env, g, decls, order, w0) && T.CacheInv(env, past, seen, w0)
    requires Assumed(env, past, seen, decls, SerialRun(env, w0, Select(decls, order)).0.files)
    requires IsJointRun(env, g, decls, oc, proto, workers, w0, joints, labels) && workers > 0
    requires joints[|labels|].ctl.main.Returned?
    ensures joints[|labels|].ctl.main.code == 0
    ensures LeftAsSerial(env, decls, order, w0, joints[|labels|].data)
  {
    hide Assumed, T.CacheInv, Layout, RunThrough, SerialRun, IsTopological, LeftAsThrough, AllSucceeded, LeftAsSerial;
    PlanPositions(g, decls, order);
    SerialIsPrefix(env, w0, Select(decls, order));
    SameAsThrough(env, past, seen, g, decls, order, w0, oc, proto, workers, joints, labels);
    ThroughIsSerial(env, decls, order, w0, joints[|labels|].data);
  }

  lemma SuccessIsFaithful(env: Env, past: iset<Turn>, seen: iset<string>, g: Graph, decls: seq<TaskDecl>, order: seq<nat>, w0: World, oc: seq<S.Outcome>)
    requires SerialSuccess(env, g, decls, order, w0) && T.CacheInv(env, past, seen, w0)
    requires Assumed(env, past, seen, decls, SerialRun(env, w0, Select(decls, order)).0.files)
    requires |oc| == |decls| && forall t :: 0 <= t < |oc| ==> oc[t].Succeeds?
    ensures oc == Outcomes(env, decls, SerialRun(env, w0, Select(decls, order)).0.files) && Benign(g, oc)
  {
    hide Assumed, T.CacheInv, RunThrough, SerialRun, Reference, IsTopological, EndsAs, OutcomeIn;
    PlanPositions(g, decls, order);
    SerialIsPrefix(env, w0, Select(decls, order));
    ThroughReference(env, past, seen, g, decls, order, w0);
    var (w1, ends) := SerialRun(env, w0, Select(decls, order));
    forall t: nat | t < |decls|
      ensures OutcomeIn(env, w1.files, decls[t]).Succeeds?
    {
      assert t in order;
      var k :| 0 <= k < |order| && order[k] == t;
      assert ends[k] in ends;
      SameEnds(env, w1.files, decls[order[k]], ends[k], ends[k]);
    }
  }

  /** Every schedule: a run of the executor that has gone as far as it can has returned 0 with the files,
      keys and result hashes of the serial run. */
  lemma EverySchedule(env: Env, past: iset<Turn>, seen: iset<string>, g: Graph, decls: seq<TaskDecl>, order: seq<nat>, w0: World,
                      oc: seq<S.Outcome>, proto: S.Protocol, workers: nat, joints: seq<Joint>, labels: seq<S.Label>)
    requires SerialSuccess(env, g, decls, order, w0) && T.CacheInv(env, past, seen, w0)
    requires Assumed(env, past, seen, decls, SerialRun(env, w0, Select(decls, order)).0.files)
    requires IsJointRun(env, g, decls, oc, proto, workers, w0, joints, labels) && workers > 0
    requires forall t :: 0 <= t < |oc| ==> oc[t].Succeeds?
    requires Stopped(env, g, decls, oc, proto, joints[|labels|])
    ensures joints[|labels|].ctl.main == S.Returned(0)
    ensures LeftAsSerial(env, decls, order, w0, joints[|labels|].data)
  {
    hide Assumed, T.CacheInv, Layout, RunThrough, SerialRun, IsTopological, LeftAsThrough, AllSucceeded, LeftAsSerial, JointStep, Stopped, Outcomes, Benign;
    PlanPositions(g, decls, order);
    SerialIsPrefix(env, w0, Select(decls, order));
    SuccessIsFaithful(env, past, seen, g, decls, order, w0, oc);
    EveryOutcome(env, past, seen, g, decls, order, w0, oc, proto, workers, joints, labels);
    ThroughIsSerial(env, decls, order, w0, joints[|labels|].data);
  }

  lemma SuccessIsPlanned(env: Env, g: Graph, decls: seq<TaskDecl>, order: seq<nat>, w0: World)
    requires SerialSuccess(env, g, decls, order, w0)
    ensures Planned(g, decls, order)
  {}

  /** And from a cold cache: commands that are deterministic functions of their declared inputs and write
      their outputs, disjoint outputs, produced inputs that come from ancestors, distinct keys, and no
      collision among the contents of the files the serial run ends in. */
  lemma ColdSchedules(env: Env, g: Graph, decls: seq<TaskDecl>, order: seq<nat>, files: Files,
                      oc: seq<S.Outcome>, proto: S.Protocol, workers: nat, joints: seq<Joint>, labels: seq<S.Label>)
    requires SerialSuccess(env, g, decls, order, World(files, map[], map[])) && HashNames(env)
    requires forall t :: 0 <= t < |decls| ==> Behaved(env, decls[t])
    requires var ref := SerialRun(env, World(files, map[], map[]), Select(decls, order)).0.files;
             DistinctKeys(env, decls, ref) && NoCollision(env, iset c | c in ref.Values)
    requires IsJointRun(env, g, decls, oc, proto, workers, World(files, map[], map[]), joints, labels) && workers > 0
    requires forall t :: 0 <= t < |oc| ==> oc[t].Succeeds?
    requires Stopped(env, g, decls, oc, proto, joints[|labels|])
    ensures joints[|labels|].ctl.main == S.Returned(0)
    ensures LeftAsSerial(env, decls, order, World(files, map[], map[]), joints[|labels|].data)
  {
    hide SerialSuccess, HashNames, Behaved, DistinctKeys, NoCollision, Assumed, IsJointRun, Stopped, LeftAsSerial;
    var w0 := World(files, map[], map[]);
    SuccessIsPlanned(env, g, decls, order, w0);
    PlanPositions(g, decls, order);
    var ref := SerialRun(env, w0, Select(decls, order)).0.files;
    var seen := iset c | c in ref.Values;
    ColdAssumed(env, seen, decls, ref);
    T.NothingInv(env, iset{}, seen, w0);
    EverySchedule(env, iset{}, seen, g, decls, order, w0, oc, proto, workers, joints, labels);
  }

  /** The same from a cold cache whatever fails, for the intended executor. */
  lemma ColdOutcomes(env: Env, g: Graph, decls: seq<TaskDecl>, order: seq<nat>, files: Files,
                     oc: seq<S.Outcome>, workers: nat, joints: seq<Joint>, labels: seq<S.Label>)
    requires Planned(g, decls, order) && HashNames(env)
    requires forall t :: 0 <= t < |decls| ==> Behaved(env, decls[t])
    requires var ref := RunThrough(env, World(files, map[], map[]), Select(decls, order)).0.files;
             DistinctKeys(env, decls, ref) && NoCollision(env, iset c | c in ref.Values) && oc == Outcomes(env, decls, ref)
    requires IsJointRun(env, g, decls, oc, S.Intended, workers, World(files, map[], map[]), joints, labels) && workers > 0
    requires Stopped(env, g, decls, oc, S.Intended, joints[|labels|])
    ensures joints[|labels|].ctl.main ==
            S.Returned(if AllSucceeded(RunThrough(env, World(files, map[], map[]), Select(decls, order)).1) then 0 else 1)
    ensures LeftAsThrough(env, decls, order, World(files, map[], map[]), joints[|labels|].data)
  {
    hide HashNames, Behaved, DistinctKeys, NoCollision, Assumed, IsJointRun, Stopped, LeftAsThrough, RunThrough, Outcomes, Layout, IsTopological;
    PlanPositions(g, decls, order);
    var w0 := World(files, map[], map[]);
    var ref := RunThrough(env, w0, Select(decls, order)).0.files;
    var seen := iset c | c in ref.Values;
    ColdAssumed(env, seen, decls, ref);
    T.NothingInv(env, iset{}, seen, w0);
    EveryOutcome(env, iset{}, seen, g, decls, order, w0, oc, S.Intended, workers, joints, labels);
  }
}
