/** What the scheduler's invariant gives over whole runs: safety, absence of lost wake-ups,
    deadlock freedom, a bound on every run, and when a run completes. */
module SchedulerRuns {
  import opened Graphs
  import opened Scheduler

  // ---- Safety -----------------------------------------------------------------------------

  predicate Waiting(s: State, t: nat)
    requires t < |s.sh.pending|
  {
    s.sh.pending[t] > 0
  }

  /** A value counted as 1 when the condition holds. */
  function Bit(b: bool): nat { if b then 1 else 0 }

  lemma OutstandingBound(ds: seq<nat>, done: set<nat>)
    ensures 0 <= Outstanding(ds, done) <= |ds|
  {}

  /** In every reachable state each task is in exactly one place: waiting, queued (once), held (by
      one worker) or finished. */
  lemma OnePlace(g: Graph, oc: seq<Outcome>, proto: Protocol, workers: nat, states: seq<State>, labels: seq<Label>,
                 k: nat, t: nat)
    requires IsRun(g, oc, proto, workers, states, labels) && k <= |labels| && t < g.Size()
    ensures |states[k].sh.pending| == g.Size()
    ensures var s := states[k];
            Bit(Waiting(s, t)) + Bit(t in s.sh.ready) + Bit(HeldBy(s, t)) + Bit(t in s.finished) == 1
    ensures multiset(states[k].sh.ready)[t] <= 1
    ensures forall v, w :: 0 <= v < w < |states[k].workers| && states[k].workers[v].Busy() && states[k].workers[w].Busy() ==>
              states[k].workers[v].t != states[k].workers[w].t
    ensures states[k].sh.pending[t] == Outstanding(g.deps[t], states[k].released)
    ensures states[k].sh.remaining == g.Size() - |states[k].finished|
  {
    RunInv(g, oc, proto, workers, states, labels, k);
    var s := states[k];
    OutstandingBound(g.deps[t], s.released);
    if t in s.started && t !in s.finished { assert HeldBy(s, t); }
    NoDupMultiset(s.sh.ready, t);
  }

  lemma {:induction false} NoDupMultiset(q: seq<nat>, x: nat)
    requires NoDup(q)
    ensures multiset(q)[x] == if x in q then 1 else 0
  {
    if q != [] {
      assert q == [q[0]] + q[1..];
      NoDupMultiset(q[1..], x);
    }
  }

  /** `started` and `finished` only grow along a run. */
  lemma {:induction false} HistoryGrows(g: Graph, oc: seq<Outcome>, proto: Protocol, workers: nat,
                                        states: seq<State>, labels: seq<Label>, j: nat, k: nat)
    requires IsRun(g, oc, proto, workers, states, labels) && j <= k <= |labels|
    ensures states[j].started <= states[k].started
    ensures states[j].finished <= states[k].finished
  {
    if j < k {
      HistoryGrows(g, oc, proto, workers, states, labels, j, k - 1);
      assert IsStep(g, oc, proto, states[k - 1], labels[k - 1], states[k]);
    }
  }

  /** A task is popped only after all its in-subset dependencies have finished, and never twice. */
  lemma PopIsSafe(g: Graph, oc: seq<Outcome>, proto: Protocol, workers: nat, states: seq<State>, labels: seq<Label>,
                  k: nat, w: nat)
    requires IsRun(g, oc, proto, workers, states, labels) && k < |labels| && labels[k] == Pop(w)
    ensures states[k].sh.ready != []
    ensures var t := states[k].sh.ready[0];
            && t < g.Size()
            && (forall d :: d in g.deps[t] ==> d in states[k].finished)
            && (forall j, v :: 0 <= j < |labels| && labels[j] == Pop(v) && j != k ==>
                  states[j].sh.ready != [] && states[j].sh.ready[0] != t)
  {
    RunInv(g, oc, proto, workers, states, labels, k);
    assert IsStep(g, oc, proto, states[k], labels[k], states[k + 1]);
    var t := states[k].sh.ready[0];
    assert t in states[k].sh.ready;
    OutstandingZero(g.deps[t], states[k].released);
    forall j, v | 0 <= j < |labels| && labels[j] == Pop(v) && j != k
      ensures states[j].sh.ready != [] && states[j].sh.ready[0] != t
    {
      RunInv(g, oc, proto, workers, states, labels, j);
      assert IsStep(g, oc, proto, states[j], labels[j], states[j + 1]);
      var u := states[j].sh.ready[0];
      assert u in states[j].sh.ready;
      assert u in states[j + 1].started && t in states[k + 1].started;
      if j < k {
        HistoryGrows(g, oc, proto, workers, states, labels, j + 1, k);
        assert u in states[k].started;
      } else {
        HistoryGrows(g, oc, proto, workers, states, labels, k + 1, j);
        assert t in states[j].started;
      }
    }
  }

  /** No lost wake-up: while the mutex is free and there is a ready task, or nothing remains, no
      worker is asleep on the condition variable. */
  lemma NoLostWakeUp(g: Graph, oc: seq<Outcome>, proto: Protocol, workers: nat, states: seq<State>, labels: seq<Label>, k: nat)
    requires IsRun(g, oc, proto, workers, states, labels) && k <= |labels|
    requires states[k].MutexFree() && (states[k].sh.ready != [] || states[k].sh.remaining == 0)
    ensures forall w :: 0 <= w < |states[k].workers| ==> !states[k].workers[w].Asleep?
  {
    RunInv(g, oc, proto, workers, states, labels, k);
  }

  // ---- Deadlock freedom ---------------------------------------------------------------------

  /** No command fails, and a task whose inputs cannot be hashed has no dependents. */
  ghost predicate Benign(g: Graph, oc: seq<Outcome>)
    requires g.Valid() && |oc| == g.Size()
  {
    forall t :: 0 <= t < g.Size() ==>
      !oc[t].CommandFails? && (oc[t].HashFails? ==> g.dependents[t] == [])
  }

  lemma FreeMutex(g: Graph, oc: seq<Outcome>, proto: Protocol, s: State)
    requires g.Valid() && Inv(g, oc, proto, s)
    requires proto.Intended? || Benign(g, oc)
    ensures s.MutexFree()
  {}

  ghost predicate SomeBusy(s: State) {
    exists w :: 0 <= w < |s.workers| && s.workers[w].Busy()
  }

  /** While tasks remain on an acyclic subset, one is ready or one is being worked on. */
  lemma NoDeadlock(g: Graph, oc: seq<Outcome>, proto: Protocol, s: State)
    requires g.Valid() && Acyclic(g) && Inv(g, oc, proto, s)
    requires proto.Intended? || Benign(g, oc)
    requires s.sh.remaining > 0
    ensures s.sh.ready != [] || SomeBusy(s)
  {
    if s.sh.ready == [] && !SomeBusy(s) {
      var rest := Nodes(g) - s.finished;
      forall i | i in rest
        ensures DependsOn(g, i, rest)
      {
        assert i in s.started ==> HeldBy(s, i);
        assert Outstanding(g.deps[i], s.released) != 0;
        OutstandingZero(g.deps[i], s.released);
        var d :| d in g.deps[i] && d !in s.released;
        // a finished but unreleased d would be a failed hash, and d has a dependent
        assert multiset(g.deps[i])[d] > 0;
        assert multiset(g.dependents[d])[i] > 0;
        assert d !in s.finished;
        assert d in rest;
      }
      if rest == {} {
        SubsetCard(Nodes(g), s.finished);
        assert false;
      }
      StuckHasCycle(g, rest);
    }
  }

  // ---- Progress -------------------------------------------------------------------------------

  /** Some step other than a spurious wake-up is possible. */
  ghost predicate CanMove(g: Graph, oc: seq<Outcome>, s: State) {
    exists l: Label :: !l.Spurious? && Enabled(g, oc, s, l)
  }

  /** The next step of a worker that can act on its own. */
  function NextOf(oc: seq<Outcome>, s: State, w: nat): Label
    requires w < |s.workers|
    requires s.workers[w].Busy() ==> s.workers[w].t < |oc|
  {
    match s.workers[w]
    case Idle => if s.sh.ready != [] then Pop(w) else if s.sh.remaining > 0 then Sleep(w) else Leave(w)
    case Popped(t) => if oc[t].HashFails? then HashFail(w) else HashOk(w)
    case Hashed(t) => RunStart(w)
    case Running(t) => if oc[t].Succeeds? then RunOk(w) else RunFail(w)
    case Ran(t) => Record(w)
    case Done(t) => Complete(w)
    case HashFailed(t) => AbortHash(w)
    case _ => AbortExec(w)
  }

  lemma WorkerMoves(g: Graph, oc: seq<Outcome>, proto: Protocol, s: State, w: nat)
    requires g.Valid() && Inv(g, oc, proto, s) && s.MutexFree()
    requires w < |s.workers| && !s.workers[w].Asleep? && !s.workers[w].Exited?
    ensures CanMove(g, oc, s)
  {
    assert Fits(oc, proto, s.workers[w]);
    assert s.sh.remaining >= 0 by { SubsetCard(s.finished, Nodes(g)); }
    assert Enabled(g, oc, s, NextOf(oc, s, w));
  }

  /** Under the intended protocol, and under the literal one when outcomes are benign, every
      reachable state in which main has not returned allows a step. */
  lemma AlwaysMoves(g: Graph, oc: seq<Outcome>, proto: Protocol, s: State)
    requires g.Valid() && Acyclic(g) && Inv(g, oc, proto, s)
    requires proto.Intended? || Benign(g, oc)
    requires !s.main.Returned?
    ensures CanMove(g, oc, s)
  {
    FreeMutex(g, oc, proto, s);
    if s.main.Starting? {
      assert Enabled(g, oc, s, MainWake);
    } else if forall w :: 0 <= w < |s.workers| ==> s.workers[w].Exited? {
      assert Enabled(g, oc, s, MainReturn);
    } else {
      var w :| 0 <= w < |s.workers| && !s.workers[w].Exited?;
      if !s.workers[w].Asleep? {
        WorkerMoves(g, oc, proto, s, w);
      } else {
        // a sleeper: the queue is empty and tasks remain, so somebody holds one
        assert s.sh.remaining > 0 by { SubsetCard(s.finished, Nodes(g)); }
        NoDeadlock(g, oc, proto, s);
        var v :| 0 <= v < |s.workers| && s.workers[v].Busy();
        WorkerMoves(g, oc, proto, s, v);
      }
    }
  }

  // ---- Termination ------------------------------------------------------------------------------

  function Weight(x: Worker, n: nat): nat {
    match x
    case Idle => 1
    case Popped(_) => n + 6
    case Hashed(_) => n + 5
    case Running(_) => n + 4
    case Ran(_) => n + 3
    case Done(_) => n + 2
    case HashFailed(_) => n + 2
    case ExecFailed(_) => n + 2
    case _ => 0
  }

  function Weights(ws: seq<Worker>, n: nat): nat {
    if ws == [] then 0 else Weight(ws[0], n) + Weights(ws[1..], n)
  }

  function MainWeight(m: Main, n: nat): nat {
    match m
    case Starting => n + 2
    case Joining => 1
    case Returned(_) => 0
  }

  /** Tasks not yet started, stages left to the workers, and main. */
  function Measure(g: Graph, s: State): int {
    (g.Size() - |s.started|) * (|s.workers| + 6) + Weights(s.workers, |s.workers|) + MainWeight(s.main, |s.workers|)
  }

  lemma {:induction false} WeightsUpdate(ws: seq<Worker>, n: nat, w: nat, x: Worker)
    requires w < |ws|
    ensures Weights(ws[w := x], n) == Weights(ws, n) - Weight(ws[w], n) + Weight(x, n)
  {
    if w > 0 {
      WeightsUpdate(ws[1..], n, w - 1, x);
      assert ws[w := x][1..] == ws[1..][w - 1 := x];
    } else {
      assert ws[w := x][1..] == ws[1..];
    }
  }

  lemma {:induction false} WeightsWake(ws: seq<Worker>, n: nat)
    ensures Weights(Wake(ws), n) <= Weights(ws, n) + |ws|
  {
    if ws != [] {
      WeightsWake(ws[1..], n);
      assert Wake(ws)[1..] == Wake(ws[1..]);
    }
  }

  lemma {:induction false} WeightsInit(k: nat, n: nat, ws: seq<Worker>)
    requires |ws| == k && forall i :: 0 <= i < k ==> ws[i] == Idle
    ensures Weights(ws, n) == k
  {
    if k > 0 { WeightsInit(k - 1, n, ws[1..]); }
  }

  lemma StageDecreases(g: Graph, s: State, w: nat, x: Worker)
    requires w < |s.workers|
    ensures Measure(g, Stage(s, w, x)) ==
            Measure(g, s) - Weight(s.workers[w], |s.workers|) + Weight(x, |s.workers|)
  {
    WeightsUpdate(s.workers, |s.workers|, w, x);
  }

  lemma FinishDecreases(g: Graph, s: State, w: nat, fails: bool, release: bool)
    requires w < |s.workers| && s.workers[w].Busy()
    requires s.workers[w].t < |g.dependents|
    requires forall d :: d in g.dependents[s.workers[w].t] ==> d < |s.sh.pending|
    requires Weight(s.workers[w], |s.workers|) == |s.workers| + 2
    ensures Measure(g, Finish(g, s, w, fails, release)) < Measure(g, s)
  {
    var n := |s.workers|;
    WeightsUpdate(s.workers, n, w, Idle);
    WeightsWake(s.workers[w := Idle], n);
  }

  lemma PopDecreases(g: Graph, oc: seq<Outcome>, proto: Protocol, s: State, w: nat)
    requires g.Valid() && Enabled(g, oc, s, Pop(w))
    ensures Measure(g, Apply(g, oc, proto, s, Pop(w))) == Measure(g, s) - 1
  {
    var n := |s.workers|;
    var s' := Apply(g, oc, proto, s, Pop(w));
    WeightsUpdate(s.workers, n, w, s'.workers[w]);
    assert (g.Size() - |s'.started|) * (n + 6) == (g.Size() - |s.started|) * (n + 6) - (n + 6);
  }

  /** The steps a worker takes on its task between critical sections. */
  lemma StagesDecrease(g: Graph, oc: seq<Outcome>, proto: Protocol, s: State, l: Label)
    requires g.Valid() && Enabled(g, oc, s, l)
    requires l.HashOk? || l.HashFail? || l.CacheHit? || l.RunStart? || l.RunOk? || l.RunFail? || l.Record?
    ensures Measure(g, Apply(g, oc, proto, s, l)) < Measure(g, s)
  {
    hide Release, Weights;
    var t := s.workers[l.w].t;
    match l
    case HashOk(w) => StageDecreases(g, s, w, Hashed(t));
    case HashFail(w) => StageDecreases(g, s, w, HashFailed(t));
    case CacheHit(w) => StageDecreases(g, s, w, Done(t));
    case RunStart(w) => StageDecreases(g, s, w, Running(t));
    case RunOk(w) => StageDecreases(g, s, w, Ran(t));
    case RunFail(w) => StageDecreases(g, s, w, ExecFailed(t));
    case Record(w) => StageDecreases(g, s, w, Done(t));
  }

  /** Every step but a spurious wake-up lowers the measure; a spurious wake-up raises it by one. */
  lemma StepDecreases(g: Graph, oc: seq<Outcome>, proto: Protocol, s: State, l: Label)
    requires g.Valid() && Enabled(g, oc, s, l)
    ensures if l.Spurious? then Measure(g, Apply(g, oc, proto, s, l)) == Measure(g, s) + 1
            else Measure(g, Apply(g, oc, proto, s, l)) < Measure(g, s)
  {
    hide Release, Weights;
    var n := |s.workers|;
    match l
    case MainWake => WeightsWake(s.workers, n);
    case MainReturn =>
    case Complete(w) => FinishDecreases(g, s, w, false, true);
    case AbortHash(w) => FinishDecreases(g, s, w, true, proto.Intended?);
    case AbortExec(w) =>
      if proto.Intended? { FinishDecreases(g, s, w, true, true); }
      else { StageDecreases(g, s, w, SelfLocked(s.workers[w].t)); }
    case Pop(w) => PopDecreases(g, oc, proto, s, w);
    case Sleep(w) => StageDecreases(g, s, w, Asleep);
    case Leave(w) => StageDecreases(g, s, w, Exited);
    case Spurious(w) => StageDecreases(g, s, w, Idle);
    case _ => StagesDecrease(g, oc, proto, s, l);
  }

  function SpuriousCount(labels: seq<Label>): nat {
    if labels == [] then 0 else SpuriousCount(labels[..|labels| - 1]) + Bit(labels[|labels| - 1].Spurious?)
  }

  lemma FewStarted(n: nat, started: seq<nat>)
    requires NoDup(started) && forall t :: t in started ==> t < n
    ensures |started| <= n
  {
    NoDupCard(started);
    SubsetCard(Elements(started), UpTo(n));
  }

  lemma MeasureNonNegative(g: Graph, oc: seq<Outcome>, proto: Protocol, s: State)
    requires g.Valid() && Inv(g, oc, proto, s)
    ensures Measure(g, s) >= 0
  {
    FewStarted(g.Size(), s.started);
    MulNonNegative(g.Size() - |s.started|, |s.workers| + 6);
  }

  lemma MulNonNegative(a: nat, b: nat)
    ensures a * b >= 0
  {}

  lemma {:induction false} MeasureAlong(g: Graph, oc: seq<Outcome>, proto: Protocol, workers: nat,
                                        states: seq<State>, labels: seq<Label>, k: nat)
    requires IsRun(g, oc, proto, workers, states, labels) && k <= |labels|
    ensures Measure(g, states[k]) + k <= Measure(g, states[0]) + 2 * SpuriousCount(labels[..k])
  {
    if k > 0 {
      MeasureAlong(g, oc, proto, workers, states, labels, k - 1);
      RunInv(g, oc, proto, workers, states, labels, k - 1);
      assert IsStep(g, oc, proto, states[k - 1], labels[k - 1], states[k]);
      StepDecreases(g, oc, proto, states[k - 1], labels[k - 1]);
      assert labels[..k][..k - 1] == labels[..k - 1];
    }
  }

  lemma InitMeasure(g: Graph, workers: nat)
    ensures Measure(g, Init(g, workers)) == g.Size() * (workers + 6) + 2 * workers + 2
  {
    WeightsInit(workers, workers, Init(g, workers).workers);
  }

  /** Every run is finite: with n tasks and W workers it has at most n(W+6) + 2W + 2 steps, plus two
      for each spurious wake-up. */
  lemma RunBound(g: Graph, oc: seq<Outcome>, proto: Protocol, workers: nat, states: seq<State>, labels: seq<Label>)
    requires IsRun(g, oc, proto, workers, states, labels)
    ensures |labels| <= g.Size() * (workers + 6) + 2 * workers + 2 + 2 * SpuriousCount(labels)
  {
    var k := |labels|;
    MeasureAlong(g, oc, proto, workers, states, labels, k);
    RunInv(g, oc, proto, workers, states, labels, k);
    MeasureNonNegative(g, oc, proto, states[k]);
    InitMeasure(g, workers);
    assert labels[..k] == labels;
  }

  // ---- Completion ---------------------------------------------------------------------------------

  /** When main has returned, every task has finished, the queue is empty, all workers have exited,
      and the result is nonzero exactly when some task did not succeed. */
  lemma ReturnedMeansDone(g: Graph, oc: seq<Outcome>, proto: Protocol, workers: nat,
                          states: seq<State>, labels: seq<Label>, k: nat)
    requires IsRun(g, oc, proto, workers, states, labels) && k <= |labels| && workers > 0
    requires states[k].main.Returned?
    ensures states[k].finished == Nodes(g) && states[k].sh.remaining == 0 && states[k].sh.ready == []
    ensures states[k].main.code == (if exists t: nat :: t < g.Size() && !oc[t].Succeeds? then 1 else 0)
  {
    RunInv(g, oc, proto, workers, states, labels, k);
    var s := states[k];
    assert s.workers[0].Exited?;
    AllFinished(g, s);
    assert s.MutexFree();
    if t: nat :| t < g.Size() && !oc[t].Succeeds? {
      assert t in s.finished;
    }
  }

  /** The literal protocol returns from main only when the outcomes were benign. */
  lemma LiteralReturnsOnlyIfBenign(g: Graph, oc: seq<Outcome>, workers: nat, states: seq<State>, labels: seq<Label>, k: nat)
    requires IsRun(g, oc, Literal, workers, states, labels) && k <= |labels| && workers > 0
    requires states[k].main.Returned?
    ensures Benign(g, oc)
  {
    RunInv(g, oc, Literal, workers, states, labels, k);
    ReturnedMeansDone(g, oc, Literal, workers, states, labels, k);
    var s := states[k];
    forall t | 0 <= t < g.Size()
      ensures !oc[t].CommandFails? && (oc[t].HashFails? ==> g.dependents[t] == [])
    {
      assert t in s.finished;
      if oc[t].HashFails? && g.dependents[t] != [] {
        // a dependent still counts t, so it never became ready
        var i := g.dependents[t][0];
        assert i in g.dependents[t];
        assert multiset(g.dependents[t])[i] > 0;
        assert multiset(g.deps[i])[t] > 0;
        assert t in g.deps[i] && t !in s.released;
        OutstandingZero(g.deps[i], s.released);
        assert false;
      }
    }
  }

  /** A run that can go no further has completed exactly when the protocol is the intended one or
      no command failed and every task whose hashing failed is without dependents. */
  lemma CompletesIff(g: Graph, oc: seq<Outcome>, proto: Protocol, workers: nat, states: seq<State>, labels: seq<Label>)
    requires IsRun(g, oc, proto, workers, states, labels) && Acyclic(g) && workers > 0
    requires !CanMove(g, oc, states[|labels|])
    ensures states[|labels|].main.Returned? <==> proto.Intended? || Benign(g, oc)
  {
    var s := states[|labels|];
    RunInv(g, oc, proto, workers, states, labels, |labels|);
    if s.main.Returned? {
      if proto.Literal? { LiteralReturnsOnlyIfBenign(g, oc, workers, states, labels, |labels|); }
    } else if proto.Intended? || Benign(g, oc) {
      AlwaysMoves(g, oc, proto, s);
    }
  }

  // ---- The literal protocol can hang ------------------------------------------------------------

  const LONE_TASK: Graph := Graph([[]], [[]])

  function Lone(x: Worker, main: Main, ready: seq<nat>, failed: bool): State {
    State(Shared([0], ready, 1, failed), [x], main, if ready == [] then [0] else [], {}, {})
  }

  /** One task, one worker, a failing command: the worker ends up blocked on the mutex it owns, and
      no step is possible any more while main still waits to join. */
  lemma LiteralCanHang() returns (states: seq<State>, labels: seq<Label>)
    ensures Acyclic(LONE_TASK)
    ensures IsRun(LONE_TASK, [CommandFails], Literal, 1, states, labels) && SpuriousCount(labels) == 0
    ensures var last := states[|labels|];
            last.main.Joining? && last.sh.failed && !CanMove(LONE_TASK, [CommandFails], last)
  {
    hide Lone, Init, IsStep, CanMove, Acyclic, SpuriousCount;
    labels := [MainWake, Pop(0), HashOk(0), RunStart(0), RunFail(0), AbortExec(0)];
    states := [Lone(Idle, Starting, [0], false), Lone(Idle, Joining, [0], false),
               Lone(Popped(0), Joining, [], false), Lone(Hashed(0), Joining, [], false),
               Lone(Running(0), Joining, [], false), Lone(ExecFailed(0), Joining, [], false),
               Lone(SelfLocked(0), Joining, [], true)];
    LoneStart();
    LoneAcyclic();
    LoneSteps(states, labels);
    LoneHangs(states[6]);
    NoSpurious(labels);
  }

  lemma LoneStart()
    ensures LONE_TASK.Size() == 1
    ensures Init(LONE_TASK, 1) == Lone(Idle, Starting, [0], false)
  {
    assert Roots(LONE_TASK, 0) == [];
    assert Roots(LONE_TASK, 1) == [0];
  }

  lemma LoneAcyclic()
    ensures Acyclic(LONE_TASK)
  {
    hide Acyclic;
    assert Ordered(LONE_TASK, [0]);
    OrderedIsAcyclic(LONE_TASK, [0]);
  }

  lemma LoneHangs(s: State)
    requires s == Lone(SelfLocked(0), Joining, [], true)
    ensures s.main.Joining? && s.sh.failed && !CanMove(LONE_TASK, [CommandFails], s)
  {
    assert s.workers[0] == SelfLocked(0);
  }

  lemma {:induction false} NoSpurious(labels: seq<Label>)
    requires forall k :: 0 <= k < |labels| ==> !labels[k].Spurious?
    ensures SpuriousCount(labels) == 0
  {
    if labels != [] { NoSpurious(labels[..|labels| - 1]); }
  }

  lemma LoneSteps(states: seq<State>, labels: seq<Label>)
    requires labels == [MainWake, Pop(0), HashOk(0), RunStart(0), RunFail(0), AbortExec(0)]
    requires states == [Lone(Idle, Starting, [0], false), Lone(Idle, Joining, [0], false),
                        Lone(Popped(0), Joining, [], false), Lone(Hashed(0), Joining, [], false),
                        Lone(Running(0), Joining, [], false), Lone(ExecFailed(0), Joining, [], false),
                        Lone(SelfLocked(0), Joining, [], true)]
    ensures LONE_TASK.Valid()
    ensures forall k :: 0 <= k < 6 ==> IsStep(LONE_TASK, [CommandFails], Literal, states[k], labels[k], states[k + 1])
  {
    hide IsStep;
    LoneFirst();
    LoneLast();
  }

  lemma LoneFirst()
    ensures LONE_TASK.Valid()
    ensures IsStep(LONE_TASK, [CommandFails], Literal, Lone(Idle, Starting, [0], false), MainWake,
                   Lone(Idle, Joining, [0], false))
    ensures IsStep(LONE_TASK, [CommandFails], Literal, Lone(Idle, Joining, [0], false), Pop(0),
                   Lone(Popped(0), Joining, [], false))
  {
    assert Wake([Idle]) == [Idle];
  }

  lemma LoneLast()
    ensures LONE_TASK.Valid()
    ensures IsStep(LONE_TASK, [CommandFails], Literal, Lone(Popped(0), Joining, [], false), HashOk(0),
                   Lone(Hashed(0), Joining, [], false))
    ensures IsStep(LONE_TASK, [CommandFails], Literal, Lone(Hashed(0), Joining, [], false), RunStart(0),
                   Lone(Running(0), Joining, [], false))
    ensures IsStep(LONE_TASK, [CommandFails], Literal, Lone(Running(0), Joining, [], false), RunFail(0),
                   Lone(ExecFailed(0), Joining, [], false))
    ensures IsStep(LONE_TASK, [CommandFails], Literal, Lone(ExecFailed(0), Joining, [], false), AbortExec(0),
                   Lone(SelfLocked(0), Joining, [], true))
  {}
}
