/** The parallel executor's protocol: workers around one mutex, one condition variable, a ready
    queue, dependency counters, `remaining` and `failed`. One step per critical section and one
    per stage a worker passes through while it holds a task outside the mutex. */
module Scheduler {
  import opened Graphs

  /** What processing a task leads to: a usable result (run or cache hit), a failure to hash its
      inputs, or a failed execute_task. */
  datatype Outcome = Succeeds | HashFails | CommandFails

  /** Literal is the code as written. Intended takes the mutex once after a failed execution and
      releases the dependents of failed tasks too. */
  datatype Protocol = Literal | Intended

  datatype Shared = Shared(pending: seq<int>, ready: seq<nat>, remaining: int, failed: bool)

  datatype Worker =
    | Idle            // about to lock the mutex at the top of the loop, or re-checking after a wake-up
    | Asleep          // in pthread_cond_wait
    | Exited
    | Popped(t: nat)
    | Hashed(t: nat)
    | Running(t: nat)
    | Ran(t: nat)     // command finished, result not yet recorded
    | Done(t: nat)    // execute_task returned 0
    | HashFailed(t: nat)
    | ExecFailed(t: nat)
    | SelfLocked(t: nat) // owns the mutex and is blocked locking it a second time
  {
    predicate Busy() { !Idle? && !Asleep? && !Exited? }
  }

  datatype Main = Starting | Joining | Returned(code: int)

  /** `started`, `finished` and `released` record the history: tasks in pop order, tasks counted
      off `remaining`, and tasks whose dependents were decremented. */
  datatype State = State(sh: Shared, workers: seq<Worker>, main: Main,
                         started: seq<nat>, finished: set<nat>, released: set<nat>)
  {
    /** Between steps the mutex is owned only by a worker blocked on itself. */
    ghost predicate MutexFree() {
      forall w :: 0 <= w < |workers| ==> !workers[w].SelfLocked?
    }
  }

  datatype Label =
    | Sleep(w: nat) | Leave(w: nat) | Pop(w: nat)
    | HashOk(w: nat) | HashFail(w: nat) | CacheHit(w: nat)
    | RunStart(w: nat) | RunOk(w: nat) | RunFail(w: nat) | Record(w: nat)
    | Complete(w: nat) | AbortHash(w: nat) | AbortExec(w: nat)
    | Spurious(w: nat) | MainWake | MainReturn

  // ---- Initial state ------------------------------------------------------------------

  /** The tasks among the first k without in-subset dependencies, in subset order. */
  function Roots(g: Graph, k: nat): (r: seq<nat>)
    requires k <= g.Size()
    ensures NoDup(r)
    ensures forall i: nat :: i in r <==> i < k && g.deps[i] == []
  {
    if k == 0 then []
    else if g.deps[k - 1] == [] then Roots(g, k - 1) + [k - 1]
    else Roots(g, k - 1)
  }

  function Init(g: Graph, workers: nat): State {
    State(Shared(seq(g.Size(), (i: int) requires 0 <= i < g.Size() => |g.deps[i]|), Roots(g, g.Size()), g.Size(), false),
          seq(workers, (i: int) => Idle), Starting, [], {}, {})
  }

  // ---- Steps --------------------------------------------------------------------------

  function WakeOne(w: Worker): Worker { if w.Asleep? then Idle else w }

  /** pthread_cond_broadcast: every sleeper goes back to re-test its loop condition. */
  function Wake(workers: seq<Worker>): (r: seq<Worker>)
    ensures |r| == |workers|
    ensures forall i :: 0 <= i < |r| ==> r[i] == WakeOne(workers[i])
  {
    seq(|workers|, i requires 0 <= i < |workers| => WakeOne(workers[i]))
  }

  /** Counting task t off: `remaining--`, optionally the release of its dependents, broadcast. */
  function Finish(g: Graph, s: State, w: nat, fails: bool, release: bool): State
    requires w < |s.workers| && s.workers[w].Busy()
    requires s.workers[w].t < |g.dependents|
    requires forall d :: d in g.dependents[s.workers[w].t] ==> d < |s.sh.pending|
  {
    var t := s.workers[w].t;
    var (p, q) := if release then Release(s.sh.pending, s.sh.ready, g.dependents[t]) else (s.sh.pending, s.sh.ready);
    State(Shared(p, q, s.sh.remaining - 1, s.sh.failed || fails), Wake(s.workers[w := Idle]), s.main,
          s.started, s.finished + {t}, if release then s.released + {t} else s.released)
  }

  function Stage(s: State, w: nat, x: Worker): State
    requires w < |s.workers|
  {
    s.(workers := s.workers[w := x])
  }

  /** A worker's task is one of the subset and the counters cover the subset. */
  ghost predicate InRange(g: Graph, oc: seq<Outcome>, s: State, w: nat) {
    && w < |s.workers|
    && |s.sh.pending| == g.Size() == |oc|
    && (s.workers[w].Busy() ==> s.workers[w].t < g.Size())
  }

  ghost predicate Enabled(g: Graph, oc: seq<Outcome>, s: State, l: Label) {
    match l
    case MainWake => s.main.Starting? && s.MutexFree()
    case MainReturn => s.main.Joining? && forall w :: 0 <= w < |s.workers| ==> s.workers[w].Exited?
    case Sleep(w) => InRange(g, oc, s, w) && s.MutexFree() && s.workers[w].Idle? && s.sh.ready == [] && s.sh.remaining > 0
    case Leave(w) => InRange(g, oc, s, w) && s.MutexFree() && s.workers[w].Idle? && s.sh.ready == [] && s.sh.remaining == 0
    case Pop(w) => InRange(g, oc, s, w) && s.MutexFree() && s.workers[w].Idle? && s.sh.ready != []
    case HashOk(w) => InRange(g, oc, s, w) && s.workers[w].Popped? && !oc[s.workers[w].t].HashFails?
    case HashFail(w) => InRange(g, oc, s, w) && s.workers[w].Popped? && oc[s.workers[w].t].HashFails?
    case CacheHit(w) => InRange(g, oc, s, w) && s.workers[w].Hashed? && oc[s.workers[w].t].Succeeds?
    case RunStart(w) => InRange(g, oc, s, w) && s.workers[w].Hashed?
    case RunOk(w) => InRange(g, oc, s, w) && s.workers[w].Running? && oc[s.workers[w].t].Succeeds?
    case RunFail(w) => InRange(g, oc, s, w) && s.workers[w].Running? && oc[s.workers[w].t].CommandFails?
    case Record(w) => InRange(g, oc, s, w) && s.workers[w].Ran?
    case Complete(w) => InRange(g, oc, s, w) && s.MutexFree() && s.workers[w].Done?
    case AbortHash(w) => InRange(g, oc, s, w) && s.MutexFree() && s.workers[w].HashFailed?
    case AbortExec(w) => InRange(g, oc, s, w) && s.MutexFree() && s.workers[w].ExecFailed?
    case Spurious(w) => InRange(g, oc, s, w) && s.workers[w].Asleep?
  }

  function Apply(g: Graph, oc: seq<Outcome>, proto: Protocol, s: State, l: Label): State
    requires g.Valid() && Enabled(g, oc, s, l)
  {
    match l
    case MainWake => s.(main := Joining, workers := Wake(s.workers))
    case MainReturn => s.(main := Returned(if s.sh.failed then 1 else 0))
    case Sleep(w) => Stage(s, w, Asleep)
    case Leave(w) => Stage(s, w, Exited)
    case Pop(w) =>
      var t := s.sh.ready[0];
      s.(sh := s.sh.(ready := s.sh.ready[1..]), workers := s.workers[w := Popped(t)], started := s.started + [t])
    case HashOk(w) => Stage(s, w, Hashed(s.workers[w].t))
    case HashFail(w) => Stage(s, w, HashFailed(s.workers[w].t))
    case CacheHit(w) => Stage(s, w, Done(s.workers[w].t))
    case RunStart(w) => Stage(s, w, Running(s.workers[w].t))
    case RunOk(w) => Stage(s, w, Ran(s.workers[w].t))
    case RunFail(w) => Stage(s, w, ExecFailed(s.workers[w].t))
    case Record(w) => Stage(s, w, Done(s.workers[w].t))
    case Complete(w) => Finish(g, s, w, false, true)
    case AbortHash(w) => Finish(g, s, w, true, proto.Intended?)
    case AbortExec(w) =>
      if proto.Intended? then Finish(g, s, w, true, true)
      else s.(sh := s.sh.(failed := true), workers := s.workers[w := SelfLocked(s.workers[w].t)])
    case Spurious(w) => Stage(s, w, Idle)
  }

  ghost predicate IsStep(g: Graph, oc: seq<Outcome>, proto: Protocol, s: State, l: Label, s': State)
    requires g.Valid()
  {
    Enabled(g, oc, s, l) && s' == Apply(g, oc, proto, s, l)
  }

  /** states[k+1] comes from states[k] by labels[k], starting from the initial state. */
  ghost predicate IsRun(g: Graph, oc: seq<Outcome>, proto: Protocol, workers: nat, states: seq<State>, labels: seq<Label>) {
    && g.Valid() && |oc| == g.Size()
    && |states| == |labels| + 1
    && states[0] == Init(g, workers)
    && (forall k :: 0 <= k < |labels| ==> IsStep(g, oc, proto, states[k], labels[k], states[k + 1]))
  }

  // ---- The inductive invariant -----------------------------------------------------------

  /** Counters, queue and history agree with one another. */
  ghost predicate Books(g: Graph, s: State) {
    && |s.sh.pending| == g.Size()
    && (forall i :: 0 <= i < g.Size() ==> s.sh.pending[i] == Outstanding(g.deps[i], s.released))
    && NoDup(s.sh.ready) && NoDup(s.started)
    && (forall t :: t in s.sh.ready ==> t !in s.started)
    && (forall t: nat :: t in s.sh.ready || t in s.started <==> t < g.Size() && Outstanding(g.deps[t], s.released) == 0)
    && (forall t :: t in s.finished ==> t in s.started)
    && s.released <= s.finished
    && s.sh.remaining == g.Size() - |s.finished|
  }

  ghost predicate HeldBy(s: State, t: nat) {
    exists w :: 0 <= w < |s.workers| && s.workers[w].Busy() && s.workers[w].t == t
  }

  /** The started, unfinished tasks are exactly those held, each by one worker. */
  ghost predicate Owners(s: State) {
    && (forall w :: 0 <= w < |s.workers| && s.workers[w].Busy() ==>
          s.workers[w].t in s.started && s.workers[w].t !in s.finished)
    && (forall v, w :: 0 <= v < w < |s.workers| && s.workers[v].Busy() && s.workers[w].Busy() ==>
          s.workers[v].t != s.workers[w].t)
    && (forall t {:trigger HeldBy(s, t)} :: t in s.started && t !in s.finished ==> HeldBy(s, t))
  }

  /** The stage a worker is in fits the outcome of its task. */
  predicate Fits(oc: seq<Outcome>, proto: Protocol, x: Worker) {
    x.Busy() ==>
      && x.t < |oc|
      && match x
         case HashFailed(t) => oc[t].HashFails?
         case Hashed(t) => !oc[t].HashFails?
         case Running(t) => !oc[t].HashFails?
         case Ran(t) => oc[t].Succeeds?
         case Done(t) => oc[t].Succeeds?
         case ExecFailed(t) => oc[t].CommandFails?
         case SelfLocked(t) => oc[t].CommandFails? && proto.Literal?
         case _ => true
  }

  /** `failed`, the history and the stages report outcomes truthfully. */
  ghost predicate Verdicts(oc: seq<Outcome>, proto: Protocol, s: State) {
    && (forall w :: 0 <= w < |s.workers| ==> Fits(oc, proto, s.workers[w]))
    && (forall t :: t in s.finished ==> t < |oc| && (proto.Literal? ==> !oc[t].CommandFails?))
    && (forall t :: t in s.finished ==> (t in s.released <==> proto.Intended? || oc[t].Succeeds?))
    && (s.sh.failed <==> !s.MutexFree() || exists t :: t in s.finished && !oc[t].Succeeds?)
  }

  /** No lost wake-up, no early exit, and what main may conclude. */
  ghost predicate Sleepers(s: State) {
    && (s.MutexFree() && (s.sh.ready != [] || s.sh.remaining == 0) ==>
          forall w :: 0 <= w < |s.workers| ==> !s.workers[w].Asleep?)
    && (forall w :: 0 <= w < |s.workers| && s.workers[w].Exited? ==> s.sh.remaining == 0 && s.sh.ready == [])
    && (s.main.Returned? ==>
          && (forall w :: 0 <= w < |s.workers| ==> s.workers[w].Exited?)
          && s.main.code == if s.sh.failed then 1 else 0)
  }

  ghost predicate Inv(g: Graph, oc: seq<Outcome>, proto: Protocol, s: State) {
    && |oc| == g.Size()
    && Books(g, s) && Owners(s) && Verdicts(oc, proto, s) && Sleepers(s)
  }

  lemma InitInv(g: Graph, oc: seq<Outcome>, proto: Protocol, workers: nat)
    requires g.Valid() && |oc| == g.Size()
    ensures Inv(g, oc, proto, Init(g, workers))
  {
    var s := Init(g, workers);
    forall i | 0 <= i < g.Size()
      ensures s.sh.pending[i] == Outstanding(g.deps[i], {})
    {
      OutstandingNone(g.deps[i]);
    }
  }

  /** Tasks held before are held after when their holders keep them. */
  lemma KeepHeld(s: State, s': State, ts: set<nat>)
    requires |s'.workers| == |s.workers|
    requires forall w :: 0 <= w < |s.workers| && s.workers[w].Busy() && s.workers[w].t in ts ==>
               s'.workers[w].Busy() && s'.workers[w].t == s.workers[w].t
    requires forall t {:trigger HeldBy(s, t)} :: t in ts ==> HeldBy(s, t)
    ensures forall t {:trigger HeldBy(s', t)} :: t in ts ==> HeldBy(s', t)
  {
    forall t | t in ts
      ensures HeldBy(s', t)
    {
      assert HeldBy(s, t);
      var v :| 0 <= v < |s.workers| && s.workers[v].Busy() && s.workers[v].t == t;
      assert s'.workers[v].Busy() && s'.workers[v].t == t;
    }
  }

  lemma SameMutex(s: State, s': State)
    requires |s'.workers| == |s.workers|
    requires forall w :: 0 <= w < |s.workers| ==> (s'.workers[w].SelfLocked? <==> s.workers[w].SelfLocked?)
    ensures s'.MutexFree() <==> s.MutexFree()
  {}

  lemma SameBooks(g: Graph, s: State, s': State)
    requires Books(g, s) && s'.sh.pending == s.sh.pending && s'.sh.ready == s.sh.ready && s'.sh.remaining == s.sh.remaining
    requires s'.started == s.started && s'.finished == s.finished && s'.released == s.released
    ensures Books(g, s')
  {}

  lemma SameHolders(s: State, s': State)
    requires Owners(s) && |s'.workers| == |s.workers| && s'.started == s.started && s'.finished == s.finished
    requires forall w :: 0 <= w < |s.workers| && s'.workers[w].Busy() ==> s.workers[w].Busy()
    requires forall w :: 0 <= w < |s.workers| && s.workers[w].Busy() ==>
               s'.workers[w].Busy() && s'.workers[w].t == s.workers[w].t
    ensures Owners(s')
  {
    KeepHeld(s, s', Elements(s.started) - s.finished);
  }

  /** Moving one worker between stages of the same task. */
  lemma StageInv(g: Graph, oc: seq<Outcome>, proto: Protocol, s: State, w: nat, x: Worker)
    requires Inv(g, oc, proto, s)
    requires w < |s.workers| && s.workers[w].Busy() && !s.workers[w].SelfLocked?
    requires x.Busy() && !x.SelfLocked? && x.t == s.workers[w].t && Fits(oc, proto, x)
    ensures Inv(g, oc, proto, Stage(s, w, x))
  {
    hide Books, Owners;
    var s' := Stage(s, w, x);
    SameMutex(s, s');
    SameBooks(g, s, s');
    SameHolders(s, s');
  }

  /** Falling asleep, waking, leaving: the worker holds no task before or after. */
  lemma UnheldInv(g: Graph, oc: seq<Outcome>, proto: Protocol, s: State, l: Label)
    requires g.Valid() && Inv(g, oc, proto, s) && Enabled(g, oc, s, l)
    requires l.Sleep? || l.Leave? || l.Spurious?
    ensures Inv(g, oc, proto, Apply(g, oc, proto, s, l))
  {
    hide Books, Owners, Graph.Valid, Finish;
    var s' := Apply(g, oc, proto, s, l);
    SameMutex(s, s');
    SameBooks(g, s, s');
    SameHolders(s, s');
  }

  lemma MainInv(g: Graph, oc: seq<Outcome>, proto: Protocol, s: State, l: Label)
    requires g.Valid() && Inv(g, oc, proto, s) && Enabled(g, oc, s, l)
    requires l.MainWake? || l.MainReturn?
    ensures Inv(g, oc, proto, Apply(g, oc, proto, s, l))
  {
    hide Books, Owners, Graph.Valid, Finish;
    var s' := Apply(g, oc, proto, s, l);
    SameMutex(s, s');
    SameBooks(g, s, s');
    SameHolders(s, s');
  }

  lemma PopInv(g: Graph, oc: seq<Outcome>, proto: Protocol, s: State, w: nat)
    requires g.Valid() && Inv(g, oc, proto, s) && Enabled(g, oc, s, Pop(w))
    ensures Inv(g, oc, proto, Apply(g, oc, proto, s, Pop(w)))
  {
    PopBooks(g, oc, proto, s, w);
    hide Books, Graph.Valid, Finish;
    var s' := Apply(g, oc, proto, s, Pop(w));
    assert s'.MutexFree();
    assert s'.workers[w] == Popped(s.sh.ready[0]);
    KeepHeld(s, s', Elements(s.started) - s.finished);
  }

  lemma PopBooks(g: Graph, oc: seq<Outcome>, proto: Protocol, s: State, w: nat)
    requires g.Valid() && Books(g, s) && Enabled(g, oc, s, Pop(w))
    ensures Books(g, Apply(g, oc, proto, s, Pop(w)))
    ensures s.sh.ready[0] !in s.started && s.sh.ready[0] !in s.finished && s.sh.ready[0] < g.Size()
  {
    hide Graph.Valid, Finish;
    assert s.sh.ready == [s.sh.ready[0]] + s.sh.ready[1..];
    assert s.sh.ready[0] in s.sh.ready;
  }

  /** The literal self-lock after a failed execution. */
  lemma SelfLockInv(g: Graph, oc: seq<Outcome>, s: State, w: nat)
    requires g.Valid() && Inv(g, oc, Literal, s) && Enabled(g, oc, s, AbortExec(w))
    ensures Inv(g, oc, Literal, Apply(g, oc, Literal, s, AbortExec(w)))
  {
    hide Books, Owners, Graph.Valid, Finish;
    var s' := Apply(g, oc, Literal, s, AbortExec(w));
    assert s'.workers[w].SelfLocked?;
    assert !s'.MutexFree();
    SameBooks(g, s, s');
    SameHolders(s, s');
  }

  /** Counting task t off without releasing anything. */
  lemma CountedOff(g: Graph, s: State, s': State, t: nat)
    requires Books(g, s) && t in s.started && t !in s.finished
    requires s'.sh == s.sh.(remaining := s.sh.remaining - 1, failed := s'.sh.failed)
    requires s'.started == s.started && s'.finished == s.finished + {t} && s'.released == s.released
    ensures Books(g, s')
  {
    hide NoDup, Outstanding;
  }

  /** The queue once the dependents of t have been counted down. */
  lemma QueueAfter(g: Graph, s: State, t: nat, added: seq<nat>)
    requires Books(g, s) && t !in s.released && NoDup(added)
    requires forall u: nat :: u in added <==>
               u < g.Size() && Outstanding(g.deps[u], s.released) > 0 && Outstanding(g.deps[u], s.released + {t}) == 0
    ensures NoDup(s.sh.ready + added) && forall u :: u in s.sh.ready + added ==> u !in s.started
    ensures forall u: nat :: u in s.sh.ready + added || u in s.started <==>
              u < g.Size() && Outstanding(g.deps[u], s.released + {t}) == 0
  {
    hide Outstanding;
    forall u: nat
      ensures u in s.sh.ready + added || u in s.started <==> u < g.Size() && Outstanding(g.deps[u], s.released + {t}) == 0
      ensures u in added ==> u !in s.sh.ready && u !in s.started
    {
      if u < g.Size() { OutstandingAdd(g.deps[u], s.released, t); }
    }
    NoDupJoin(s.sh.ready, added);
  }

  lemma NoDupJoin(a: seq<nat>, b: seq<nat>)
    requires NoDup(a) && NoDup(b) && forall x :: x in b ==> x !in a
    ensures NoDup(a + b)
  {
    forall i, j | 0 <= i < j < |a + b|
      ensures (a + b)[i] != (a + b)[j]
    {
      if i < |a| <= j {
        assert (a + b)[j] == b[j - |a|] && b[j - |a|] in b;
        assert (a + b)[i] in a;
      }
    }
  }

  lemma FinishBooks(g: Graph, s: State, w: nat, fails: bool, release: bool)
    requires g.Valid() && Books(g, s) && Owners(s)
    requires w < |s.workers| && s.workers[w].Busy()
    requires s.workers[w].t < g.Size()
    ensures Books(g, Finish(g, s, w, fails, release))
  {
    hide Release, Outstanding, NoDup;
    var t := s.workers[w].t;
    var s' := Finish(g, s, w, fails, release);
    assert t in s.started && t !in s.finished && t !in s.released;
    if release {
      var added := ReleaseCounts(g, s.sh.pending, s.sh.ready, s.released, t);
      QueueAfter(g, s, t, added);
    } else {
      CountedOff(g, s, s', t);
    }
  }

  lemma FinishInv(g: Graph, oc: seq<Outcome>, proto: Protocol, s: State, w: nat, fails: bool, release: bool)
    requires g.Valid() && Inv(g, oc, proto, s) && s.MutexFree()
    requires w < |s.workers| && s.workers[w].Busy() && s.workers[w].t < g.Size()
    requires fails <==> !oc[s.workers[w].t].Succeeds?
    requires release <==> proto.Intended? || oc[s.workers[w].t].Succeeds?
    requires proto.Literal? ==> !oc[s.workers[w].t].CommandFails?
    ensures Inv(g, oc, proto, Finish(g, s, w, fails, release))
  {
    hide Graph.Valid, Finish, Fits;
    var t := s.workers[w].t;
    FinishBooks(g, s, w, fails, release);
    FinishOwners(g, s, w, fails, release);
    assert t !in s.finished && t !in s.released;
    MoreRemain(g, s, t);
    hide Books, Owners, Verdicts, Sleepers;
    FinishVerdicts(g, oc, proto, s, w, fails, release);
    FinishSleepers(g, s, w, fails, release);
  }

  lemma FinishVerdicts(g: Graph, oc: seq<Outcome>, proto: Protocol, s: State, w: nat, fails: bool, release: bool)
    requires g.Valid() && |oc| == g.Size() && |s.sh.pending| == g.Size() && Verdicts(oc, proto, s) && s.MutexFree()
    requires w < |s.workers| && s.workers[w].Busy() && s.workers[w].t < g.Size() && s.workers[w].t !in s.released
    requires fails <==> !oc[s.workers[w].t].Succeeds?
    requires release <==> proto.Intended? || oc[s.workers[w].t].Succeeds?
    requires proto.Literal? ==> !oc[s.workers[w].t].CommandFails?
    ensures Verdicts(oc, proto, Finish(g, s, w, fails, release))
  {
    var t := s.workers[w].t;
    var s' := Finish(g, s, w, fails, release);
    assert s'.MutexFree();
    assert t in s'.finished;
    assert s'.sh.failed <==> exists u :: u in s'.finished && !oc[u].Succeeds?;
  }

  lemma FinishSleepers(g: Graph, s: State, w: nat, fails: bool, release: bool)
    requires g.Valid() && |s.sh.pending| == g.Size() && Sleepers(s) && s.sh.remaining > 0
    requires w < |s.workers| && s.workers[w].Busy() && s.workers[w].t < g.Size()
    ensures Sleepers(Finish(g, s, w, fails, release))
  {
    var s' := Finish(g, s, w, fails, release);
    forall v | 0 <= v < |s'.workers|
      ensures !s'.workers[v].Asleep? && !s'.workers[v].Exited?
    {}
  }

  lemma FinishOwners(g: Graph, s: State, w: nat, fails: bool, release: bool)
    requires g.Valid() && Books(g, s) && Owners(s)
    requires w < |s.workers| && s.workers[w].Busy()
    requires s.workers[w].t < g.Size()
    ensures Owners(Finish(g, s, w, fails, release))
  {
    var t := s.workers[w].t;
    var s' := Finish(g, s, w, fails, release);
    hide Books, Graph.Valid;
    forall v | 0 <= v < |s'.workers|
      ensures s'.workers[v].Busy() ==> v != w && s'.workers[v] == s.workers[v]
    {}
    KeepHeld(s, s', Elements(s.started) - s.finished - {t});
  }

  /** An unfinished task is still counted. */
  lemma MoreRemain(g: Graph, s: State, t: nat)
    requires Books(g, s) && t < g.Size() && t !in s.finished
    ensures s.sh.remaining > 0
  {
    assert s.finished <= Nodes(g);
    SubsetCard(s.finished, Nodes(g));
    if s.sh.remaining == 0 { AllFinished(g, s); }
  }

  /** With nothing remaining, every task of the subset has finished. */
  lemma AllFinished(g: Graph, s: State)
    requires Books(g, s) && s.sh.remaining == 0
    ensures s.finished == Nodes(g)
  {
    assert s.finished <= Nodes(g);
    if s.finished != Nodes(g) {
      var t :| t in Nodes(g) && t !in s.finished;
      SubsetCard(s.finished, Nodes(g) - {t});
      assert false;
    }
  }

  lemma FitsOf(oc: seq<Outcome>, proto: Protocol, s: State, w: nat)
    requires Verdicts(oc, proto, s) && w < |s.workers|
    ensures Fits(oc, proto, s.workers[w])
  {}

  /** Every step keeps the invariant, under both protocols and for all outcomes. */
  lemma StepInv(g: Graph, oc: seq<Outcome>, proto: Protocol, s: State, l: Label)
    requires g.Valid() && Inv(g, oc, proto, s) && Enabled(g, oc, s, l)
    ensures Inv(g, oc, proto, Apply(g, oc, proto, s, l))
  {
    hide Graph.Valid, State.MutexFree, Books, Owners, Verdicts, Sleepers, Stage, Finish;
    match l
    case MainWake => MainInv(g, oc, proto, s, l);
    case MainReturn => MainInv(g, oc, proto, s, l);
    case Sleep(w) => UnheldInv(g, oc, proto, s, l);
    case Leave(w) => UnheldInv(g, oc, proto, s, l);
    case Spurious(w) => UnheldInv(g, oc, proto, s, l);
    case Pop(w) => PopInv(g, oc, proto, s, w);
    case Complete(w) => EndInv(g, oc, proto, s, l);
    case AbortHash(w) => EndInv(g, oc, proto, s, l);
    case AbortExec(w) => EndInv(g, oc, proto, s, l);
    case _ => WorkInv(g, oc, proto, s, l);
  }

  /** Counting a task off, or blocking on the mutex. */
  lemma EndInv(g: Graph, oc: seq<Outcome>, proto: Protocol, s: State, l: Label)
    requires g.Valid() && Inv(g, oc, proto, s) && Enabled(g, oc, s, l)
    requires l.Complete? || l.AbortHash? || l.AbortExec?
    ensures Inv(g, oc, proto, Apply(g, oc, proto, s, l))
  {
    hide Graph.Valid, State.MutexFree, Books, Owners, Verdicts, Sleepers, Finish;
    FitsOf(oc, proto, s, l.w);
    match l
    case Complete(w) => FinishInv(g, oc, proto, s, w, false, true);
    case AbortHash(w) => FinishInv(g, oc, proto, s, w, true, proto.Intended?);
    case AbortExec(w) =>
      if proto.Intended? { FinishInv(g, oc, proto, s, w, true, true); } else { SelfLockInv(g, oc, s, w); }
  }

  /** A worker going on with its task outside the mutex. */
  lemma WorkInv(g: Graph, oc: seq<Outcome>, proto: Protocol, s: State, l: Label)
    requires g.Valid() && Inv(g, oc, proto, s) && Enabled(g, oc, s, l)
    requires l.HashOk? || l.HashFail? || l.CacheHit? || l.RunStart? || l.RunOk? || l.RunFail? || l.Record?
    ensures Inv(g, oc, proto, Apply(g, oc, proto, s, l))
  {
    hide Graph.Valid, State.MutexFree, Books, Owners, Verdicts, Sleepers, Stage;
    FitsOf(oc, proto, s, l.w);
    var t := s.workers[l.w].t;
    match l
    case HashOk(w) => StageInv(g, oc, proto, s, w, Hashed(t));
    case HashFail(w) => StageInv(g, oc, proto, s, w, HashFailed(t));
    case CacheHit(w) => StageInv(g, oc, proto, s, w, Done(t));
    case RunStart(w) => StageInv(g, oc, proto, s, w, Running(t));
    case RunOk(w) => StageInv(g, oc, proto, s, w, Ran(t));
    case RunFail(w) => StageInv(g, oc, proto, s, w, ExecFailed(t));
    case Record(w) => StageInv(g, oc, proto, s, w, Done(t));
  }

  /** The invariant holds in every state of every run. */
  lemma {:induction false} RunInv(g: Graph, oc: seq<Outcome>, proto: Protocol, workers: nat,
                                  states: seq<State>, labels: seq<Label>, k: nat)
    requires IsRun(g, oc, proto, workers, states, labels) && k <= |labels|
    ensures Inv(g, oc, proto, states[k])
    ensures |states[k].workers| == workers
  {
    if k == 0 {
      InitInv(g, oc, proto, workers);
    } else {
      hide Inv, Graph.Valid, Apply, Enabled;
      RunInv(g, oc, proto, workers, states, labels, k - 1);
      assert IsStep(g, oc, proto, states[k - 1], labels[k - 1], states[k - 1 + 1]);
      StepInv(g, oc, proto, states[k - 1], labels[k - 1]);
      SameWorkers(g, oc, proto, states[k - 1], labels[k - 1]);
    }
  }

  lemma SameWorkers(g: Graph, oc: seq<Outcome>, proto: Protocol, s: State, l: Label)
    requires g.Valid() && Enabled(g, oc, s, l)
    ensures |Apply(g, oc, proto, s, l).workers| == |s.workers|
  {}
}
