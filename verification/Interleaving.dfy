/** The executor's protocol together with what its workers do to the files, the store and the cache
    between critical sections, in any interleaving. */
module Interleaving {
  import opened Graphs
  import opened Tasks
  import opened Cache
  import T = Transparency
  import S = Scheduler

  /** The world, and per task: its key once hashed, the files its command started from, whether what it
      does to its outputs is done, and how it ended. */
  datatype Data = Data(world: World, keys: map<nat, string>, snaps: map<nat, Files>, written: set<nat>, ends: map<nat, TaskEnd>)

  predicate OnTask(l: S.Label) {
    l.HashOk? || l.HashFail? || l.CacheHit? || l.RunStart? || l.RunOk? || l.RunFail? || l.Record?
  }

  /** The data decides which of a worker's next steps it can take with task t. */
  predicate DataEnabled(env: Env, t: nat, decl: TaskDecl, d: Data, l: S.Label) {
    match l
    case HashOk(_) => HashTask(env, d.world, decl).1.Some?
    case HashFail(_) => HashTask(env, d.world, decl).1.None?
    case CacheHit(_) => t in d.keys && d.keys[t] in d.world.meta
    case RunStart(_) => t in d.keys && d.keys[t] !in d.world.meta
    case RunOk(_) => t in d.snaps && RunCommand(env, d.snaps[t], decl).ok
    case RunFail(_) => t in d.snaps && !RunCommand(env, d.snaps[t], decl).ok
    case Record(_) => t in d.keys
    case _ => true
  }

  /** A command reads the files as they are when it starts and its writes land when it ends. */
  function DataApply(env: Env, t: nat, decl: TaskDecl, d: Data, l: S.Label): Data
    requires DataEnabled(env, t, decl, d, l)
  {
    match l
    case HashOk(_) =>
      var (w, key) := HashTask(env, d.world, decl);
      d.(world := w, keys := d.keys[t := key.value])
    case HashFail(_) => d.(world := HashTask(env, d.world, decl).0, written := d.written + {t}, ends := d.ends[t := HashError])
    case CacheHit(_) =>
      var (w, e) := ExecuteTask(env, d.world, decl, d.keys[t]);
      d.(world := w, written := d.written + {t}, ends := d.ends[t := e])
    case RunStart(_) => d.(snaps := d.snaps[t := d.world.files])
    case RunOk(_) =>
      var r := RunCommand(env, d.snaps[t], decl);
      d.(world := d.world.(files := d.world.files + r.writes), written := d.written + {t})
    case RunFail(_) =>
      var r := RunCommand(env, d.snaps[t], decl);
      d.(world := d.world.(files := d.world.files + r.writes), written := d.written + {t}, ends := d.ends[t := ExecError])
    case Record(_) =>
      var (w, result) := RecordResult(env, d.world, decl, d.keys[t]);
      d.(world := w, ends := d.ends[t := Ran(d.keys[t], result)])
    case _ => d
  }

  datatype Joint = Joint(ctl: S.State, data: Data)

  ghost predicate JointStep(env: Env, g: Graph, decls: seq<TaskDecl>, oc: seq<S.Outcome>, proto: S.Protocol,
                            j: Joint, l: S.Label, j': Joint)
    requires g.Valid() && |decls| == g.Size()
  {
    && S.IsStep(g, oc, proto, j.ctl, l, j'.ctl)
    && if OnTask(l) then
         var t := j.ctl.workers[l.w].t;
         DataEnabled(env, t, decls[t], j.data, l) && j'.data == DataApply(env, t, decls[t], j.data, l)
       else j'.data == j.data
  }

  ghost predicate IsJointRun(env: Env, g: Graph, decls: seq<TaskDecl>, oc: seq<S.Outcome>, proto: S.Protocol, workers: nat,
                             w0: World, joints: seq<Joint>, labels: seq<S.Label>)
  {
    && g.Valid() && |decls| == g.Size() == |oc|
    && |joints| == |labels| + 1
    && joints[0] == Joint(S.Init(g, workers), Data(w0, map[], map[], {}, map[]))
    && (forall k :: 0 <= k < |labels| ==> JointStep(env, g, decls, oc, proto, joints[k], labels[k], joints[k + 1]))
  }

  // ---- The layout of inputs and outputs ---------------------------------------------------------

  ghost predicate Ancestor(g: Graph, t: nat, u: nat) {
    exists p :: IsPath(g, p) && |p| > 1 && p[0] == t && p[|p| - 1] == u
  }

  /** Outputs are disjoint, and an input some task produces is produced by an ancestor. */
  ghost predicate Layout(g: Graph, decls: seq<TaskDecl>) {
    && |decls| == g.Size()
    && (forall t, u, o :: 0 <= t < |decls| && 0 <= u < |decls| && t != u && o in decls[t].outputs ==> o !in decls[u].outputs)
    && (forall t, u, p :: 0 <= t < |decls| && 0 <= u < |decls| && p in decls[t].inputs && p in decls[u].outputs ==> Ancestor(g, t, u))
  }

  ghost predicate IsOutput(decls: seq<TaskDecl>, p: string) {
    exists t :: 0 <= t < |decls| && p in decls[t].outputs
  }

  predicate SameAt(a: Files, b: Files, p: string) {
    (p in a <==> p in b) && (p in a ==> a[p] == b[p])
  }

  predicate Agree(a: Files, b: Files, paths: seq<string>) {
    forall p :: p in paths ==> SameAt(a, b, p)
  }

  /** How the task's turn on ref ends. */
  function OutcomeIn(env: Env, ref: Files, t: TaskDecl): S.Outcome {
    if !InputsExist(ref, t) then S.HashFails else if RunCommand(env, ref, t).ok then S.Succeeds else S.CommandFails
  }

  /** And what it writes, failing or not. */
  function WritesIn(env: Env, ref: Files, t: TaskDecl): Files {
    if InputsExist(ref, t) then RunCommand(env, ref, t).writes else map[]
  }

  /** In ref the task's outputs are what its turn on ref leaves where f0 was before. */
  ghost predicate Fixed(env: Env, f0: Files, ref: Files, t: TaskDecl) {
    forall o {:trigger SameAt(f0 + WritesIn(env, ref, t), ref, o)} :: o in t.outputs ==> SameAt(f0 + WritesIn(env, ref, t), ref, o)
  }

  /** ref is fixed for every task and agrees with the initial files everywhere else. */
  ghost predicate Reference(env: Env, decls: seq<TaskDecl>, f0: Files, ref: Files) {
    && (forall t :: 0 <= t < |decls| ==> Fixed(env, f0, ref, decls[t]))
    && (forall p {:trigger SameAt(f0, ref, p)} :: !IsOutput(decls, p) ==> SameAt(f0, ref, p))
  }

  /** The end of a turn is that of the task on ref. */
  ghost predicate EndsAs(env: Env, ref: Files, t: TaskDecl, e: TaskEnd) {
    match OutcomeIn(env, ref, t)
    case HashFails => e == HashError
    case CommandFails => e == ExecError
    case Succeeds => !e.Failure() && e.key == KeyOf(env, ref, t) && e.result == CleanResultOf(env, ref, t)
  }

  /** The turns whose records a run may meet: the past ones, and its own tasks' on the reference files. */
  ghost function OccurringTurns(past: iset<Turn>, decls: seq<TaskDecl>, ref: Files): iset<Turn> {
    past + iset t: nat | t < |decls| :: Turn(decls[t], ref)
  }

  /** What is assumed of a run of decls that ends in ref: commands are deterministic functions of their
      declared inputs that write their outputs, the contents in seen do not collide, and a record the
      run may meet holds what the task's own command writes. */
  ghost predicate Assumed(env: Env, past: iset<Turn>, seen: iset<string>, decls: seq<TaskDecl>, ref: Files) {
    && HashNames(env) && NoCollision(env, seen) && Within(ref, seen)
    && (forall t :: 0 <= t < |decls| ==> Behaved(env, decls[t]))
    && (forall a, t :: a in OccurringTurns(past, decls, ref) && 0 <= t < |decls| ==> KeyLaw(env, a, Turn(decls[t], ref)))
  }

  /** A subset of tasks with the outcomes the protocol works on, what is assumed of their commands, and a
      reference end of the run. */
  datatype Scene = Scene(env: Env, past: iset<Turn>, seen: iset<string>, g: Graph, decls: seq<TaskDecl>, oc: seq<S.Outcome>,
                         before: Files, ref: Files)
  {
    ghost function Occ(): iset<Turn> { OccurringTurns(past, decls, ref) }

    ghost predicate Valid() {
      && g.Valid() && Layout(g, decls) && |oc| == g.Size()
      && Assumed(env, past, seen, decls, ref)
      && Reference(env, decls, before, ref)
    }
  }

  // ---- The joint invariant ----------------------------------------------------------------------

  ghost predicate EndOk(sc: Scene, t: nat, e: TaskEnd) {
    && t < |sc.decls| && t < |sc.oc|
    && EndsAs(sc.env, sc.ref, sc.decls[t], e) && sc.oc[t] == OutcomeIn(sc.env, sc.ref, sc.decls[t])
  }

  ghost predicate StageOk(sc: Scene, d: Data, x: S.Worker) {
    x.Busy() ==>
      && x.t < |sc.decls| && x.t < |sc.oc|
      && (x.Popped? || x.Hashed? || x.Running? ==> x.t !in d.written)
      && (x.Hashed? || x.Running? || x.Ran? ==>
            InputsExist(sc.ref, sc.decls[x.t]) && x.t in d.keys && d.keys[x.t] == KeyOf(sc.env, sc.ref, sc.decls[x.t]))
      && (x.Running? ==> x.t in d.snaps && Agree(d.snaps[x.t], sc.ref, sc.decls[x.t].inputs))
      && (x.Ran? ==> x.t in d.written && sc.oc[x.t].Succeeds? && RunCommand(sc.env, sc.ref, sc.decls[x.t]).ok)
      && (x.Done? || x.HashFailed? || x.ExecFailed? || x.SelfLocked? ==> x.t in d.written && x.t in d.ends)
  }

  /** Outputs of the tasks in `written` are as in ref, those of the others as before. */
  ghost predicate FilesOk(decls: seq<TaskDecl>, before: Files, ref: Files, files: Files, written: set<nat>) {
    && (forall p {:trigger SameAt(files, ref, p)} :: !IsOutput(decls, p) ==> SameAt(files, ref, p))
    && (forall t, o :: t in written && t < |decls| && o in decls[t].outputs ==> SameAt(files, ref, o))
    && (forall t, o :: 0 <= t < |decls| && t !in written && o in decls[t].outputs ==> SameAt(files, before, o))
  }

  /** The part of the invariant about the data alone. */
  ghost predicate DataInv(sc: Scene, d: Data) {
    && T.CacheInv(sc.env, sc.Occ(), sc.seen, d.world)
    && FilesOk(sc.decls, sc.before, sc.ref, d.world.files, d.written)
    && (forall t :: t in d.ends ==> EndOk(sc, t, d.ends[t]))
  }

  ghost predicate StagesOk(sc: Scene, d: Data, workers: seq<S.Worker>) {
    forall w :: 0 <= w < |workers| ==> StageOk(sc, d, workers[w])
  }

  /** The part relating the workers' stages and the history to the data. */
  ghost predicate CtlInv(sc: Scene, d: Data, s: S.State) {
    && StagesOk(sc, d, s.workers)
    && (forall t :: t in s.finished ==> t in d.written && t in d.ends)
    && (forall t :: t in d.written ==> t in s.started)
  }

  ghost predicate JointInv(sc: Scene, j: Joint) {
    DataInv(sc, j.data) && CtlInv(sc, j.data, j.ctl)
  }

  /** With an ancestor chain from a started task, everything behind the first node is finished. */
  lemma {:induction false} AncestorsFinished(g: Graph, s: S.State, p: seq<nat>, k: nat)
    requires S.Books(g, s) && IsPath(g, p) && p[0] in s.started && 0 < k < |p|
    ensures p[k] in s.finished
  {
    if k > 1 { AncestorsFinished(g, s, p, k - 1); }
    var x := p[k - 1];
    assert x in s.started;
    OutstandingZero(g.deps[x], s.released);
    assert p[k] in g.deps[x];
  }

  /** A started task sees its inputs as they are in the reference. */
  lemma InputsAgree(sc: Scene, j: Joint, t: nat)
    requires Layout(sc.g, sc.decls) && S.Books(sc.g, j.ctl) && JointInv(sc, j)
    requires t in j.ctl.started && t < |sc.decls|
    ensures Agree(j.data.world.files, sc.ref, sc.decls[t].inputs)
  {
    var decls, g, ref := sc.decls, sc.g, sc.ref;
    var files := j.data.world.files;
    forall p | p in decls[t].inputs
      ensures SameAt(files, ref, p)
    {
      if IsOutput(decls, p) {
        var u :| 0 <= u < |decls| && p in decls[u].outputs;
        assert Ancestor(g, t, u);
        var path :| IsPath(g, path) && |path| > 1 && path[0] == t && path[|path| - 1] == u;
        AncestorsFinished(g, j.ctl, path, |path| - 1);
        assert u in j.data.written;
      }
    }
  }

  lemma AgreeingInputs(env: Env, t: TaskDecl, f: Files, ref: Files)
    requires Deterministic(env, t) && Agree(f, ref, t.inputs)
    ensures InputsExist(f, t) <==> InputsExist(ref, t)
    ensures InputsExist(ref, t) ==> KeyOf(env, f, t) == KeyOf(env, ref, t) && RunCommand(env, f, t) == RunCommand(env, ref, t)
  {
    assert forall p :: p in t.inputs ==> SameAt(f, ref, p);
    if InputsExist(ref, t) {
      assert SameInputs(f, ref, t);
      assert forall i :: 0 <= i < |t.inputs| ==> t.inputs[i] in t.inputs;
      assert HashesOf(env, f, t.inputs) == HashesOf(env, ref, t.inputs);
    }
  }
}
