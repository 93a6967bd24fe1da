/** Every step of the executor keeps the joint invariant, so the end of a run does not depend on its
    schedule. */
module Independence {
  import opened Graphs
  import opened Tasks
  import opened Cache
  import opened StoreFacts
  import opened Records
  import opened Interleaving
  import T = Transparency
  import S = Scheduler

  /** Whatever is known about tasks other than t stays known. */
  ghost predicate KeepsOthers(d: Data, d': Data, t: nat) {
    && d.written <= d'.written <= d.written + {t}
    && (forall u :: u in d.keys && u != t ==> u in d'.keys && d'.keys[u] == d.keys[u])
    && (forall u :: u in d.snaps && u != t ==> u in d'.snaps && d'.snaps[u] == d.snaps[u])
    && (forall u :: u in d.ends ==> u in d'.ends)
  }

  lemma OtherStages(sc: Scene, s: S.State, w: nat, x: S.Worker, workers: seq<S.Worker>, d: Data, d': Data)
    requires w < |s.workers| && s.workers[w].Busy() && S.Owners(s)
    requires StagesOk(sc, d, s.workers) && KeepsOthers(d, d', s.workers[w].t)
    requires workers == s.workers[w := x] && StageOk(sc, d', x)
    ensures StagesOk(sc, d', workers)
  {
    forall v | 0 <= v < |workers|
      ensures StageOk(sc, d', workers[v])
    {
      if v != w && s.workers[v].Busy() {
        assert StageOk(sc, d, s.workers[v]);
        assert s.workers[v].t != s.workers[w].t;
      }
    }
  }

  lemma LandsAs(before: Files, ref: Files, files: Files, writes: Files, o: string)
    requires SameAt(files, before, o) && SameAt(before + writes, ref, o)
    ensures SameAt(files + writes, ref, o)
  {}

  lemma StaysAs(ref: Files, files: Files, writes: Files, p: string)
    requires p !in writes && SameAt(files, ref, p)
    ensures SameAt(files + writes, ref, p)
  {}

  /** What a task's turn does to its outputs, done at last. */
  lemma FilesWrite(sc: Scene, files: Files, written: set<nat>, t: nat)
    requires sc.Valid() && t < |sc.decls| && t !in written && FilesOk(sc.decls, sc.before, sc.ref, files, written)
    ensures FilesOk(sc.decls, sc.before, sc.ref, files + WritesIn(sc.env, sc.ref, sc.decls[t]), written + {t})
  {
    hide Scene.Valid, WritesIn, IsOutput, SameAt;
    LandingFacts(sc, t);
    var writes := WritesIn(sc.env, sc.ref, sc.decls[t]);
    forall p | !IsOutput(sc.decls, p)
      ensures SameAt(files + writes, sc.ref, p)
    {
      StaysAs(sc.ref, files, writes, p);
    }
    forall u: nat, o | u < |sc.decls| && o in sc.decls[u].outputs
      ensures u in written + {t} ==> SameAt(files + writes, sc.ref, o)
      ensures u !in written + {t} ==> SameAt(files + writes, sc.before, o)
    {
      if u == t {
        LandsAs(sc.before, sc.ref, files, writes, o);
      } else {
        assert o !in OutputSet(sc.decls[t]);
        StaysAs(if u in written then sc.ref else sc.before, files, writes, o);
      }
    }
  }

  lemma LandingFacts(sc: Scene, t: nat)
    requires sc.Valid() && t < |sc.decls|
    ensures Layout(sc.g, sc.decls) && Fixed(sc.env, sc.before, sc.ref, sc.decls[t])
    ensures WritesIn(sc.env, sc.ref, sc.decls[t]).Keys <= OutputSet(sc.decls[t])
    ensures forall p :: p in WritesIn(sc.env, sc.ref, sc.decls[t]) ==> IsOutput(sc.decls, p)
  {
    assert Behaved(sc.env, sc.decls[t]);
    forall p | p in WritesIn(sc.env, sc.ref, sc.decls[t])
      ensures IsOutput(sc.decls, p)
    {
      assert p in OutputSet(sc.decls[t]);
    }
  }

  /** What the reference says about a task that succeeds in it, in the words of its command. */
  lemma ReferenceWrites(sc: Scene, t: nat)
    requires sc.Valid() && t < |sc.decls| && InputsExist(sc.ref, sc.decls[t]) && RunCommand(sc.env, sc.ref, sc.decls[t]).ok
    ensures var a := Turn(sc.decls[t], sc.ref);
            var r := RunCommand(sc.env, sc.ref, sc.decls[t]);
            && a in sc.Occ() && Succeeds(sc.env, a) && After(sc.env, a) == sc.ref && Known(sc.env, sc.seen, a)
            && r.writes.Keys == OutputSet(sc.decls[t])
            && (forall p :: p in r.writes ==> p in sc.ref && sc.ref[p] == r.writes[p])
  {
    var decl := sc.decls[t];
    var writes := RunCommand(sc.env, sc.ref, decl).writes;
    assert Behaved(sc.env, decl) && Fixed(sc.env, sc.before, sc.ref, decl);
    forall p | p in writes
      ensures p in sc.ref && sc.ref[p] == writes[p]
    {
      assert p in OutputSet(decl);
      assert SameAt(sc.before + WritesIn(sc.env, sc.ref, decl), sc.ref, p);
    }
    assert After(sc.env, Turn(decl, sc.ref)) == sc.ref;
  }

  // ---- The steps of a worker on its task ------------------------------------------------------------

  /** The invariants every step may rely on. */
  ghost predicate Steady(sc: Scene, j: Joint) {
    sc.Valid() && S.Books(sc.g, j.ctl) && S.Owners(j.ctl) && JointInv(sc, j)
  }

  /** What a worker knows when it takes a step on its task. */
  lemma AtTask(sc: Scene, j: Joint, w: nat) returns (t: nat)
    requires Steady(sc, j) && w < |j.ctl.workers| && j.ctl.workers[w].Busy()
    ensures t == j.ctl.workers[w].t && t < |sc.decls| && t < |sc.oc| && t in j.ctl.started
    ensures Agree(j.data.world.files, sc.ref, sc.decls[t].inputs)
    ensures InputsExist(j.data.world.files, sc.decls[t]) <==> InputsExist(sc.ref, sc.decls[t])
    ensures InputsExist(sc.ref, sc.decls[t]) ==>
              && KeyOf(sc.env, j.data.world.files, sc.decls[t]) == KeyOf(sc.env, sc.ref, sc.decls[t])
              && RunCommand(sc.env, j.data.world.files, sc.decls[t]) == RunCommand(sc.env, sc.ref, sc.decls[t])
    ensures StageOk(sc, j.data, j.ctl.workers[w])
  {
    t := j.ctl.workers[w].t;
    assert StageOk(sc, j.data, j.ctl.workers[w]);
    InputsAgree(sc, j, t);
    assert Behaved(sc.env, sc.decls[t]);
    AgreeingInputs(sc.env, sc.decls[t], j.data.world.files, sc.ref);
  }

  /** The inputs a task finds hold contents of the reference. */
  lemma InputsSeen(sc: Scene, files: Files, t: nat)
    requires sc.Valid() && t < |sc.decls| && Agree(files, sc.ref, sc.decls[t].inputs)
    ensures forall p :: p in sc.decls[t].inputs && p in files ==> files[p] in sc.seen
  {
    forall p | p in sc.decls[t].inputs && p in files
      ensures files[p] in sc.seen
    {
      assert SameAt(files, sc.ref, p);
    }
  }

  /** Moving worker w to stage x with new data keeps the invariant if the data does. */
  lemma StageStep(sc: Scene, j: Joint, w: nat, x: S.Worker, d': Data)
    requires S.Owners(j.ctl) && CtlInv(sc, j.data, j.ctl)
    requires w < |j.ctl.workers| && j.ctl.workers[w].Busy() && j.ctl.workers[w].t in j.ctl.started
    requires KeepsOthers(j.data, d', j.ctl.workers[w].t) && StageOk(sc, d', x) && DataInv(sc, d')
    ensures JointInv(sc, Joint(S.Stage(j.ctl, w, x), d'))
  {
    hide S.Owners, StageOk, DataInv, StagesOk;
    OtherStages(sc, j.ctl, w, x, S.Stage(j.ctl, w, x).workers, j.data, d');
  }

  /** Hashing stores known contents only. */
  lemma HashKeeps(sc: Scene, w: World, t: nat)
    requires sc.Valid() && T.CacheInv(sc.env, sc.Occ(), sc.seen, w) && t < |sc.decls|
    requires Agree(w.files, sc.ref, sc.decls[t].inputs)
    ensures var (w', key) := HashTask(sc.env, w, sc.decls[t]);
            && T.CacheInv(sc.env, sc.Occ(), sc.seen, w') && w'.files == w.files && w'.meta == w.meta
            && (key.Some? <==> InputsExist(w.files, sc.decls[t]))
            && (key.Some? ==> key.value == KeyOf(sc.env, w.files, sc.decls[t]))
  {
    InputsSeen(sc, w.files, t);
    hide Scene.Valid, Scene.Occ, T.CacheInv, KeyOf, HashTask;
    HashTaskMeans(sc.env, w, sc.decls[t]);
    T.GrownKeepsInv(sc.env, sc.Occ(), sc.seen, w, HashTask(sc.env, w, sc.decls[t]).0, sc.decls[t].inputs);
  }

  /** A world with the same files keeps the data's invariant. */
  lemma SameFiles(sc: Scene, d: Data, d': Data)
    requires DataInv(sc, d) && T.CacheInv(sc.env, sc.Occ(), sc.seen, d'.world) && d'.world.files == d.world.files
    requires d'.written == d.written && d'.ends == d.ends
    ensures DataInv(sc, d')
  {}

  lemma HashOkStep(sc: Scene, j: Joint, w: nat) returns (t: nat, d': Data)
    requires Steady(sc, j) && w < |j.ctl.workers| && j.ctl.workers[w].Popped?
    requires j.ctl.workers[w].t < |sc.decls| && HashTask(sc.env, j.data.world, sc.decls[j.ctl.workers[w].t]).1.Some?
    ensures t == j.ctl.workers[w].t && t < |sc.decls|
    ensures var (world, key) := HashTask(sc.env, j.data.world, sc.decls[t]);
            key.Some? && d' == j.data.(world := world, keys := j.data.keys[t := key.value])
    ensures JointInv(sc, Joint(S.Stage(j.ctl, w, S.Hashed(t)), d'))
  {
    hide Scene.Valid, S.Books, S.Owners, HashTask, KeyOf, T.CacheInv, FilesOk, EndOk, Scene.Occ;
    t := AtTask(sc, j, w);
    HashKeeps(sc, j.data.world, t);
    var (world, key) := HashTask(sc.env, j.data.world, sc.decls[t]);
    d' := j.data.(world := world, keys := j.data.keys[t := key.value]);
    SameFiles(sc, j.data, d');
    StageStep(sc, j, w, S.Hashed(t), d');
  }

  /** A missing input: nothing is written, and nothing is written in the reference. */
  lemma HashFailStep(sc: Scene, j: Joint, w: nat) returns (t: nat, d': Data)
    requires Steady(sc, j) && w < |j.ctl.workers| && j.ctl.workers[w].Popped?
    requires var t := j.ctl.workers[w].t;
             t < |sc.decls| && t < |sc.oc| && sc.oc[t].HashFails? && HashTask(sc.env, j.data.world, sc.decls[t]).1.None?
    ensures t == j.ctl.workers[w].t && t < |sc.decls|
    ensures d' == j.data.(world := HashTask(sc.env, j.data.world, sc.decls[t]).0, written := j.data.written + {t},
                          ends := j.data.ends[t := HashError])
    ensures JointInv(sc, Joint(S.Stage(j.ctl, w, S.HashFailed(t)), d'))
  {
    hide Scene.Valid, S.Books, S.Owners, HashTask, KeyOf, T.CacheInv, FilesOk, Scene.Occ;
    t := AtTask(sc, j, w);
    HashKeeps(sc, j.data.world, t);
    var world := HashTask(sc.env, j.data.world, sc.decls[t]).0;
    d' := j.data.(world := world, written := j.data.written + {t}, ends := j.data.ends[t := HashError]);
    FilesWrite(sc, world.files, j.data.written, t);
    assert world.files + WritesIn(sc.env, sc.ref, sc.decls[t]) == world.files;
    DataWith(sc, j.data, world, j.data.written + {t}, t, HashError);
    StageStep(sc, j, w, S.HashFailed(t), d');
  }

  lemma RunStartStep(sc: Scene, j: Joint, w: nat) returns (t: nat, d': Data)
    requires Steady(sc, j) && w < |j.ctl.workers| && j.ctl.workers[w].Hashed?
    ensures t == j.ctl.workers[w].t && d' == j.data.(snaps := j.data.snaps[t := j.data.world.files])
    ensures JointInv(sc, Joint(S.Stage(j.ctl, w, S.Running(t)), d'))
  {
    hide Scene.Valid, S.Books, S.Owners, KeyOf, T.CacheInv, FilesOk, EndOk, Scene.Occ;
    t := AtTask(sc, j, w);
    d' := j.data.(snaps := j.data.snaps[t := j.data.world.files]);
    SameFiles(sc, j.data, d');
    StageStep(sc, j, w, S.Running(t), d');
  }

  /** A world and a written set that fit, and one more truthful end. */
  lemma DataWith(sc: Scene, d: Data, w: World, written: set<nat>, t: nat, e: TaskEnd)
    requires T.CacheInv(sc.env, sc.Occ(), sc.seen, w) && FilesOk(sc.decls, sc.before, sc.ref, w.files, written)
    requires (forall u :: u in d.ends ==> EndOk(sc, u, d.ends[u])) && EndOk(sc, t, e)
    ensures DataInv(sc, d.(world := w, written := written, ends := d.ends[t := e]))
  {}

  /** The record a task meets puts its reference outputs in place and reports its reference result; its own
      command would have succeeded. */
  lemma HitRestores(sc: Scene, w: World, t: nat, key: string)
    requires sc.Valid() && t < |sc.decls| && T.CacheInv(sc.env, sc.Occ(), sc.seen, w)
    requires InputsExist(sc.ref, sc.decls[t]) && key == KeyOf(sc.env, sc.ref, sc.decls[t]) && key in w.meta
    ensures var decl := sc.decls[t];
            && RunCommand(sc.env, sc.ref, decl).ok
            && ExecuteTask(sc.env, w, decl, key) ==
               (w.(files := w.files + RunCommand(sc.env, sc.ref, decl).writes), Hit(key, CleanResultOf(sc.env, sc.ref, decl)))
  {
    hide CleanResultOf, KeyOf, Reference, Layout, NoCollision, Behaved, RecordOf, ParseRecord;
    var b := Turn(sc.decls[t], sc.ref);
    assert T.Explained(sc.env, sc.Occ(), w.objects, key, w.meta[key]);
    var a :| a in sc.Occ() && T.WrittenBy(sc.env, w.objects, key, w.meta[key], a);
    assert KeyLaw(sc.env, a, b);
    ReferenceWrites(sc, t);
    T.HitMeans(sc.env, w, a, sc.decls[t], key);
  }

  lemma HitData(sc: Scene, d: Data, t: nat, key: string)
    requires sc.Valid() && DataInv(sc, d) && t < |sc.decls| && t < |sc.oc| && sc.oc[t].Succeeds? && t !in d.written
    requires InputsExist(sc.ref, sc.decls[t]) && key == KeyOf(sc.env, sc.ref, sc.decls[t]) && key in d.world.meta
    ensures var (w, e) := ExecuteTask(sc.env, d.world, sc.decls[t], key);
            && DataInv(sc, d.(world := w, written := d.written + {t}, ends := d.ends[t := e]))
            && e.Hit? && w.meta == d.world.meta
  {
    hide Scene.Valid, Scene.Occ, T.CacheInv, ExecuteTask, CleanResultOf, KeyOf, RunCommand, FilesOk, InputsExist;
    HitRestores(sc, d.world, t, key);
    var writes := WritesIn(sc.env, sc.ref, sc.decls[t]);
    T.FilesKeepInv(sc.env, sc.Occ(), sc.seen, d.world, d.world.files + writes);
    FilesWrite(sc, d.world.files, d.written, t);
    var (w, e) := ExecuteTask(sc.env, d.world, sc.decls[t], key);
    DataWith(sc, d, w, d.written + {t}, t, e);
  }

  lemma CacheHitStep(sc: Scene, j: Joint, w: nat) returns (t: nat, d': Data)
    requires Steady(sc, j) && w < |j.ctl.workers| && j.ctl.workers[w].Hashed?
    requires var t := j.ctl.workers[w].t;
             t < |sc.oc| && sc.oc[t].Succeeds? && t in j.data.keys && j.data.keys[t] in j.data.world.meta
    ensures t == j.ctl.workers[w].t && t < |sc.decls|
    ensures var (world, e) := ExecuteTask(sc.env, j.data.world, sc.decls[t], j.data.keys[t]);
            && d' == j.data.(world := world, written := j.data.written + {t}, ends := j.data.ends[t := e])
            && e.Hit? && world.meta == j.data.world.meta
    ensures JointInv(sc, Joint(S.Stage(j.ctl, w, S.Done(t)), d'))
  {
    hide Scene.Valid, DataInv, S.Books, S.Owners, ExecuteTask, KeyOf, CleanResultOf;
    t := AtTask(sc, j, w);
    HitData(sc, j.data, t, j.data.keys[t]);
    var (world, e) := ExecuteTask(sc.env, j.data.world, sc.decls[t], j.data.keys[t]);
    d' := j.data.(world := world, written := j.data.written + {t}, ends := j.data.ends[t := e]);
    StageStep(sc, j, w, S.Done(t), d');
  }

  /** A command that started on the reference inputs does what it does there, whether it succeeds or fails. */
  lemma RunData(sc: Scene, d: Data, t: nat, snap: Files)
    requires sc.Valid() && DataInv(sc, d) && t < |sc.decls| && t !in d.written
    requires InputsExist(sc.ref, sc.decls[t]) && Agree(snap, sc.ref, sc.decls[t].inputs)
    ensures var r := RunCommand(sc.env, snap, sc.decls[t]);
            && r == RunCommand(sc.env, sc.ref, sc.decls[t])
            && DataInv(sc, d.(world := d.world.(files := d.world.files + r.writes), written := d.written + {t}))
  {
    assert Behaved(sc.env, sc.decls[t]);
    AgreeingInputs(sc.env, sc.decls[t], snap, sc.ref);
    hide Scene.Valid, Scene.Occ, T.CacheInv, KeyOf, Deterministic, FilesOk, EndOk;
    var writes := WritesIn(sc.env, sc.ref, sc.decls[t]);
    T.FilesKeepInv(sc.env, sc.Occ(), sc.seen, d.world, d.world.files + writes);
    FilesWrite(sc, d.world.files, d.written, t);
  }

  lemma RunOkStep(sc: Scene, j: Joint, w: nat) returns (t: nat, d': Data)
    requires Steady(sc, j) && w < |j.ctl.workers| && j.ctl.workers[w].Running?
    requires var t := j.ctl.workers[w].t;
             && t < |sc.decls| && t < |sc.oc| && sc.oc[t].Succeeds?
             && t in j.data.snaps && RunCommand(sc.env, j.data.snaps[t], sc.decls[t]).ok
    ensures t == j.ctl.workers[w].t && t < |sc.decls| && t in j.data.snaps
    ensures var r := RunCommand(sc.env, j.data.snaps[t], sc.decls[t]);
            d' == j.data.(world := j.data.world.(files := j.data.world.files + r.writes), written := j.data.written + {t})
    ensures JointInv(sc, Joint(S.Stage(j.ctl, w, S.Ran(t)), d'))
  {
    hide Scene.Valid, DataInv, S.Books, S.Owners, KeyOf;
    t := AtTask(sc, j, w);
    RunData(sc, j.data, t, j.data.snaps[t]);
    var r := RunCommand(sc.env, j.data.snaps[t], sc.decls[t]);
    d' := j.data.(world := j.data.world.(files := j.data.world.files + r.writes), written := j.data.written + {t});
    StageStep(sc, j, w, S.Ran(t), d');
  }

  lemma RunFailStep(sc: Scene, j: Joint, w: nat) returns (t: nat, d': Data)
    requires Steady(sc, j) && w < |j.ctl.workers| && j.ctl.workers[w].Running?
    requires var t := j.ctl.workers[w].t;
             && t < |sc.decls| && t < |sc.oc| && sc.oc[t].CommandFails?
             && t in j.data.snaps && !RunCommand(sc.env, j.data.snaps[t], sc.decls[t]).ok
    ensures t == j.ctl.workers[w].t && t < |sc.decls| && t in j.data.snaps
    ensures var r := RunCommand(sc.env, j.data.snaps[t], sc.decls[t]);
            d' == j.data.(world := j.data.world.(files := j.data.world.files + r.writes), written := j.data.written + {t},
                          ends := j.data.ends[t := ExecError])
    ensures JointInv(sc, Joint(S.Stage(j.ctl, w, S.ExecFailed(t)), d'))
  {
    hide Scene.Valid, S.Books, S.Owners, KeyOf, T.CacheInv, FilesOk, Scene.Occ;
    t := AtTask(sc, j, w);
    RunData(sc, j.data, t, j.data.snaps[t]);
    var r := RunCommand(sc.env, j.data.snaps[t], sc.decls[t]);
    var world := j.data.world.(files := j.data.world.files + r.writes);
    d' := j.data.(world := world, written := j.data.written + {t}, ends := j.data.ends[t := ExecError]);
    DataWith(sc, j.data, world, j.data.written + {t}, t, ExecError);
    StageStep(sc, j, w, S.ExecFailed(t), d');
  }

  lemma LawsOf(sc: Scene, t: nat)
    requires sc.Valid() && t < |sc.decls|
    ensures HashNames(sc.env) && NoCollision(sc.env, sc.seen) && WellFormed(sc.decls[t])
  {
    assert Behaved(sc.env, sc.decls[t]);
  }

  lemma RecordData(sc: Scene, d: Data, t: nat, key: string)
    requires sc.Valid() && DataInv(sc, d) && t < |sc.decls| && t in d.written && t < |sc.oc| && sc.oc[t].Succeeds?
    requires InputsExist(sc.ref, sc.decls[t]) && RunCommand(sc.env, sc.ref, sc.decls[t]).ok && key == KeyOf(sc.env, sc.ref, sc.decls[t])
    ensures var (w, result) := RecordResult(sc.env, d.world, sc.decls[t], key);
            && DataInv(sc, d.(world := w, ends := d.ends[t := Ran(key, result)]))
            && w.meta.Keys == d.world.meta.Keys + {key}
  {
    hide Scene.Valid, Scene.Occ, T.CacheInv, RecordResult, CleanResultOf, KeyOf, Known, NoCollision, HashNames, RunCommand;
    ReferenceWrites(sc, t);
    LawsOf(sc, t);
    var a := Turn(sc.decls[t], sc.ref);
    forall o | o in a.task.outputs
      ensures o in sc.ref && SameAt(d.world.files, sc.ref, o)
    {
      assert o in OutputSet(a.task);
    }
    T.RecordInv(sc.env, sc.Occ(), sc.seen, d.world, a, key);
    hide FilesOk;
    var (w, result) := RecordResult(sc.env, d.world, sc.decls[t], key);
    DataWith(sc, d, w, d.written, t, Ran(key, result));
    assert d.(world := w, written := d.written, ends := d.ends[t := Ran(key, result)]) ==
           d.(world := w, ends := d.ends[t := Ran(key, result)]);
  }

  lemma RecordStep(sc: Scene, j: Joint, w: nat) returns (t: nat, d': Data)
    requires Steady(sc, j) && w < |j.ctl.workers| && j.ctl.workers[w].Ran?
    ensures t == j.ctl.workers[w].t && t < |sc.decls| && t in j.data.keys
    ensures var (world, result) := RecordResult(sc.env, j.data.world, sc.decls[t], j.data.keys[t]);
            && d' == j.data.(world := world, ends := j.data.ends[t := Ran(j.data.keys[t], result)])
            && world.meta.Keys == j.data.world.meta.Keys + {j.data.keys[t]}
    ensures JointInv(sc, Joint(S.Stage(j.ctl, w, S.Done(t)), d'))
  {
    hide Scene.Valid, DataInv, S.Books, S.Owners, KeyOf, RecordResult;
    t := AtTask(sc, j, w);
    RecordData(sc, j.data, t, j.data.keys[t]);
    var (world, result) := RecordResult(sc.env, j.data.world, sc.decls[t], j.data.keys[t]);
    d' := j.data.(world := world, ends := j.data.ends[t := Ran(j.data.keys[t], result)]);
    StageStep(sc, j, w, S.Done(t), d');
  }

  // ---- All steps --------------------------------------------------------------------------------------

  lemma FinishStep(sc: Scene, d: Data, s: S.State, w: nat, s': S.State)
    requires CtlInv(sc, d, s) && w < |s.workers| && (s.workers[w].Done? || s.workers[w].HashFailed? || s.workers[w].ExecFailed?)
    requires s'.workers == S.Wake(s.workers[w := S.Idle]) && s'.finished == s.finished + {s.workers[w].t} && s'.started == s.started
    ensures CtlInv(sc, d, s')
  {
    assert StageOk(sc, d, s.workers[w]);
  }

  lemma PopStep(sc: Scene, d: Data, s: S.State, w: nat, s': S.State, t: nat)
    requires CtlInv(sc, d, s) && w < |s.workers| && t < |sc.decls| && t < |sc.oc| && t !in s.started
    requires s'.workers == s.workers[w := S.Popped(t)] && s'.finished == s.finished && s'.started == s.started + [t]
    ensures CtlInv(sc, d, s')
  {}

  /** Sleeping, waking and leaving: workers hold the same tasks in the same stages. */
  lemma RestStep(sc: Scene, d: Data, s: S.State, s': S.State)
    requires CtlInv(sc, d, s) && |s'.workers| == |s.workers| && s'.finished == s.finished && s'.started == s.started
    requires forall v :: 0 <= v < |s.workers| ==> s'.workers[v] == s.workers[v] || !s'.workers[v].Busy()
    ensures CtlInv(sc, d, s')
  {}

  /** A worker blocking on its own mutex keeps its task, failed as it is. */
  lemma LockStep(sc: Scene, d: Data, s: S.State, w: nat, s': S.State)
    requires CtlInv(sc, d, s) && w < |s.workers| && s.workers[w].ExecFailed?
    requires s'.workers == s.workers[w := S.SelfLocked(s.workers[w].t)] && s'.finished == s.finished && s'.started == s.started
    ensures CtlInv(sc, d, s')
  {
    assert StageOk(sc, d, s.workers[w]);
  }

  /** Steps that leave the data alone. */
  lemma ControlStep(sc: Scene, proto: S.Protocol, d: Data, s: S.State, l: S.Label, s': S.State)
    requires sc.g.Valid() && |sc.decls| == sc.g.Size() == |sc.oc| && S.Books(sc.g, s) && CtlInv(sc, d, s)
    requires S.IsStep(sc.g, sc.oc, proto, s, l, s') && !OnTask(l)
    ensures CtlInv(sc, d, s')
  {
    hide CtlInv;
    match l
    case Pop(w) =>
      assert s.sh.ready[0] in s.sh.ready;
      PopStep(sc, d, s, w, s', s.sh.ready[0]);
    case Complete(w) => FinishStep(sc, d, s, w, s');
    case AbortHash(w) => FinishStep(sc, d, s, w, s');
    case AbortExec(w) =>
      if proto.Intended? { FinishStep(sc, d, s, w, s'); } else { LockStep(sc, d, s, w, s'); }
    case _ => RestStep(sc, d, s, s');
  }

  /** A worker's own steps keep the invariant. */
  lemma TaskStep(sc: Scene, proto: S.Protocol, j: Joint, l: S.Label, j': Joint)
    requires Steady(sc, j) && OnTask(l)
    requires JointStep(sc.env, sc.g, sc.decls, sc.oc, proto, j, l, j')
    ensures JointInv(sc, j')
  {
    hide Steady, JointInv;
    var t := AtTask(sc, j, l.w);
    match l
    case HashOk(w) => var _, d' := HashOkStep(sc, j, w);
    case HashFail(w) => var _, d' := HashFailStep(sc, j, w);
    case CacheHit(w) => var _, d' := CacheHitStep(sc, j, w);
    case RunStart(w) => var _, d' := RunStartStep(sc, j, w);
    case RunOk(w) => var _, d' := RunOkStep(sc, j, w);
    case RunFail(w) => var _, d' := RunFailStep(sc, j, w);
    case Record(w) => var _, d' := RecordStep(sc, j, w);
  }

  /** Every step keeps the joint invariant. */
  lemma JointStepInv(sc: Scene, proto: S.Protocol, j: Joint, l: S.Label, j': Joint)
    requires Steady(sc, j) && JointStep(sc.env, sc.g, sc.decls, sc.oc, proto, j, l, j')
    ensures JointInv(sc, j')
  {
    if OnTask(l) {
      TaskStep(sc, proto, j, l, j');
    } else {
      ControlStep(sc, proto, j.data, j.ctl, l, j'.ctl);
    }
  }

  lemma JointInit(sc: Scene, proto: S.Protocol, workers: nat, w0: World)
    requires sc.Valid() && sc.before == w0.files && T.CacheInv(sc.env, sc.Occ(), sc.seen, w0)
    ensures S.Inv(sc.g, sc.oc, proto, S.Init(sc.g, workers))
    ensures JointInv(sc, Joint(S.Init(sc.g, workers), Data(w0, map[], map[], {}, map[])))
  {
    S.InitInv(sc.g, sc.oc, proto, workers);
    forall p | !IsOutput(sc.decls, p)
      ensures SameAt(w0.files, sc.ref, p)
    {
      assert SameAt(sc.before, sc.ref, p);
    }
  }

  /** The control invariant and the joint invariant of one state. */
  ghost predicate Sound(sc: Scene, proto: S.Protocol, j: Joint) {
    match j
    case Joint(ctl, data) => S.Inv(sc.g, sc.oc, proto, ctl) && JointInv(sc, j)
  }

  lemma SoundStep(sc: Scene, proto: S.Protocol, j: Joint, l: S.Label, j': Joint)
    requires sc.Valid() && Sound(sc, proto, j) && JointStep(sc.env, sc.g, sc.decls, sc.oc, proto, j, l, j')
    ensures Sound(sc, proto, j') && |j'.ctl.workers| == |j.ctl.workers|
  {
    hide DataInv, CtlInv, Assumed, Layout, Reference, S.Books, S.Owners, S.Verdicts, S.Sleepers, DataEnabled, DataApply;
    S.StepInv(sc.g, sc.oc, proto, j.ctl, l);
    JointStepInv(sc, proto, j, l, j');
  }

  /** What the first state has and every step keeps, every state of a joint run has. */
  lemma {:induction false} AlongRun(env: Env, g: Graph, decls: seq<TaskDecl>, oc: seq<S.Outcome>, proto: S.Protocol, workers: nat,
                                    w0: World, joints: seq<Joint>, labels: seq<S.Label>, p: Joint -> bool, k: nat)
    requires IsJointRun(env, g, decls, oc, proto, workers, w0, joints, labels) && k <= |labels|
    requires p(joints[0])
    requires forall j, l, j' :: p(j) && JointStep(env, g, decls, oc, proto, j, l, j') ==> p(j')
    ensures p(joints[k])
  {
    if k > 0 {
      AlongRun(env, g, decls, oc, proto, workers, w0, joints, labels, p, k - 1);
      assert JointStep(env, g, decls, oc, proto, joints[k - 1], labels[k - 1], joints[k - 1 + 1]);
    }
  }

  /** The invariants hold in every state of every joint run. */
  lemma JointRunInv(sc: Scene, proto: S.Protocol, workers: nat, w0: World, joints: seq<Joint>, labels: seq<S.Label>, k: nat)
    requires sc.Valid() && sc.before == w0.files && T.CacheInv(sc.env, sc.Occ(), sc.seen, w0)
    requires IsJointRun(sc.env, sc.g, sc.decls, sc.oc, proto, workers, w0, joints, labels) && k <= |labels|
    ensures Sound(sc, proto, joints[k]) && |joints[k].ctl.workers| == workers
  {
    var p := (j: Joint) => Sound(sc, proto, j) && |j.ctl.workers| == workers;
    JointInit(sc, proto, workers, w0);
    forall j, l, j' | p(j) && JointStep(sc.env, sc.g, sc.decls, sc.oc, proto, j, l, j')
      ensures p(j')
    {
      SoundStep(sc, proto, j, l, j');
    }
    AlongRun(sc.env, sc.g, sc.decls, sc.oc, proto, workers, w0, joints, labels, p, k);
  }
}
