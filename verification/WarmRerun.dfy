/** Why a second run over the files and the cache a first one left does no work. */
module WarmRerun {
  import opened Cache
  import opened Records
  import opened StoreFacts
  import opened Tasks
  import T = Transparency

  // ---- What occurs -----------------------------------------------------------------------------------

  /** The contents of a world's files and objects. */
  ghost function Contents(w: World): iset<string> {
    iset c | c in w.files.Values || c in w.objects.Values
  }

  /** The contents of all worlds between the turns of a run. */
  ghost function Occurring(env: Env, w: World, ts: seq<TaskDecl>): iset<string>
    decreases |ts|
  {
    Contents(w) + if ts == [] then iset{} else Occurring(env, RunTask(env, w, ts[0]).0, ts[1..])
  }

  lemma FewerCollide(env: Env, seen: iset<string>, less: iset<string>)
    requires NoCollision(env, seen) && less <= seen
    ensures NoCollision(env, less)
  {}

  lemma {:induction false} StartOccurs(env: Env, w: World, ts: seq<TaskDecl>)
    ensures Contents(w) <= Occurring(env, w, ts)
    ensures ts != [] ==> Occurring(env, RunTask(env, w, ts[0]).0, ts[1..]) <= Occurring(env, w, ts)
  {}

  /** A task the results here are about: well-formed, with a command that writes declared outputs only. */
  ghost predicate Tame(env: Env, universe: set<TaskDecl>, t: TaskDecl) {
    t in universe && WellFormed(t) && KeepsToOutputs(env, t)
  }

  // ---- Settled tasks ------------------------------------------------------------------------------

  /** The task's key has a record with this result, and restoring it changes nothing. */
  ghost predicate Settled(env: Env, w: World, t: TaskDecl, key: string, result: string) {
    && InputsExist(w.files, t)
    && key == KeyOf(env, w.files, t)
    && key in w.meta
    && ParseRecord(w.meta[key]).resultHash == result
    && AlreadyIn(RestoreMap(w.objects, ParseRecord(w.meta[key]).outputs, t.outputs), w.files)
  }

  ghost predicate AlreadyIn(m: Files, files: Files) {
    forall p :: p in m ==> p in files && files[p] == m[p]
  }

  /** w' comes later: records and objects persist, files change at most at `changed`. */
  ghost predicate Later(w: World, w': World, changed: set<string>) {
    && (forall h :: h in w.objects ==> h in w'.objects && w'.objects[h] == w.objects[h])
    && (forall k :: k in w.meta ==> k in w'.meta && w'.meta[k] == w.meta[k])
    && (forall p :: p !in changed ==> (p in w'.files <==> p in w.files) && (p in w.files ==> w'.files[p] == w.files[p]))
  }

  lemma RecordedIsStored(env: Env, universe: set<TaskDecl>, w: World, key: string)
    requires T.Honest(env, universe, w) && key in w.meta
    ensures forall e :: e in ParseRecord(w.meta[key]).outputs ==> e.1 in w.objects
  {
    assert T.HonestRecord(env, universe, w.objects, w.meta[key]);
  }

  lemma SameKey(env: Env, f: Files, f': Files, t: TaskDecl)
    requires InputsExist(f, t) && forall p :: p in t.inputs ==> p in f' && f'[p] == f[p]
    ensures InputsExist(f', t) && KeyOf(env, f', t) == KeyOf(env, f, t)
  {
    assert forall i :: 0 <= i < |t.inputs| ==> t.inputs[i] in t.inputs;
    assert HashesOf(env, f', t.inputs) == HashesOf(env, f, t.inputs);
  }

  /** Files outside a task's inputs and outputs do not unsettle it. */
  lemma SettledStays(env: Env, universe: set<TaskDecl>, w: World, w': World, changed: set<string>, t: TaskDecl, key: string, result: string)
    requires T.Honest(env, universe, w) && Settled(env, w, t, key, result) && Later(w, w', changed)
    requires forall p :: p in t.inputs || p in t.outputs ==> p !in changed
    ensures Settled(env, w', t, key, result)
  {
    hide T.Honest, KeyOf, ParseRecord, RestoreMap;
    SameKey(env, w.files, w'.files, t);
    var entries := ParseRecord(w.meta[key]).outputs;
    RecordedIsStored(env, universe, w, key);
    RestoreMapStable(w.objects, w'.objects, entries, t.outputs);
    RestoreMapFacts(w.objects, entries, t.outputs);
  }

  lemma GrownIsLater(env: Env, w: World, w': World, paths: seq<string>)
    requires Grown(env, w, w', paths)
    ensures Later(w, w', {})
  {}

  lemma LaterTransitive(w0: World, w1: World, w2: World, c1: set<string>, c2: set<string>)
    requires Later(w0, w1, c1) && Later(w1, w2, c2)
    ensures Later(w0, w2, c1 + c2)
  {}

  // ---- One task settles ----------------------------------------------------------------------------

  /** The record under key restores what is in the files already, and reports result. */
  ghost predicate InPlace(w: World, t: TaskDecl, key: string, result: string) {
    && key in w.meta && ParseRecord(w.meta[key]).resultHash == result
    && AlreadyIn(RestoreMap(w.objects, ParseRecord(w.meta[key]).outputs, t.outputs), w.files)
  }

  /** A restore touches declared outputs only and need not be repeated. */
  lemma RestoreSettles(w: World, t: TaskDecl, key: string)
    requires key in w.meta
    ensures var r := ParseRecord(w.meta[key]);
            var w' := RestoreAll(w, r.outputs, t.outputs);
            Later(w, w', OutputSet(t)) && InPlace(w', t, key, r.resultHash)
  {
    hide ParseRecord;
    var entries := ParseRecord(w.meta[key]).outputs;
    RestoreAllIsMap(w, entries, t.outputs);
    RestoreMapFacts(w.objects, entries, t.outputs);
  }

  /** Without collisions, a record of the files as they are restores what is there. */
  lemma OwnRecordInPlace(env: Env, w: World, t: TaskDecl)
    requires NoCollision(env, Contents(w)) && forall h :: h in w.objects ==> env.hash(w.objects[h]) == h
    ensures AlreadyIn(RestoreMap(w.objects, EntriesOf(env, w.files, Present(w.files, t.outputs)), t.outputs), w.files)
  {
    var entries := EntriesOf(env, w.files, Present(w.files, t.outputs));
    var m := RestoreMap(w.objects, entries, t.outputs);
    RestoreMapFacts(w.objects, entries, t.outputs);
    forall p | p in m
      ensures p in w.files && w.files[p] == m[p]
    {
      var e :| e in entries && e.0 == p && e.1 in w.objects && m[p] == w.objects[e.1];
      assert e.1 == env.hash(w.files[p]);
      assert w.files[p] in Contents(w) && w.objects[e.1] in Contents(w);
    }
  }

  lemma RecordSettles(env: Env, universe: set<TaskDecl>, w: World, t: TaskDecl, key: string)
    requires HashNames(env) && Tame(env, universe, t) && T.Honest(env, universe, w) && IsHashName(key) && key !in w.meta
    requires NoCollision(env, Contents(RecordResult(env, w, t, key).0))
    ensures var (w', result) := RecordResult(env, w, t, key);
            Later(w, w', {}) && InPlace(w', t, key, result)
  {
    hide RecordResult, ParseRecord, RestoreMap, CleanResultOf, NoCollision;
    var (w', result) := RecordResult(env, w, t, key);
    RecordMeans(env, w, t, key);
    T.RecordHonest(env, universe, w, t, key);
    OwnRecordInPlace(env, w', t);
  }

  /** execute_task changes declared outputs only, and leaves the record in place when it does not fail. */
  lemma ExecuteSettles(env: Env, universe: set<TaskDecl>, w: World, t: TaskDecl, key: string)
    requires HashNames(env) && Tame(env, universe, t) && T.Honest(env, universe, w) && IsHashName(key)
    requires InputsExist(w.files, t) && NoCollision(env, Contents(ExecuteTask(env, w, t, key).0))
    ensures var (w', e) := ExecuteTask(env, w, t, key);
            && Later(w, w', OutputSet(t))
            && (!e.Failure() ==> e.key == key && InPlace(w', t, key, e.result))
  {
    hide RecordResult, ParseRecord, RestoreAll, InPlace, NoCollision, Contents, WellFormed;
    if key in w.meta {
      RestoreSettles(w, t, key);
    } else {
      var r := RunCommand(env, w.files, t);
      var w1 := w.(files := w.files + r.writes);
      assert Later(w, w1, OutputSet(t));
      if r.ok {
        T.EditHonest(env, universe, w, w1.files);
        RecordSettles(env, universe, w1, t, key);
        LaterTransitive(w, w1, RecordResult(env, w1, t, key).0, OutputSet(t), {});
        assert OutputSet(t) + {} == OutputSet(t);
      }
    }
  }

  lemma RunTaskSettles(env: Env, universe: set<TaskDecl>, w: World, t: TaskDecl)
    requires HashNames(env) && Tame(env, universe, t) && T.Honest(env, universe, w)
    requires NoCollision(env, Contents(RunTask(env, w, t).0))
    ensures var (w', e) := RunTask(env, w, t);
            && T.Honest(env, universe, w') && Later(w, w', OutputSet(t))
            && (!e.Failure() && (forall p :: p in t.inputs ==> p !in t.outputs) ==> Settled(env, w', t, e.key, e.result))
  {
    hide KeyOf, ExecuteTask, T.Honest, NoCollision, Contents;
    T.TurnHonest(env, universe, w, t);
    HashTaskMeans(env, w, t);
    var (w1, key) := HashTask(env, w, t);
    T.GrownHonest(env, universe, w, w1, t.inputs);
    GrownIsLater(env, w, w1, t.inputs);
    if key.Some? {
      T.KeyIsHashName(env, w.files, t);
      ExecuteSettles(env, universe, w1, t, key.value);
      var w2 := ExecuteTask(env, w1, t, key.value).0;
      LaterTransitive(w, w1, w2, {}, OutputSet(t));
      assert {} + OutputSet(t) == OutputSet(t);
      if forall p :: p in t.inputs ==> p !in t.outputs {
        SameKey(env, w.files, w2.files, t);
      }
    }
  }

  // ---- Whole runs ------------------------------------------------------------------------------------

  function AllOutputs(ts: seq<TaskDecl>): set<string> {
    set t, o | t in ts && o in t.outputs :: o
  }

  /** No task writes an input of itself or of an earlier task, and no two tasks share an output. */
  ghost predicate NoOverwrites(ts: seq<TaskDecl>)
    decreases |ts|
  {
    ts != [] ==>
      && (forall p :: p in ts[0].inputs ==> p !in AllOutputs(ts))
      && (forall o :: o in ts[0].outputs ==> o !in AllOutputs(ts[1..]))
      && NoOverwrites(ts[1..])
  }

  lemma AllOutputsCons(ts: seq<TaskDecl>)
    requires ts != []
    ensures AllOutputs(ts) == OutputSet(ts[0]) + AllOutputs(ts[1..])
  {}

  /** A run keeps the store honest and changes declared outputs only. */
  lemma {:induction false} RunHonest(env: Env, universe: set<TaskDecl>, w: World, ts: seq<TaskDecl>)
    requires HashNames(env) && T.Honest(env, universe, w) && NoCollision(env, Occurring(env, w, ts))
    requires forall t :: t in ts ==> Tame(env, universe, t)
    ensures var w' := SerialRun(env, w, ts).0;
            T.Honest(env, universe, w') && Later(w, w', AllOutputs(ts))
    decreases |ts|
  {
    hide T.Honest, RunTask, Tame, HashNames, Contents;
    if ts != [] {
      assert ts[0] in ts && forall t :: t in ts[1..] ==> t in ts;
      var (w1, e) := RunTask(env, w, ts[0]);
      FirstOccurs(env, w, ts);
      RunTaskSettles(env, universe, w, ts[0]);
      AllOutputsCons(ts);
      if !e.Failure() {
        RunHonest(env, universe, w1, ts[1..]);
        LaterTransitive(w, w1, SerialRun(env, w1, ts[1..]).0, OutputSet(ts[0]), AllOutputs(ts[1..]));
      }
    }
  }

  lemma FirstOccurs(env: Env, w: World, ts: seq<TaskDecl>)
    requires ts != [] && NoCollision(env, Occurring(env, w, ts))
    ensures var w1 := RunTask(env, w, ts[0]).0;
            NoCollision(env, Contents(w1)) && NoCollision(env, Occurring(env, w1, ts[1..]))
  {
    hide NoCollision, RunTask, Contents;
    var w1 := RunTask(env, w, ts[0]).0;
    StartOccurs(env, w, ts);
    StartOccurs(env, w1, ts[1..]);
    FewerCollide(env, Occurring(env, w, ts), Occurring(env, w1, ts[1..]));
    FewerCollide(env, Occurring(env, w1, ts[1..]), Contents(w1));
  }

  /** After a fully successful run every task is settled under the key and result it reported. */
  lemma {:induction false} RunSettles(env: Env, universe: set<TaskDecl>, w: World, ts: seq<TaskDecl>, k: nat)
    requires HashNames(env) && T.Honest(env, universe, w) && NoOverwrites(ts) && NoCollision(env, Occurring(env, w, ts))
    requires forall t :: t in ts ==> Tame(env, universe, t)
    requires AllSucceeded(SerialRun(env, w, ts).1) && k < |ts|
    ensures var (w', ends) := SerialRun(env, w, ts);
            |ends| == |ts| && !ends[k].Failure() && Settled(env, w', ts[k], ends[k].key, ends[k].result)
    decreases |ts|
  {
    hide Settled, RunTask, Tame, HashNames, T.Honest, Contents, Occurring, NoCollision;
    assert ts[0] in ts && forall t :: t in ts[1..] ==> t in ts;
    var (w1, e) := RunTask(env, w, ts[0]);
    FirstOccurs(env, w, ts);
    RunTaskSettles(env, universe, w, ts[0]);
    AllOutputsCons(ts);
    var (w2, rest) := SerialRun(env, w1, ts[1..]);
    assert e in SerialRun(env, w, ts).1;
    assert SerialRun(env, w, ts).1 == [e] + rest;
    assert forall x :: x in rest ==> x in [e] + rest;
    if |ts| > 1 {
      RunSettles(env, universe, w1, ts[1..], if k == 0 then 0 else k - 1);
    }
    if k == 0 {
      RunHonest(env, universe, w1, ts[1..]);
      SettledStays(env, universe, w1, w2, AllOutputs(ts[1..]), ts[0], e.key, e.result);
    }
  }

  lemma AlreadyInPlus(m: Files, files: Files)
    requires AlreadyIn(m, files)
    ensures files + m == files
  {}

  /** A settled task is skipped: a cache hit with the same result, and no file or record changes. */
  lemma SettledSkips(env: Env, universe: set<TaskDecl>, w: World, t: TaskDecl, key: string, result: string)
    requires T.Honest(env, universe, w) && Settled(env, w, t, key, result)
    ensures var (w', e) := RunTask(env, w, t);
            e == Hit(key, result) && Grown(env, w, w', t.inputs)
  {
    hide T.Honest, KeyOf, ParseRecord, RestoreMap, RestoreAll;
    HashTaskMeans(env, w, t);
    var w1 := HashTask(env, w, t).0;
    var entries := ParseRecord(w.meta[key]).outputs;
    RecordedIsStored(env, universe, w, key);
    RestoreMapStable(w.objects, w1.objects, entries, t.outputs);
    RestoreAllIsMap(w1, entries, t.outputs);
    AlreadyInPlus(RestoreMap(w1.objects, entries, t.outputs), w1.files);
  }

  function HitOf(e: TaskEnd): TaskEnd {
    match e
    case Ran(k, r) => Hit(k, r)
    case _ => e
  }

  function HitsOf(ends: seq<TaskEnd>): (r: seq<TaskEnd>)
    ensures |r| == |ends| && forall i :: 0 <= i < |r| ==> r[i] == HitOf(ends[i])
  {
    seq(|ends|, i requires 0 <= i < |ends| => HitOf(ends[i]))
  }

  /** Growing the store keeps the other tasks settled. */
  lemma RestSettled(env: Env, universe: set<TaskDecl>, w: World, w1: World, ts: seq<TaskDecl>, ends: seq<TaskEnd>)
    requires T.Honest(env, universe, w) && Later(w, w1, {}) && |ends| == |ts| > 0
    requires forall i :: 0 <= i < |ts| ==> !ends[i].Failure() && Settled(env, w, ts[i], ends[i].key, ends[i].result)
    ensures forall i :: 0 <= i < |ts| - 1 ==>
              !ends[1..][i].Failure() && Settled(env, w1, ts[1..][i], ends[1..][i].key, ends[1..][i].result)
  {
    hide Settled, T.Honest;
    forall i | 0 <= i < |ts|
      ensures Settled(env, w1, ts[i], ends[i].key, ends[i].result)
    {
      SettledStays(env, universe, w, w1, {}, ts[i], ends[i].key, ends[i].result);
    }
  }

  lemma {:induction false} SettledRunSkips(env: Env, universe: set<TaskDecl>, w: World, ts: seq<TaskDecl>, ends: seq<TaskEnd>)
    requires T.Honest(env, universe, w) && |ends| == |ts|
    requires forall i :: 0 <= i < |ts| ==> !ends[i].Failure() && Settled(env, w, ts[i], ends[i].key, ends[i].result)
    ensures var (w', again) := SerialRun(env, w, ts);
            again == HitsOf(ends) && w'.files == w.files && w'.meta == w.meta
    decreases |ts|
  {
    hide Settled, RunTask, T.Honest;
    if ts != [] {
      var e := ends[0];
      SettledSkips(env, universe, w, ts[0], e.key, e.result);
      var w1 := RunTask(env, w, ts[0]).0;
      T.GrownHonest(env, universe, w, w1, ts[0].inputs);
      GrownIsLater(env, w, w1, ts[0].inputs);
      RestSettled(env, universe, w, w1, ts, ends);
      SettledRunSkips(env, universe, w1, ts[1..], ends[1..]);
      assert HitsOf(ends) == [HitOf(e)] + HitsOf(ends[1..]);
    }
  }

  /** After a fully successful run in which no task overwrites an input or another task's output, a
      second run on the files and the cache it left hits on every task, executes no command, changes no
      file and no record, and reports the same keys and results. No two of the contents that occurred in
      the first run may collide. */
  lemma WarmRerunDoesNoWork(env: Env, universe: set<TaskDecl>, w: World, ts: seq<TaskDecl>)
    requires HashNames(env) && T.Honest(env, universe, w) && NoOverwrites(ts) && NoCollision(env, Occurring(env, w, ts))
    requires forall t :: t in ts ==> Tame(env, universe, t)
    requires AllSucceeded(SerialRun(env, w, ts).1)
    ensures var (w1, ends) := SerialRun(env, w, ts);
            var (w2, again) := SerialRun(env, w1, ts);
            && again == HitsOf(ends)
            && (forall e :: e in again ==> e.Hit?)
            && w2.files == w1.files && w2.meta == w1.meta
  {
    hide Settled, T.Honest, Tame, SerialRun, Occurring, NoCollision, NoOverwrites, HashNames;
    var (w1, ends) := SerialRun(env, w, ts);
    RunHonest(env, universe, w, ts);
    NothingRun(env, w);
    if ts != [] { RunSettles(env, universe, w, ts, 0); }
    forall i | 0 <= i < |ts|
      ensures !ends[i].Failure() && Settled(env, w1, ts[i], ends[i].key, ends[i].result)
    {
      RunSettles(env, universe, w, ts, i);
    }
    SettledRunSkips(env, universe, w1, ts, ends);
  }

  lemma NothingRun(env: Env, w: World)
    ensures SerialRun(env, w, []) == (w, [])
  {}
}
