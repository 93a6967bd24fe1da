/** The state of store and cache between runs, and exactly when a run through the cache leaves what a run
    of every command leaves. */
module Transparency {
  import opened Cache
  import opened Records
  import opened StoreFacts
  import opened Tasks

  // ---- The invariant ------------------------------------------------------------------------

  /** Each object hashes to its name and is one of the contents in seen. */
  ghost predicate StoreInv(env: Env, seen: iset<string>, objects: map<string, string>) {
    forall h :: h in objects ==> env.hash(objects[h]) == h && objects[h] in seen
  }

  /** Record text `text` under `key` is what turn a left, with the outputs it lists stored as they were. */
  ghost predicate WrittenBy(env: Env, objects: map<string, string>, key: string, text: string, a: Turn) {
    && Succeeds(env, a) && KeyOf(env, a.files, a.task) == key
    && ParseRecord(text) == RecordOf(env, After(env, a), a.task)
    && (forall o :: o in a.task.outputs && o in After(env, a) ==>
          env.hash(After(env, a)[o]) in objects && objects[env.hash(After(env, a)[o])] == After(env, a)[o])
  }

  ghost predicate Explained(env: Env, occ: iset<Turn>, objects: map<string, string>, key: string, text: string) {
    exists a :: a in occ && WrittenBy(env, objects, key, text, a)
  }

  /** The store is honest about contents of seen, and each record was left by a turn that occurred. */
  ghost predicate CacheInv(env: Env, occ: iset<Turn>, seen: iset<string>, w: World) {
    && StoreInv(env, seen, w.objects)
    && (forall k :: k in w.meta ==> Explained(env, occ, w.objects, k, w.meta[k]))
  }

  lemma GrownKeepsStore(env: Env, seen: iset<string>, w: World, w': World, paths: seq<string>)
    requires StoreInv(env, seen, w.objects) && Grown(env, w, w', paths)
    requires forall p :: p in paths && p in w.files ==> w.files[p] in seen
    ensures StoreInv(env, seen, w'.objects)
  {
    forall h | h in w'.objects && h !in w.objects
      ensures w'.objects[h] in seen
    {
      assert HeldAt(env, w.files, paths, h, w'.objects[h]);
    }
  }

  lemma StillWritten(env: Env, objects: map<string, string>, objects': map<string, string>, key: string, text: string, a: Turn)
    requires WrittenBy(env, objects, key, text, a)
    requires forall h :: h in objects ==> h in objects' && objects'[h] == objects[h]
    ensures WrittenBy(env, objects', key, text, a)
  {}

  lemma StillExplained(env: Env, occ: iset<Turn>, objects: map<string, string>, objects': map<string, string>, key: string, text: string)
    requires Explained(env, occ, objects, key, text)
    requires forall h :: h in objects ==> h in objects' && objects'[h] == objects[h]
    ensures Explained(env, occ, objects', key, text)
  {
    var a :| a in occ && WrittenBy(env, objects, key, text, a);
    StillWritten(env, objects, objects', key, text, a);
  }

  lemma GrownKeepsInv(env: Env, occ: iset<Turn>, seen: iset<string>, w: World, w': World, paths: seq<string>)
    requires CacheInv(env, occ, seen, w) && Grown(env, w, w', paths)
    requires forall p :: p in paths && p in w.files ==> w.files[p] in seen
    ensures CacheInv(env, occ, seen, w')
  {
    hide Explained, StoreInv;
    GrownKeepsStore(env, seen, w, w', paths);
    forall k | k in w'.meta
      ensures Explained(env, occ, w'.objects, k, w'.meta[k])
    {
      StillExplained(env, occ, w.objects, w'.objects, k, w.meta[k]);
    }
  }

  /** In an honest store without collisions, a stored name gives back its content. */
  lemma StoredContent(env: Env, seen: iset<string>, objects: map<string, string>, content: string)
    requires NoCollision(env, seen) && StoreInv(env, seen, objects) && content in seen
    requires env.hash(content) in objects
    ensures objects[env.hash(content)] == content
  {}

  // ---- Recording ----------------------------------------------------------------------------------------

  /** Recording on files that hold turn a's outputs leaves a's record. */
  lemma RecordWritten(env: Env, seen: iset<string>, w: World, a: Turn, key: string)
    requires HashNames(env) && NoCollision(env, seen) && WellFormed(a.task) && Known(env, seen, a)
    requires StoreInv(env, seen, w.objects) && Succeeds(env, a) && key == KeyOf(env, a.files, a.task)
    requires forall o :: o in a.task.outputs ==> (o in w.files <==> o in After(env, a)) && (o in w.files ==> w.files[o] == After(env, a)[o])
    ensures var (w', result) := RecordResult(env, w, a.task, key);
            && Grown(env, w, w'.(meta := w.meta), a.task.outputs)
            && key in w'.meta && w'.meta == w.meta[key := w'.meta[key]]
            && WrittenBy(env, w'.objects, key, w'.meta[key], a)
            && result == CleanResultOf(env, After(env, a), a.task)
  {
    hide RecordResult, RecordOf, CleanResultOf, ParseRecord;
    var t := a.task;
    var (w', result) := RecordResult(env, w, t, key);
    RecordMeans(env, w, t, key);
    SameRecord(env, w.files, After(env, a), t);
    GrownKeepsStore(env, seen, w, w'.(meta := w.meta), t.outputs);
    forall o | o in t.outputs && o in After(env, a)
      ensures env.hash(After(env, a)[o]) in w'.objects && w'.objects[env.hash(After(env, a)[o])] == After(env, a)[o]
    {
      StoredContent(env, seen, w'.objects, After(env, a)[o]);
    }
  }

  /** And keeps the invariant. */
  lemma RecordInv(env: Env, occ: iset<Turn>, seen: iset<string>, w: World, a: Turn, key: string)
    requires HashNames(env) && NoCollision(env, seen) && WellFormed(a.task) && Known(env, seen, a)
    requires CacheInv(env, occ, seen, w) && a in occ && Succeeds(env, a) && key == KeyOf(env, a.files, a.task)
    requires forall o :: o in a.task.outputs ==> (o in w.files <==> o in After(env, a)) && (o in w.files ==> w.files[o] == After(env, a)[o])
    ensures var (w', result) := RecordResult(env, w, a.task, key);
            && w'.files == w.files && w'.meta.Keys == w.meta.Keys + {key}
            && CacheInv(env, occ, seen, w')
            && result == CleanResultOf(env, After(env, a), a.task)
  {
    hide RecordResult, CleanResultOf, WrittenBy, NoCollision, HashNames, StoreInv;
    var w' := RecordResult(env, w, a.task, key).0;
    RecordWritten(env, seen, w, a, key);
    var w1 := w'.(meta := w.meta);
    GrownKeepsInv(env, occ, seen, w, w1, a.task.outputs);
    AddRecord(env, occ, seen, w1, w', key);
  }

  lemma AddRecord(env: Env, occ: iset<Turn>, seen: iset<string>, w1: World, w': World, key: string)
    requires CacheInv(env, occ, seen, w1) && w'.objects == w1.objects
    requires key in w'.meta && w'.meta == w1.meta[key := w'.meta[key]]
    requires Explained(env, occ, w'.objects, key, w'.meta[key])
    ensures CacheInv(env, occ, seen, w')
  {
    hide Explained;
  }

  // ---- Hits -----------------------------------------------------------------------------------------------

  /** Every entry of a record left by turn a is stored with the content a left. */
  lemma RecordSupplies(env: Env, objects: map<string, string>, key: string, text: string, a: Turn)
    requires HashNames(env) && WrittenBy(env, objects, key, text, a)
    ensures Supplies(objects, ParseRecord(text).outputs, After(env, a))
    ensures EntryNames(ParseRecord(text).outputs) == set o | o in a.task.outputs && o in After(env, a)
  {
    hide CleanResultOf, ParseRecord, KeyOf, Supplies, EntryNames, EntriesOf, After, Succeeds;
    var after := After(env, a);
    var names := Present(after, a.task.outputs);
    EntriesSupply(env, objects, after, names);
    EntriesName(env, after, names);
  }

  lemma EntriesSupply(env: Env, objects: map<string, string>, files: Files, names: seq<string>)
    requires HashNames(env) && forall o :: o in names ==> o in files
    requires forall o :: o in names ==> env.hash(files[o]) in objects && objects[env.hash(files[o])] == files[o]
    ensures Supplies(objects, EntriesOf(env, files, names), files)
  {}

  lemma EntriesName(env: Env, files: Files, names: seq<string>)
    requires forall o :: o in names ==> o in files
    ensures EntryNames(EntriesOf(env, files, names)) == set o | o in names
  {
    var entries := EntriesOf(env, files, names);
    forall o | o in names
      ensures o in EntryNames(entries)
    {
      var i :| 0 <= i < |names| && names[i] == o;
      assert entries[i] in entries;
    }
  }

  /** A hit on the record of turn a lays a's outputs over the files, whatever they are, and reports a's
      result. */
  lemma HitMeans(env: Env, w: World, a: Turn, t: TaskDecl, key: string)
    requires HashNames(env) && key in w.meta && WrittenBy(env, w.objects, key, w.meta[key], a)
    ensures ExecuteTask(env, w, t, key) ==
            (w.(files := w.files + Restored(env, a, t)), Hit(key, CleanResultOf(env, After(env, a), a.task)))
  {
    hide CleanResultOf;
    var after, entries := After(env, a), ParseRecord(w.meta[key]).outputs;
    RecordSupplies(env, w.objects, key, w.meta[key], a);
    RestoreAllIsMap(w, entries, t.outputs);
    SuppliedMap(w.objects, entries, t.outputs, after);
    assert Selected(after, entries, t.outputs) == Restored(env, a, t);
  }

  // ---- One turn -------------------------------------------------------------------------------------------

  /** A turn that does not meet a record does what its command does, and leaves its record. */
  lemma MissMeans(env: Env, occ: iset<Turn>, seen: iset<string>, w: World, t: TaskDecl)
    requires Storable(env, occ, seen) && CacheInv(env, occ, seen, w) && Turn(t, w.files) in occ
    requires InputsExist(w.files, t) && KeyOf(env, w.files, t) !in w.meta
    ensures var (w', e) := RunTask(env, w, t);
            && CacheInv(env, occ, seen, w')
            && (w'.files, Forget(e)) == CleanTask(env, w.files, t)
            && w'.meta.Keys == w.meta.Keys + if e.Failure() then {} else {KeyOf(env, w.files, t)}
  {
    hide RecordResult, CleanResultOf, Explained, KeyOf;
    var b := Turn(t, w.files);
    HashTaskMeans(env, w, t);
    var w1 := HashTask(env, w, t).0;
    GrownKeepsInv(env, occ, seen, w, w1, t.inputs);
    var r := RunCommand(env, w.files, t);
    var w2 := w1.(files := w.files + r.writes);
    FilesKeepInv(env, occ, seen, w1, w2.files);
    if r.ok {
      RecordInv(env, occ, seen, w2, b, KeyOf(env, w.files, t));
    }
  }

  /** A turn that meets the record of turn a does what HitMeans says. */
  lemma MetMeans(env: Env, occ: iset<Turn>, seen: iset<string>, w: World, t: TaskDecl) returns (a: Turn)
    requires HashNames(env) && CacheInv(env, occ, seen, w)
    requires forall p :: p in t.inputs && p in w.files ==> w.files[p] in seen
    requires InputsExist(w.files, t) && KeyOf(env, w.files, t) in w.meta
    ensures a in occ && Meets(env, a, Turn(t, w.files))
    ensures var (w', e) := RunTask(env, w, t);
            && CacheInv(env, occ, seen, w') && w'.meta == w.meta
            && w'.files == w.files + Restored(env, a, t)
            && e == Hit(KeyOf(env, w.files, t), CleanResultOf(env, After(env, a), a.task))
  {
    hide CleanResultOf, KeyOf, RestoreAll, RecordOf;
    var key := KeyOf(env, w.files, t);
    HashTaskMeans(env, w, t);
    var w1 := HashTask(env, w, t).0;
    GrownKeepsInv(env, occ, seen, w, w1, t.inputs);
    assert Explained(env, occ, w1.objects, key, w1.meta[key]);
    a :| a in occ && WrittenBy(env, w1.objects, key, w1.meta[key], a);
    HitMeans(env, w1, a, t, key);
    FilesKeepInv(env, occ, seen, w1, w.files + Restored(env, a, t));
  }

  lemma FilesKeepInv(env: Env, occ: iset<Turn>, seen: iset<string>, w: World, files: Files)
    requires CacheInv(env, occ, seen, w)
    ensures CacheInv(env, occ, seen, w.(files := files))
  {}

  /** A turn meeting the record of a is transparent exactly when that record may replace it. */
  lemma MetIsCleanIff(env: Env, w: World, t: TaskDecl, a: Turn, w': World, e: TaskEnd)
    requires InputsExist(w.files, t) && w'.files == w.files + Restored(env, a, t)
    requires e.Hit? && e.result == CleanResultOf(env, After(env, a), a.task)
    ensures (w'.files, Forget(e)) == CleanTask(env, w.files, t) <==> Replaceable(env, a, Turn(t, w.files))
  {
    hide CleanResultOf;
  }

  /** The turn through the cache ends with the files and the end of the command's own run. */
  ghost predicate TransparentAt(env: Env, w: World, t: TaskDecl) {
    var (w', e) := RunTask(env, w, t);
    (w'.files, Forget(e)) == CleanTask(env, w.files, t)
  }

  /** One turn keeps the invariant, and is transparent unless it meets a record that may not replace it. */
  lemma TurnMeans(env: Env, occ: iset<Turn>, seen: iset<string>, w: World, t: TaskDecl)
    requires Storable(env, occ, seen) && CacheInv(env, occ, seen, w) && Turn(t, w.files) in occ
    ensures CacheInv(env, occ, seen, RunTask(env, w, t).0)
    ensures (forall a :: a in occ ==> Interchangeable(env, a, Turn(t, w.files))) ==> TransparentAt(env, w, t)
  {
    hide CleanResultOf, Restored, KeyOf, Replaceable, Known, WellFormed;
    if !InputsExist(w.files, t) {
      HashTaskMeans(env, w, t);
      GrownKeepsInv(env, occ, seen, w, HashTask(env, w, t).0, t.inputs) by { KnownInputs(env, occ, seen, w.files, t); }
    } else if KeyOf(env, w.files, t) in w.meta {
      KnownInputs(env, occ, seen, w.files, t);
      var a := MetMeans(env, occ, seen, w, t);
      var (w', e) := RunTask(env, w, t);
      MetIsCleanIff(env, w, t, a, w', e);
    } else {
      MissMeans(env, occ, seen, w, t);
    }
  }

  lemma KnownInputs(env: Env, occ: iset<Turn>, seen: iset<string>, files: Files, t: TaskDecl)
    requires Storable(env, occ, seen) && Turn(t, files) in occ
    ensures forall p :: p in t.inputs && p in files ==> files[p] in seen
  {
    assert Known(env, seen, Turn(t, files));
  }

  /** Exactly when a hit is right: a ran and left its record, then the files are those of b and b has the
      key of a; b's turn ends like b's command if and only if a's record may replace b's command. */
  lemma SecondTurnIff(env: Env, seen: iset<string>, w: World, a: Turn, b: Turn)
    requires HashNames(env) && NoCollision(env, seen) && WellFormed(a.task) && Known(env, seen, a)
    requires StoreInv(env, seen, w.objects) && Meets(env, a, b) && KeyOf(env, a.files, a.task) !in w.meta
    ensures TransparentAt(env, RunTask(env, w.(files := a.files), a.task).0.(files := b.files), b.task) <==> Replaceable(env, a, b)
  {
    hide KeyOf, CleanResultOf, RecordResult, CleanTask, WrittenBy, NoCollision, HashNames, Restored, Replaceable, WellFormed, Known;
    var key := KeyOf(env, a.files, a.task);
    var w1 := FreshRecord(env, seen, w.(files := a.files), a);
    var w2 := w1.(files := b.files);
    HashTaskMeans(env, w2, b.task);
    var w3 := HashTask(env, w2, b.task).0;
    StillWritten(env, w1.objects, w3.objects, key, w1.meta[key], a);
    HitMeans(env, w3, a, b.task, key);
    var (w', e) := RunTask(env, w2, b.task);
    MetIsCleanIff(env, w2, b.task, a, w', e);
  }

  lemma FreshRecord(env: Env, seen: iset<string>, w: World, a: Turn) returns (w': World)
    requires HashNames(env) && NoCollision(env, seen) && WellFormed(a.task) && Known(env, seen, a)
    requires StoreInv(env, seen, w.objects) && w.files == a.files && Succeeds(env, a) && KeyOf(env, a.files, a.task) !in w.meta
    ensures w' == RunTask(env, w, a.task).0
    ensures var key := KeyOf(env, a.files, a.task); key in w'.meta && WrittenBy(env, w'.objects, key, w'.meta[key], a)
  {
    hide KeyOf, CleanResultOf, RecordResult, WrittenBy, NoCollision, HashNames, WellFormed;
    HashTaskMeans(env, w, a.task);
    var w1 := HashTask(env, w, a.task).0;
    GrownKeepsStore(env, seen, w, w1, a.task.inputs);
    RecordWritten(env, seen, w1.(files := After(env, a)), a, KeyOf(env, a.files, a.task));
    w' := RunTask(env, w, a.task).0;
  }

  // ---- Serial runs -----------------------------------------------------------------------------------------

  /** The turns a run of every command takes, up to and including the first failure. */
  function Turns(env: Env, f: Files, ts: seq<TaskDecl>): seq<Turn>
    decreases |ts|
  {
    if ts == [] then []
    else
      var (f1, e) := CleanTask(env, f, ts[0]);
      [Turn(ts[0], f)] + if e.CleanResult? then Turns(env, f1, ts[1..]) else []
  }

  lemma ForgetOne(e: TaskEnd)
    ensures ForgetAll([e]) == [Forget(e)]
  {}

  lemma ForgetCons(e: TaskEnd, rest: seq<TaskEnd>)
    ensures ForgetAll([e] + rest) == [Forget(e)] + ForgetAll(rest)
  {}

  /** Cache transparency: where the turns that have occurred are interchangeable, a serial run through the
      cache leaves the files, fails at the task and reports the result hashes of a run that executes
      every command, and keeps the invariant. */
  lemma {:induction false} CacheTransparency(env: Env, occ: iset<Turn>, seen: iset<string>, w: World, ts: seq<TaskDecl>)
    requires Storable(env, occ, seen) && CacheInv(env, occ, seen, w)
    requires forall a, b :: a in occ && b in occ ==> Interchangeable(env, a, b)
    requires forall b :: b in Turns(env, w.files, ts) ==> b in occ
    ensures var (w', ends) := SerialRun(env, w, ts);
            && CacheInv(env, occ, seen, w')
            && (w'.files, ForgetAll(ends)) == CleanRun(env, w.files, ts)
    decreases |ts|
  {
    hide Storable, CacheInv, Interchangeable, RunTask, CleanTask;
    if ts == [] {
      assert ForgetAll([]) == [];
    } else {
      assert Turn(ts[0], w.files) in Turns(env, w.files, ts);
      TurnMeans(env, occ, seen, w, ts[0]);
      var (w1, e) := RunTask(env, w, ts[0]);
      if e.Failure() {
        ForgetOne(e);
      } else {
        LaterTurns(env, w.files, ts);
        CacheTransparency(env, occ, seen, w1, ts[1..]);
        ForgetCons(e, SerialRun(env, w1, ts[1..]).1);
      }
    }
  }

  lemma LaterTurns(env: Env, f: Files, ts: seq<TaskDecl>)
    requires ts != [] && CleanTask(env, f, ts[0]).1.CleanResult?
    ensures forall b :: b in Turns(env, CleanTask(env, f, ts[0]).0, ts[1..]) ==> b in Turns(env, f, ts)
  {}

  lemma OneTask(env: Env, w: World, t: TaskDecl)
    ensures SerialRun(env, w, [t]) == (RunTask(env, w, t).0, [RunTask(env, w, t).1])
  {
    hide RunTask;
    assert [t][1..] == [];
    var (w1, e) := RunTask(env, w, t);
    assert [e] + [] == [e];
  }

  lemma TwoTasks(env: Env, w: World, t: TaskDecl, u: TaskDecl)
    ensures var (w1, e1) := RunTask(env, w, t);
            var (w2, e2) := RunTask(env, w1, u);
            !e1.Failure() ==> SerialRun(env, w, [t, u]) == (w2, [e1, e2])
  {
    hide RunTask;
    var (w1, e1) := RunTask(env, w, t);
    var (w2, e2) := RunTask(env, w1, u);
    assert [t, u][0] == t && [t, u][1..] == [u];
    OneTask(env, w1, u);
    assert [e1] + [e2] == [e1, e2];
  }

  lemma BothSucceed(e: TaskEnd, e': TaskEnd)
    requires !e.Failure() && !e'.Failure()
    ensures AllSucceeded([e, e'])
  {}

  // ---- Exactly when the cache is transparent ------------------------------------------------------------------

  const EMPTY := World(map[], map[], map[])

  /** The world after the given turns through the cache, from nothing, the files edited before each. */
  function Replay(env: Env, past: seq<Turn>): World {
    if past == [] then EMPTY
    else
      var a := past[|past| - 1];
      RunTask(env, Replay(env, past[..|past| - 1]).(files := a.files), a.task).0
  }

  /** After any turns of occ, any turn of occ is transparent. */
  ghost predicate AlwaysTransparent(env: Env, occ: iset<Turn>) {
    forall past: seq<Turn>, b: Turn {:trigger Replay(env, past), b in occ} ::
      (forall a :: a in past ==> a in occ) && b in occ ==> TransparentAt(env, Replay(env, past).(files := b.files), b.task)
  }

  lemma {:induction false} ReplayInv(env: Env, occ: iset<Turn>, seen: iset<string>, past: seq<Turn>)
    requires Storable(env, occ, seen) && forall a :: a in past ==> a in occ
    ensures CacheInv(env, occ, seen, Replay(env, past))
  {
    if past != [] {
      var init, a := past[..|past| - 1], past[|past| - 1];
      assert a in past && forall x :: x in init ==> x in past;
      ReplayInv(env, occ, seen, init);
      var w := Replay(env, init);
      FilesKeepInv(env, occ, seen, w, a.files);
      TurnMeans(env, occ, seen, w.(files := a.files), a.task);
    }
  }

  /** A successful turn from nothing leaves its own record and no other. */
  lemma FirstTurn(env: Env, seen: iset<string>, a: Turn)
    requires Storable(env, iset{a}, seen) && Succeeds(env, a)
    ensures var w := Replay(env, [a]);
            CacheInv(env, iset{a}, seen, w) && KeyOf(env, a.files, a.task) in w.meta
  {
    hide Storable, CacheInv, KeyOf, CleanTask, CleanResultOf;
    var w0 := EMPTY.(files := a.files);
    assert [a][..0] == [];
    assert CacheInv(env, iset{a}, seen, w0) by { NothingInv(env, iset{a}, seen, w0); }
    MissMeans(env, iset{a}, seen, w0, a.task);
    CleanSucceeds(env, a);
  }

  lemma NothingInv(env: Env, occ: iset<Turn>, seen: iset<string>, w: World)
    requires w.objects == map[] && w.meta == map[]
    ensures CacheInv(env, occ, seen, w)
  {}

  lemma CleanSucceeds(env: Env, a: Turn)
    requires Succeeds(env, a)
    ensures CleanTask(env, a.files, a.task).1.CleanResult?
  {}

  /** A turn that meets a record that may not replace it is not transparent. */
  lemma NotTransparent(env: Env, occ: iset<Turn>, seen: iset<string>, a: Turn, b: Turn)
    requires Storable(env, occ, seen) && a in occ && b in occ && AlwaysTransparent(env, occ)
    ensures Interchangeable(env, a, b)
  {
    hide KeyOf, CleanResultOf, Replaceable, Known, WellFormed, NoCollision, HashNames;
    if Meets(env, a, b) {
      assert Storable(env, iset{a}, seen);
      FirstTurn(env, seen, a);
      var w := Replay(env, [a]).(files := b.files);
      FilesKeepInv(env, iset{a}, seen, Replay(env, [a]), b.files);
      KnownInputs(env, occ, seen, b.files, b.task);
      var a' := MetMeans(env, iset{a}, seen, w, b.task);
      assert TransparentAt(env, w, b.task);
      var (w', e) := RunTask(env, w, b.task);
      MetIsCleanIff(env, w, b.task, a, w', e);
    }
  }

  /** The cache is transparent after every history of turns if and only if, wherever one of them can meet
      the record of another, that record does what the command would. */
  lemma TransparentIff(env: Env, occ: iset<Turn>, seen: iset<string>)
    requires Storable(env, occ, seen)
    ensures AlwaysTransparent(env, occ) <==> forall a, b :: a in occ && b in occ ==> Interchangeable(env, a, b)
  {
    hide Storable, Interchangeable, TransparentAt;
    if AlwaysTransparent(env, occ) {
      forall a, b | a in occ && b in occ
        ensures Interchangeable(env, a, b)
      {
        NotTransparent(env, occ, seen, a, b);
      }
    }
    if forall a, b :: a in occ && b in occ ==> Interchangeable(env, a, b) {
      forall past: seq<Turn>, b: Turn | (forall a :: a in past ==> a in occ) && b in occ
        ensures TransparentAt(env, Replay(env, past).(files := b.files), b.task)
      {
        ReplayInv(env, occ, seen, past);
        var w := Replay(env, past);
        FilesKeepInv(env, occ, seen, w, b.files);
        TurnMeans(env, occ, seen, w.(files := b.files), b.task);
      }
    }
  }

  // ---- Laws that give interchangeable turns -----------------------------------------------------------------------

  /** Turns with one key text declare the same outputs and have commands that do the same. */
  ghost predicate SameEffect(env: Env, a: Turn, b: Turn) {
    a.Ready() && b.Ready() && KeyTextOf(env, a.files, a.task) == KeyTextOf(env, b.files, b.task) ==>
      a.task.outputs == b.task.outputs && RunCommand(env, a.files, a.task) == RunCommand(env, b.files, b.task)
  }

  /** Commands that write their outputs and depend on the key text only, with no two key texts colliding. */
  lemma LawsSuffice(env: Env, texts: iset<string>, a: Turn, b: Turn)
    requires WritesOutputs(env, a.task) && WritesOutputs(env, b.task) && SameEffect(env, a, b)
    requires NoCollision(env, texts)
    requires a.Ready() ==> KeyTextOf(env, a.files, a.task) in texts
    requires b.Ready() ==> KeyTextOf(env, b.files, b.task) in texts
    ensures KeyLaw(env, a, b) && Interchangeable(env, a, b)
  {
    if Meets(env, a, b) {
      WritesAreRestored(env, a);
      SameWrites(env, a, b);
    }
  }

  lemma WritesAreRestored(env: Env, a: Turn)
    requires WritesOutputs(env, a.task) && Succeeds(env, a)
    ensures Restored(env, a, a.task) == RunCommand(env, a.files, a.task).writes
  {}

  lemma SameWrites(env: Env, a: Turn, b: Turn)
    requires WritesOutputs(env, a.task) && Succeeds(env, a) && b.Ready()
    requires a.task.outputs == b.task.outputs && RunCommand(env, a.files, a.task) == RunCommand(env, b.files, b.task)
    ensures CleanResultOf(env, After(env, a), a.task) == CleanResultOf(env, After(env, b), b.task)
  {
    forall o | o in a.task.outputs
      ensures o in RunCommand(env, a.files, a.task).writes
    {
      assert o in OutputSet(a.task);
    }
    assert forall i :: 0 <= i < |a.task.outputs| ==> a.task.outputs[i] in a.task.outputs;
    assert HashOrEmpty(env, After(env, a), a.task.outputs) == HashOrEmpty(env, After(env, b), b.task.outputs);
  }

  /** A turn whose command writes its outputs may meet its own record. */
  lemma OwnRecord(env: Env, a: Turn)
    requires WritesOutputs(env, a.task)
    ensures KeyLaw(env, a, a)
  {
    if Succeeds(env, a) { WritesAreRestored(env, a); }
  }

  // ---- Every reachable state ----------------------------------------------------------------------------------------

  function Listed(entries: seq<(string, string)>): (r: seq<string>)
    ensures |r| == |entries|
  {
    seq(|entries|, i requires 0 <= i < |entries| => entries[i].1)
  }

  /** A record that names outputs of t and stored objects; when it lists all outputs, its result is the
      hash of the sorted, comma-joined hashes it lists. */
  ghost predicate Describes(env: Env, objects: map<string, string>, r: Record, t: TaskDecl) {
    && (forall e :: e in r.outputs ==> e.0 in t.outputs && e.1 in objects)
    && (|r.outputs| == |t.outputs| ==> r.resultHash == ResultHash(env, Listed(r.outputs)))
  }

  ghost predicate Honest(env: Env, universe: set<TaskDecl>, w: World) {
    && (forall h :: h in w.objects ==> env.hash(w.objects[h]) == h)
    && (forall k :: k in w.meta ==> HonestRecord(env, universe, w.objects, w.meta[k]))
  }

  ghost predicate HonestRecord(env: Env, universe: set<TaskDecl>, objects: map<string, string>, text: string) {
    exists t :: t in universe && Describes(env, objects, ParseRecord(text), t)
  }

  /** What can happen to a working directory: a blob stored or restored, a task run, the files edited. */
  datatype Op = Store(content: string) | Restore(name: string, dest: string) | Run(task: TaskDecl) | Edit(files: Files)

  function Perform(env: Env, w: World, op: Op): World {
    match op
    case Store(content) => StoreBlob(env, w, content)
    case Restore(name, dest) => RestoreBlob(w, name, dest)
    case Run(t) => RunTask(env, w, t).0
    case Edit(files) => w.(files := files)
  }

  function PerformAll(env: Env, w: World, ops: seq<Op>): World
    decreases |ops|
  {
    if ops == [] then w else PerformAll(env, Perform(env, w, ops[0]), ops[1..])
  }

  lemma MoreObjects(env: Env, universe: set<TaskDecl>, w: World, w': World)
    requires Honest(env, universe, w) && w'.meta == w.meta
    requires forall h :: h in w.objects ==> h in w'.objects && w'.objects[h] == w.objects[h]
    requires forall h :: h in w'.objects ==> env.hash(w'.objects[h]) == h
    ensures Honest(env, universe, w')
  {
    forall k | k in w'.meta
      ensures HonestRecord(env, universe, w'.objects, w'.meta[k])
    {
      var t :| t in universe && Describes(env, w.objects, ParseRecord(w.meta[k]), t);
      assert Describes(env, w'.objects, ParseRecord(w'.meta[k]), t);
    }
  }

  lemma GrownHonest(env: Env, universe: set<TaskDecl>, w: World, w': World, paths: seq<string>)
    requires Honest(env, universe, w) && Grown(env, w, w', paths)
    ensures Honest(env, universe, w')
  {
    forall h | h in w'.objects
      ensures env.hash(w'.objects[h]) == h
    {
      if h !in w.objects { assert HeldAt(env, w.files, paths, h, w'.objects[h]); }
    }
    MoreObjects(env, universe, w, w');
  }

  lemma {:induction false} PresentAll(files: Files, outputs: seq<string>)
    ensures |Present(files, outputs)| <= |outputs|
    ensures |Present(files, outputs)| == |outputs| ==> Present(files, outputs) == outputs
    decreases |outputs|
  {
    if outputs != [] { PresentAll(files, outputs[1..]); }
  }

  lemma RecordDescribes(env: Env, objects: map<string, string>, files: Files, t: TaskDecl)
    requires forall o :: o in t.outputs && o in files ==> env.hash(files[o]) in objects
    ensures Describes(env, objects, RecordOf(env, files, t), t)
  {
    hide ResultHash;
    PresentAll(files, t.outputs);
    var r := RecordOf(env, files, t);
    if |r.outputs| == |t.outputs| {
      forall i | 0 <= i < |t.outputs|
        ensures HashOrEmpty(env, files, t.outputs)[i] == Listed(r.outputs)[i]
      {
        assert t.outputs[i] in Present(files, t.outputs);
      }
      assert HashOrEmpty(env, files, t.outputs) == Listed(r.outputs);
    }
  }

  lemma RecordHonest(env: Env, universe: set<TaskDecl>, w: World, t: TaskDecl, key: string)
    requires HashNames(env) && WellFormed(t) && IsHashName(key) && t in universe && Honest(env, universe, w)
    ensures Honest(env, universe, RecordResult(env, w, t, key).0)
  {
    hide RecordResult, ParseRecord, RecordOf, Describes, CleanResultOf, ResultHash;
    RecordMeans(env, w, t, key);
    var w' := RecordResult(env, w, t, key).0;
    GrownHonest(env, universe, w, w'.(meta := w.meta), t.outputs);
    RecordDescribes(env, w'.objects, w.files, t);
    forall k | k in w'.meta
      ensures HonestRecord(env, universe, w'.objects, w'.meta[k])
    {
      if k != key { assert HonestRecord(env, universe, w'.objects, w.meta[k]); }
    }
  }

  lemma TurnHonest(env: Env, universe: set<TaskDecl>, w: World, t: TaskDecl)
    requires HashNames(env) && WellFormed(t) && t in universe && Honest(env, universe, w)
    ensures Honest(env, universe, RunTask(env, w, t).0)
  {
    hide KeyOf, RecordResult, ParseRecord, RestoreAll;
    HashTaskMeans(env, w, t);
    var (w1, key) := HashTask(env, w, t);
    GrownHonest(env, universe, w, w1, t.inputs);
    if key.Some? {
      KeyIsHashName(env, w.files, t);
      if key.value in w1.meta {
        var entries := ParseRecord(w1.meta[key.value]).outputs;
        RestoreAllIsMap(w1, entries, t.outputs);
        MoreObjects(env, universe, w1, RestoreAll(w1, entries, t.outputs));
      } else {
        var w2 := w1.(files := w1.files + RunCommand(env, w1.files, t).writes);
        MoreObjects(env, universe, w1, w2);
        if RunCommand(env, w1.files, t).ok { RecordHonest(env, universe, w2, t, key.value); }
      }
    }
  }

  lemma KeyIsHashName(env: Env, files: Files, t: TaskDecl)
    requires HashNames(env) && InputsExist(files, t)
    ensures IsHashName(KeyOf(env, files, t))
  {}

  /** Store and cache stay honest through any sequence of stores, restores, runs and edits, whatever the
      commands do and whether or not contents collide. */
  lemma {:induction false} ReachableHonest(env: Env, universe: set<TaskDecl>, w: World, ops: seq<Op>)
    requires HashNames(env) && (forall t :: t in universe ==> WellFormed(t)) && Honest(env, universe, w)
    requires forall op :: op in ops && op.Run? ==> op.task in universe
    ensures Honest(env, universe, PerformAll(env, w, ops))
    decreases |ops|
  {
    hide Honest, RunTask;
    if ops != [] {
      var op := ops[0];
      assert op in ops && forall x :: x in ops[1..] ==> x in ops;
      match op {
        case Store(content) => StoreHonest(env, universe, w, content);
        case Restore(name, dest) => EditHonest(env, universe, w, RestoreBlob(w, name, dest).files);
        case Run(t) => TurnHonest(env, universe, w, t);
        case Edit(files) => EditHonest(env, universe, w, files);
      }
      ReachableHonest(env, universe, Perform(env, w, op), ops[1..]);
    }
  }

  lemma StoreHonest(env: Env, universe: set<TaskDecl>, w: World, content: string)
    requires Honest(env, universe, w)
    ensures Honest(env, universe, StoreBlob(env, w, content))
  {
    MoreObjects(env, universe, w, StoreBlob(env, w, content));
  }

  lemma EditHonest(env: Env, universe: set<TaskDecl>, w: World, files: Files)
    requires Honest(env, universe, w)
    ensures Honest(env, universe, w.(files := files))
  {}

  /** From any state reached from an empty store, storing a content and restoring it under any name gives
      the content back exactly when no different stored content has its hash. */
  lemma StoreThenRestore(env: Env, universe: set<TaskDecl>, files: Files, ops: seq<Op>, content: string, dest: string)
    requires HashNames(env) && (forall t :: t in universe ==> WellFormed(t))
    requires forall op :: op in ops && op.Run? ==> op.task in universe
    ensures var w := PerformAll(env, World(files, map[], map[]), ops);
            var w' := RestoreBlob(StoreBlob(env, w, content), env.hash(content), dest);
            && dest in w'.files
            && (w'.files[dest] == content <==>
                  forall h :: h in w.objects && env.hash(w.objects[h]) == env.hash(content) ==> w.objects[h] == content)
  {
    var w := PerformAll(env, World(files, map[], map[]), ops);
    ReachableHonest(env, universe, World(files, map[], map[]), ops);
    assert IsHashName(env.hash(content));
  }
}
