/** The working directory with its store and cache as an object, and the operations on tasks that
    change them, each proved to do what the functions of Cache say. */
module Workspace {
  import opened Cache
  import opened Graphs
  import opened Records
  import opened Sorting
  import opened Tasks
  import opened Text

  class Workspace {
    const env: Env
    var files: Files
    var objects: map<string, string>
    var meta: map<string, string>

    function Value(): World
      reads this
    {
      World(files, objects, meta)
    }

    constructor (env: Env, w: World)
      ensures this.env == env && Value() == w
    {
      this.env := env;
      files, objects, meta := w.files, w.objects, w.meta;
    }

    // ---- Blobs ----------------------------------------------------------------------------------

    /** cas_store_blob_from_file: no name for a missing file; an existing object is left alone. */
    method StoreBlobFromFile(path: string) returns (name: Option<string>)
      modifies this
      ensures path !in old(files) ==> name == None && Value() == old(Value())
      ensures path in old(files) ==>
                name == Some(env.hash(old(files)[path])) && Value() == StoreBlob(env, old(Value()), old(files)[path])
    {
      if path !in files {
        return None;
      }
      var h := env.hash(files[path]);
      if h !in objects {
        objects := objects[h := files[path]];
      }
      name := Some(h);
    }

    /** cas_restore_blob_to_file */
    method RestoreBlobToFile(name: string, dest: string)
      modifies this
      ensures Value() == RestoreBlob(old(Value()), name, dest)
      ensures |name| < 3 || name !in old(objects) ==> files == old(files)
      ensures |name| >= 3 && name in old(objects) ==> files == old(files)[dest := objects[name]]
    {
      if |name| < 3 {
        return;
      }
      if name !in objects {
        return;
      }
      files := files[dest := objects[name]];
    }

    // ---- The task key -----------------------------------------------------------------------------

    /** task.c:270-284: the names of the inputs, in order, up to the first missing file. */
    method HashTheInputs(inputs: seq<string>) returns (hashes: Option<seq<string>>)
      modifies this
      ensures (Value(), hashes) == HashInputs(env, old(Value()), inputs)
    {
      var found: seq<string> := [];
      ghost var goal := HashInputs(env, Value(), inputs);
      assert inputs[0..] == inputs;
      PutBefore([], goal);
      for i := 0 to |inputs|
        invariant goal == Before(found, HashInputs(env, Value(), inputs[i..]))
      {
        assert inputs[i..][1..] == inputs[i + 1..];
        ghost var w := Value();
        var h := StoreBlobFromFile(inputs[i]);
        if h.None? {
          return None;
        }
        BeforeStep(found, h.value, HashInputs(env, Value(), inputs[i + 1..]));
        found := found + [h.value];
      }
      assert inputs[|inputs|..] == [];
      PutBefore(found, (Value(), Some([])));
      hashes := Some(found);
    }

    /** task.c:305-346: the key text, built from the sorted hashes. */
    method BuildKeyText(t: Task, hashes: seq<string>) returns (text: string)
      ensures text == KeyText(CommandText(t.decl), hashes, |t.decl.deps|)
    {
      hide Sort, Join, Commas;
      text := "cmd=";
      text := text + (match t.decl.cmd case Some(c) => c case None => "");
      text := text + "\n";
      if |hashes| > 0 {
        var sorted := SortedCopy(hashes);
        text := text + "inputs=";
        var list := JoinStrings(sorted, ",");
        text := text + list + "\n";
      } else {
        text := text + "inputs=\n";
      }
      var head := text;
      var n := |t.decl.deps|;
      NoCommas();
      if n > 0 {
        text := text + "deps=";
        for i := 0 to n
          invariant text == head + "deps=" + Commas(if i < n then i else n - 1)
        {
          if i + 1 < n {
            text := text + ",";
            CommasMore(i);
          }
        }
        text := text + "\n";
      } else {
        text := text + "deps=\n";
      }
    }

    /** compute_task_hash */
    method ComputeTaskHash(t: Task) returns (ok: bool)
      modifies this, t`taskHash
      ensures var (w, key) := HashTask(env, old(Value()), t.decl);
              && Value() == w && ok == key.Some?
              && t.taskHash == if key.Some? then key else old(t.taskHash)
    {
      var hashes := HashTheInputs(t.decl.inputs);
      if hashes.None? {
        return false;
      }
      var text := BuildKeyText(t, hashes.value);
      t.taskHash := Some(env.hash(text));
      ok := true;
    }

    // ---- Records ------------------------------------------------------------------------------------

    /** task.c:416-426: every recorded output that the task declares is restored. */
    method RestoreOutputs(entries: seq<(string, string)>, outputs: seq<string>)
      modifies this
      ensures Value() == RestoreAll(old(Value()), entries, outputs)
    {
      ghost var goal := RestoreAll(Value(), entries, outputs);
      assert entries[0..] == entries;
      for i := 0 to |entries|
        invariant RestoreAll(Value(), entries[i..], outputs) == goal
      {
        assert entries[i..][1..] == entries[i + 1..];
        RestoreOne(entries[i], outputs);
      }
    }

    method RestoreOne(e: (string, string), outputs: seq<string>)
      modifies this
      ensures Value() == RestoreEntry(old(Value()), e, outputs)
    {
      ghost var goal := RestoreEntry(Value(), e, outputs);
      assert outputs[0..] == outputs;
      for j := 0 to |outputs|
        invariant RestoreEntry(Value(), e, outputs[j..]) == goal
      {
        assert outputs[j..][1..] == outputs[j + 1..];
        if outputs[j] == e.0 {
          RestoreBlobToFile(e.1, outputs[j]);
        }
      }
    }

    /** try_load_task_record: a hit sets the result hash, restores the outputs and marks the task. */
    method TryLoadRecord(t: Task) returns (hit: bool)
      modifies this, t`resultHash, t`status
      ensures hit <==> t.taskHash.Some? && t.taskHash.value in old(meta)
      ensures !hit ==> Value() == old(Value()) && t.resultHash == old(t.resultHash) && t.status == old(t.status)
      ensures hit ==>
                var r := ParseRecord(old(meta)[t.taskHash.value]);
                && Value() == RestoreAll(old(Value()), r.outputs, t.decl.outputs)
                && t.resultHash == Some(r.resultHash) && t.status == Skipped
    {
      hide RestoreAll, ParseRecord;
      if t.taskHash.None? || t.taskHash.value !in meta {
        return false;
      }
      var r := ReadRecord(meta[t.taskHash.value]);
      t.resultHash := Some(r.resultHash);
      RestoreOutputs(r.outputs, t.decl.outputs);
      t.status := Skipped;
      hit := true;
    }

    /** task.c:453-462: the names of the outputs, "" for a missing one. */
    method HashTheOutputs(outputs: seq<string>) returns (hashes: seq<string>)
      modifies this
      ensures (Value(), hashes) == OutputHashes(env, old(Value()), outputs)
    {
      hashes := [];
      ghost var goal := OutputHashes(env, Value(), outputs);
      assert outputs[0..] == outputs;
      assert [] + goal.1 == goal.1;
      for i := 0 to |outputs|
        invariant var r := OutputHashes(env, Value(), outputs[i..]); goal == (r.0, hashes + r.1)
      {
        assert outputs[i..][1..] == outputs[i + 1..];
        var h := StoreBlobFromFile(outputs[i]);
        var name := if h.None? then "" else h.value;
        ghost var r := OutputHashes(env, Value(), outputs[i + 1..]);
        assert hashes + ([name] + r.1) == hashes + [name] + r.1;
        hashes := hashes + [name];
      }
      assert outputs[|outputs|..] == [];
      assert hashes + [] == hashes;
    }

    /** compute_result_hash */
    method ComputeResultHash(t: Task)
      modifies this, t`resultHash
      ensures var (w, hashes) := OutputHashes(env, old(Value()), t.decl.outputs);
              Value() == w && t.resultHash == Some(ResultHash(env, hashes))
    {
      hide Sort, Join, OutputHashes;
      var hashes := HashTheOutputs(t.decl.outputs);
      var sorted := SortedCopy(hashes);
      var text := JoinStrings(sorted, ",");
      t.resultHash := Some(env.hash(text));
    }

    /** The output lines of a record, storing each output once more. */
    method WriteOutputLines(outputs: seq<string>) returns (text: string)
      modifies this
      ensures var (w, entries) := RecordEntries(env, old(Value()), outputs);
              Value() == w && text == OutputLines(entries)
    {
      text := "";
      ghost var goal := RecordEntries(env, Value(), outputs);
      assert outputs[0..] == outputs;
      for i := 0 to |outputs|
        invariant var r := RecordEntries(env, Value(), outputs[i..]);
                  goal.0 == r.0 && OutputLines(goal.1) == text + OutputLines(r.1)
      {
        assert outputs[i..][1..] == outputs[i + 1..];
        var h := StoreBlobFromFile(outputs[i]);
        if h.Some? {
          ghost var r := RecordEntries(env, Value(), outputs[i + 1..]);
          LinesCons((outputs[i], h.value), r.1);
          var line := "output " + outputs[i] + " " + h.value + "\n";
          assert text + (line + OutputLines(r.1)) == text + line + OutputLines(r.1);
          text := text + line;
        }
      }
      assert outputs[|outputs|..] == [];
      assert text + [] == text;
    }

    /** write_task_record, once the result hash is known. */
    method WriteRecord(t: Task)
      requires t.taskHash.Some? && t.resultHash.Some?
      modifies this
      ensures var (w, entries) := RecordEntries(env, old(Value()), t.decl.outputs);
              var key := t.taskHash.value;
              Value() == w.(meta := w.meta[key := RecordText(key, t.resultHash.value, entries)])
    {
      hide RecordEntries, OutputLines;
      var text := "task_hash: " + t.taskHash.value + "\n";
      text := text + "result_hash: " + t.resultHash.value + "\n";
      var lines := WriteOutputLines(t.decl.outputs);
      meta := meta[t.taskHash.value := text + lines];
    }

    // ---- Running --------------------------------------------------------------------------------------

    /** system(): what the command writes lands in the working directory, whatever its exit status. */
    method RunShell(t: Task) returns (ok: bool)
      modifies this
      ensures var r := RunCommand(env, old(files), t.decl);
              ok == r.ok && Value() == old(Value()).(files := old(files) + r.writes)
    {
      var r := RunCommand(env, files, t.decl);
      files := files + r.writes;
      ok := r.ok;
    }

    /** task.c:526-546: run the command and record its result. */
    method RunAndRecord(t: Task) returns (code: int)
      requires t.taskHash.Some? && t.taskHash.value !in meta
      modifies this, t`resultHash, t`status
      ensures var (w, e) := Cache.ExecuteTask(env, old(Value()), t.decl, t.taskHash.value);
              && Value() == w && code == (if e.Failure() then -1 else 0)
              && t.status == (if e.Failure() then Failed else Success)
              && (!e.Failure() ==> t.resultHash == Some(e.result))
    {
      hide OutputHashes, RecordEntries, RecordText, RunCommand, ResultHash;
      var ok := RunShell(t);
      if !ok {
        t.status := Failed;
        return -1;
      }
      ComputeResultHash(t);
      WriteRecord(t);
      t.status := Success;
      code := 0;
    }

    /** execute_task: hashes the task unless that was done before, uses a record or runs the command. */
    method Execute(t: Task) returns (code: int)
      modifies this, t`taskHash, t`resultHash, t`status
      ensures var (w, e) := ExecuteKnown(env, old(Value()), t.decl, old(t.taskHash));
              Value() == w && code == (if e.Failure() then -1 else 0) && Reports(t, e)
    {
      hide HashTask, RestoreAll, ParseRecord, RecordResult, RunCommand;
      t.status := Status.Running;
      if t.taskHash.None? {
        var ok := ComputeTaskHash(t);
        if !ok {
          assert HashTask(env, old(Value()), t.decl).1 == None;
          t.status := Failed;
          return -1;
        }
      }
      var hit := TryLoadRecord(t);
      if hit {
        t.status := Skipped;
        return 0;
      }
      code := RunAndRecord(t);
    }

    /** The loop of main: task after task, stopping at the first failure. */
    method RunAll(sorted: seq<Task>) returns (failed: bool)
      requires NoDup(sorted) && forall t :: t in sorted ==> t.taskHash == None
      modifies this, sorted`taskHash, sorted`resultHash, sorted`status
      ensures var (w, ends) := SerialRun(env, old(Value()), Decls(sorted));
              && Value() == w && failed == !AllSucceeded(ends) && |ends| <= |sorted|
              && ReportUpTo(sorted, ends)
              && (forall k :: |ends| <= k < |sorted| ==> sorted[k].status == old(sorted[k].status))
    {
      hide RunTask, Reports, SerialRun, NoDup, Decls;
      var all := Decls(sorted);
      ghost var ends: seq<TaskEnd> := [];
      ghost var goal := SerialRun(env, Value(), all);
      assert all[0..] == all && [] + goal.1 == goal.1;
      for i := 0 to |sorted|
        invariant |ends| == i && AllSucceeded(ends)
        invariant ReportUpTo(sorted, ends)
        invariant forall k :: i <= k < |sorted| ==> sorted[k].status == old(sorted[k].status) && sorted[k].taskHash == None
        invariant var r := SerialRun(env, Value(), all[i..]); goal == (r.0, ends + r.1)
      {
        assert all[i..][0] == sorted[i].decl && all[i..][1..] == all[i + 1..];
        ghost var e := RunTask(env, Value(), sorted[i].decl).1;
        RunCons(env, Value(), all[i..], ends);
        OthersDiffer(sorted, i);
        var stop := RunOne(sorted[i]);
        assert forall k :: 0 <= k < i ==> Reports(sorted[k], ends[k]);
        ends := ends + [e];
        if stop {
          assert e in ends;
          return true;
        }
      }
      RunNothing(env, Value(), all[|sorted|..]);
      assert ends + [] == ends;
      failed := false;
    }

    /** One turn of the loop: hash first, then execute. */
    method RunOne(t: Task) returns (failed: bool)
      requires t.taskHash == None
      modifies this, t`taskHash, t`resultHash, t`status
      ensures var (w, e) := RunTask(env, old(Value()), t.decl);
              Value() == w && failed == e.Failure() && Reports(t, e)
    {
      hide HashTask, Cache.ExecuteTask;
      var ok := ComputeTaskHash(t);
      if !ok {
        assert HashTask(env, old(Value()), t.decl).1 == None;
        t.status := Failed;
        return true;
      }
      var r := Execute(t);
      failed := r != 0;
    }
  }

  /** execute_task on values, with the hash if it is known already. */
  function ExecuteKnown(env: Env, w: World, t: TaskDecl, hash: Option<string>): (World, TaskEnd) {
    match hash
    case None => RunTask(env, w, t)
    case Some(key) => ExecuteTask(env, w, t, key)
  }

  /** What a task's fields say after its turn. */
  ghost predicate Reports(t: Task, e: TaskEnd)
    reads t`status, t`taskHash, t`resultHash
  {
    match e
    case HashError => t.status == Failed
    case ExecError => t.status == Failed
    case Hit(key, result) => t.status == Skipped && t.taskHash == Some(key) && t.resultHash == Some(result)
    case Ran(key, result) => t.status == Success && t.taskHash == Some(key) && t.resultHash == Some(result)
  }

  ghost predicate ReportUpTo(tasks: seq<Task>, ends: seq<TaskEnd>)
    reads tasks`status, tasks`taskHash, tasks`resultHash
  {
    |ends| <= |tasks| && forall k :: 0 <= k < |ends| ==> Reports(tasks[k], ends[k])
  }

  lemma OthersDiffer(tasks: seq<Task>, i: nat)
    requires NoDup(tasks) && i < |tasks|
    ensures forall k :: 0 <= k < |tasks| && k != i ==> tasks[k] != tasks[i]
  {}

  lemma RunNothing(env: Env, w: World, ts: seq<TaskDecl>)
    requires ts == []
    ensures SerialRun(env, w, ts) == (w, [])
  {}

  lemma RunCons(env: Env, w: World, ts: seq<TaskDecl>, ends: seq<TaskEnd>)
    requires ts != []
    ensures var (w1, e) := RunTask(env, w, ts[0]);
            var r, r1 := SerialRun(env, w, ts), SerialRun(env, w1, ts[1..]);
            (r.0, ends + r.1) == if e.Failure() then (w1, ends + [e]) else (r1.0, ends + [e] + r1.1)
  {
    var (w1, e) := RunTask(env, w, ts[0]);
    var r1 := SerialRun(env, w1, ts[1..]);
    assert ends + ([e] + r1.1) == ends + [e] + r1.1;
  }

  lemma LinesCons(e: (string, string), rest: seq<(string, string)>)
    ensures OutputLines([e] + rest) == "output " + e.0 + " " + e.1 + "\n" + OutputLines(rest)
  {}

  /** Hashes found before those a later part of the loop finds. */
  function Before(found: seq<string>, r: (World, Option<seq<string>>)): (World, Option<seq<string>>) {
    (r.0, match r.1 case None => None case Some(more) => Some(found + more))
  }

  lemma PutBefore(found: seq<string>, r: (World, Option<seq<string>>))
    ensures Before([], r) == r
    ensures r.1 == Some([]) ==> Before(found, r) == (r.0, Some(found))
  {
    if r.1.Some? {
      assert [] + r.1.value == r.1.value;
      assert found + [] == found;
    }
  }

  lemma BeforeStep(found: seq<string>, h: string, r: (World, Option<seq<string>>))
    ensures Before(found, (r.0, match r.1 case None => None case Some(more) => Some([h] + more))) == Before(found + [h], r)
  {
    if r.1.Some? { assert found + ([h] + r.1.value) == found + [h] + r.1.value; }
  }

  lemma NoCommas()
    ensures Commas(0) == "" && Join(Sort([]), ",") == ""
  {}

  lemma {:induction false} CommasMore(i: nat)
    ensures Commas(i) + "," == Commas(i + 1)
  {
    if i > 0 { CommasMore(i - 1); }
  }

  /** The exchange sort on an array holding the hashes. */
  method SortedCopy(hashes: seq<string>) returns (sorted: seq<string>)
    ensures sorted == Sort(hashes)
  {
    var a := new string[|hashes|](i requires 0 <= i < |hashes| => hashes[i]);
    assert a[..] == hashes;
    ExchangeSort(a);
    sorted := a[..];
  }
}
