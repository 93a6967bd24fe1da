/** What hashing, recording and restoring do to a world: files and records stay, objects are only
    added, and a restore is one map laid over the files. */
module StoreFacts {
  import opened Cache
  import opened Records
  import opened Tasks

  // ---- Growing the store ---------------------------------------------------------------------------

  /** w' has the files and records of w and at least its objects; every new object is the content of
      one of the files at paths, under its hash. */
  ghost predicate Grown(env: Env, w: World, w': World, paths: seq<string>) {
    && w'.files == w.files && w'.meta == w.meta
    && (forall h :: h in w.objects ==> h in w'.objects && w'.objects[h] == w.objects[h])
    && (forall h :: h in w'.objects && h !in w.objects ==> HeldAt(env, w.files, paths, h, w'.objects[h]))
  }

  ghost predicate HeldAt(env: Env, files: Files, paths: seq<string>, name: string, content: string) {
    env.hash(content) == name && exists p :: p in paths && p in files && files[p] == content
  }

  lemma StoreBlobGrows(env: Env, w: World, paths: seq<string>)
    requires paths != [] && paths[0] in w.files
    ensures Grown(env, w, StoreBlob(env, w, w.files[paths[0]]), paths)
    ensures env.hash(w.files[paths[0]]) in StoreBlob(env, w, w.files[paths[0]]).objects
  {
    assert paths[0] in paths;
  }

  lemma GrownTwice(env: Env, w0: World, w1: World, w2: World, paths: seq<string>, more: seq<string>)
    requires Grown(env, w0, w1, paths) && Grown(env, w1, w2, more) && forall p :: p in more ==> p in paths
    ensures Grown(env, w0, w2, paths)
  {}

  lemma {:induction false} HashInputsMeans(env: Env, w: World, inputs: seq<string>)
    ensures var (w', hashes) := HashInputs(env, w, inputs);
            && Grown(env, w, w', inputs)
            && (hashes.Some? <==> forall p :: p in inputs ==> p in w.files)
            && (hashes.Some? ==> hashes.value == HashesOf(env, w.files, inputs))
    decreases |inputs|
  {
    if inputs != [] {
      assert forall p :: p in inputs <==> p == inputs[0] || p in inputs[1..];
      if inputs[0] in w.files {
        var w1 := StoreBlob(env, w, w.files[inputs[0]]);
        StoreBlobGrows(env, w, inputs);
        HashInputsMeans(env, w1, inputs[1..]);
        GrownTwice(env, w, w1, HashInputs(env, w1, inputs[1..]).0, inputs, inputs[1..]);
      }
    }
  }

  /** compute_task_hash succeeds exactly when all inputs exist, and yields the task's key. */
  lemma HashTaskMeans(env: Env, w: World, t: TaskDecl)
    ensures var (w', key) := HashTask(env, w, t);
            && Grown(env, w, w', t.inputs)
            && (key.Some? <==> InputsExist(w.files, t))
            && (key.Some? ==> key.value == KeyOf(env, w.files, t))
  {
    HashInputsMeans(env, w, t.inputs);
  }

  lemma {:induction false} OutputHashesMeans(env: Env, w: World, outputs: seq<string>)
    ensures var (w', hashes) := OutputHashes(env, w, outputs);
            Grown(env, w, w', outputs) && hashes == HashOrEmpty(env, w.files, outputs)
    decreases |outputs|
  {
    if outputs != [] {
      assert forall p :: p in outputs <==> p == outputs[0] || p in outputs[1..];
      if outputs[0] in w.files { StoreBlobGrows(env, w, outputs); }
      var w1 := if outputs[0] in w.files then StoreBlob(env, w, w.files[outputs[0]]) else w;
      OutputHashesMeans(env, w1, outputs[1..]);
      GrownTwice(env, w, w1, OutputHashes(env, w1, outputs[1..]).0, outputs, outputs[1..]);
    }
  }

  // ---- Records ----------------------------------------------------------------------------------------

  /** The outputs that exist, in order. */
  function Present(files: Files, outputs: seq<string>): (r: seq<string>)
    ensures forall o :: o in r <==> o in outputs && o in files
    decreases |outputs|
  {
    if outputs == [] then []
    else
      assert forall p :: p in outputs <==> p == outputs[0] || p in outputs[1..];
      (if outputs[0] in files then [outputs[0]] else []) + Present(files, outputs[1..])
  }

  function EntriesOf(env: Env, files: Files, outputs: seq<string>): (r: seq<(string, string)>)
    requires forall o :: o in outputs ==> o in files
    ensures |r| == |outputs|
  {
    seq(|outputs|, i requires 0 <= i < |outputs| => (outputs[i], env.hash(files[outputs[i]])))
  }

  /** The record a task's result leaves on given files. */
  function RecordOf(env: Env, files: Files, t: TaskDecl): Record {
    Record(CleanResultOf(env, files, t), EntriesOf(env, files, Present(files, t.outputs)))
  }

  lemma {:induction false} RecordEntriesMeans(env: Env, w: World, outputs: seq<string>)
    ensures var (w', entries) := RecordEntries(env, w, outputs);
            && Grown(env, w, w', outputs)
            && entries == EntriesOf(env, w.files, Present(w.files, outputs))
            && (forall o :: o in outputs && o in w.files ==> env.hash(w.files[o]) in w'.objects)
    decreases |outputs|
  {
    if outputs != [] {
      assert forall o :: o in outputs <==> o == outputs[0] || o in outputs[1..];
      if outputs[0] in w.files { StoreBlobGrows(env, w, outputs); }
      var w1 := if outputs[0] in w.files then StoreBlob(env, w, w.files[outputs[0]]) else w;
      RecordEntriesMeans(env, w1, outputs[1..]);
      GrownTwice(env, w, w1, RecordEntries(env, w1, outputs[1..]).0, outputs, outputs[1..]);
      EntriesCons(env, w.files, outputs);
    }
  }

  lemma EntriesCons(env: Env, files: Files, outputs: seq<string>)
    requires outputs != []
    ensures var rest := EntriesOf(env, files, Present(files, outputs[1..]));
            EntriesOf(env, files, Present(files, outputs)) ==
            if outputs[0] in files then [(outputs[0], env.hash(files[outputs[0]]))] + rest else rest
  {}

  /** compute_result_hash and write_task_record: the record on the files as they are, with the contents of
      the existing outputs stored. */
  lemma RecordMeans(env: Env, w: World, t: TaskDecl, key: string)
    requires HashNames(env) && WellFormed(t) && IsHashName(key)
    ensures var (w', result) := RecordResult(env, w, t, key);
            && Grown(env, w, w'.(meta := w.meta), t.outputs)
            && key in w'.meta && w'.meta == w.meta[key := w'.meta[key]]
            && result == CleanResultOf(env, w.files, t)
            && ParseRecord(w'.meta[key]) == RecordOf(env, w.files, t)
            && (forall o :: o in t.outputs && o in w.files ==> env.hash(w.files[o]) in w'.objects)
  {
    hide ParseRecord, RecordText;
    var (w1, hashes) := OutputHashes(env, w, t.outputs);
    OutputHashesMeans(env, w, t.outputs);
    var (w2, entries) := RecordEntries(env, w1, t.outputs);
    RecordEntriesMeans(env, w1, t.outputs);
    GrownTwice(env, w, w1, w2, t.outputs, t.outputs);
    EntriesRecordable(env, w.files, t);
    RecordRoundTrip(key, ResultHash(env, hashes), entries);
  }

  lemma EntriesRecordable(env: Env, files: Files, t: TaskDecl)
    requires HashNames(env) && WellFormed(t)
    ensures RecordableEntries(EntriesOf(env, files, Present(files, t.outputs)))
  {}

  /** A record depends on the task's outputs only. */
  lemma {:induction false} SamePresent(files: Files, files': Files, outputs: seq<string>)
    requires forall o :: o in outputs ==> (o in files <==> o in files')
    ensures Present(files, outputs) == Present(files', outputs)
    decreases |outputs|
  {
    if outputs != [] {
      assert forall o :: o in outputs <==> o == outputs[0] || o in outputs[1..];
      SamePresent(files, files', outputs[1..]);
    }
  }

  lemma SameRecord(env: Env, files: Files, files': Files, t: TaskDecl)
    requires forall o :: o in t.outputs ==> (o in files <==> o in files') && (o in files ==> files[o] == files'[o])
    ensures CleanResultOf(env, files, t) == CleanResultOf(env, files', t) && RecordOf(env, files, t) == RecordOf(env, files', t)
  {
    SamePresent(files, files', t.outputs);
    assert forall i :: 0 <= i < |t.outputs| ==> t.outputs[i] in t.outputs;
    assert HashOrEmpty(env, files, t.outputs) == HashOrEmpty(env, files', t.outputs);
    assert EntriesOf(env, files, Present(files, t.outputs)) == EntriesOf(env, files', Present(files', t.outputs));
  }

  // ---- Restoring, as one map -------------------------------------------------------------------

  /** The files a record's entries put in place, whatever was there before. */
  function RestoreMap(objects: map<string, string>, entries: seq<(string, string)>, outputs: seq<string>): Files {
    if entries == [] then map[]
    else
      var e := entries[0];
      (if e.0 in outputs && |e.1| >= 3 && e.1 in objects then map[e.0 := objects[e.1]] else map[]) +
      RestoreMap(objects, entries[1..], outputs)
  }

  lemma {:induction false} RestoreEntryOnce(w: World, e: (string, string), outputs: seq<string>)
    ensures RestoreEntry(w, e, outputs) ==
            if e.0 in outputs && |e.1| >= 3 && e.1 in w.objects then w.(files := w.files[e.0 := w.objects[e.1]]) else w
    decreases |outputs|
  {
    if outputs != [] {
      assert forall o :: o in outputs <==> o == outputs[0] || o in outputs[1..];
      RestoreEntryOnce(if outputs[0] == e.0 then RestoreBlob(w, e.1, outputs[0]) else w, e, outputs[1..]);
      if e.1 in w.objects {
        assert w.files[e.0 := w.objects[e.1]][e.0 := w.objects[e.1]] == w.files[e.0 := w.objects[e.1]];
      }
    }
  }

  lemma {:induction false} RestoreAllIsMap(w: World, entries: seq<(string, string)>, outputs: seq<string>)
    ensures RestoreAll(w, entries, outputs) == w.(files := w.files + RestoreMap(w.objects, entries, outputs))
    decreases |entries|
  {
    if entries == [] {
      assert w.files + map[] == w.files;
    } else {
      var e := entries[0];
      RestoreEntryOnce(w, e, outputs);
      RestoreAllIsMap(RestoreEntry(w, e, outputs), entries[1..], outputs);
      MapSum(w.files, e.0, if e.1 in w.objects then w.objects[e.1] else "", RestoreMap(w.objects, entries[1..], outputs));
    }
  }

  lemma MapSum(files: Files, name: string, content: string, m: Files)
    ensures files[name := content] + m == files + (map[name := content] + m)
    ensures files + m == files + (map[] + m)
  {}

  lemma {:induction false} RestoreMapFacts(objects: map<string, string>, entries: seq<(string, string)>, outputs: seq<string>)
    ensures forall p :: p in RestoreMap(objects, entries, outputs) ==>
              p in outputs && exists e :: e in entries && e.0 == p && e.1 in objects &&
                                          RestoreMap(objects, entries, outputs)[p] == objects[e.1]
    decreases |entries|
  {
    if entries != [] {
      var e, rest := entries[0], entries[1..];
      RestoreMapFacts(objects, rest, outputs);
      assert e in entries && forall x :: x in rest ==> x in entries;
    }
  }

  lemma {:induction false} RestoreMapStable(objects: map<string, string>, objects': map<string, string>,
                                            entries: seq<(string, string)>, outputs: seq<string>)
    requires forall h :: h in objects ==> h in objects' && objects'[h] == objects[h]
    requires forall e :: e in entries ==> e.1 in objects
    ensures RestoreMap(objects', entries, outputs) == RestoreMap(objects, entries, outputs)
    decreases |entries|
  {
    if entries != [] {
      assert entries[0] in entries && forall x :: x in entries[1..] ==> x in entries;
      RestoreMapStable(objects, objects', entries[1..], outputs);
    }
  }

  /** Every entry that names an output of the task is stored with the source's content. */
  ghost predicate Supplies(objects: map<string, string>, entries: seq<(string, string)>, source: Files) {
    forall e :: e in entries ==> e.0 in source && |e.1| >= 3 && e.1 in objects && objects[e.1] == source[e.0]
  }

  /** The part of source at the entries' names among outputs. */
  function Selected(source: Files, entries: seq<(string, string)>, outputs: seq<string>): Files {
    map p | p in source && p in outputs && p in EntryNames(entries) :: source[p]
  }

  function EntryNames(entries: seq<(string, string)>): set<string> {
    set e | e in entries :: e.0
  }

  lemma {:induction false} SuppliedMap(objects: map<string, string>, entries: seq<(string, string)>, outputs: seq<string>, source: Files)
    requires Supplies(objects, entries, source)
    ensures RestoreMap(objects, entries, outputs) == Selected(source, entries, outputs)
    decreases |entries|
  {
    if entries != [] {
      var e, rest := entries[0], entries[1..];
      assert e in entries && forall x :: x in entries <==> x == e || x in rest;
      SuppliedMap(objects, rest, outputs, source);
      assert EntryNames(entries) == EntryNames(rest) + {e.0};
      SelectedCons(source, e, rest, outputs);
    }
  }

  lemma SelectedCons(source: Files, e: (string, string), rest: seq<(string, string)>, outputs: seq<string>)
    requires e.0 in source
    ensures Selected(source, [e] + rest, outputs) ==
            (if e.0 in outputs then map[e.0 := source[e.0]] else map[]) + Selected(source, rest, outputs)
  {
    assert forall x :: x in [e] + rest <==> x == e || x in rest;
    assert EntryNames([e] + rest) == EntryNames(rest) + {e.0};
  }
}
