/** What keys, result hashes and turns mean in terms of tasks and file contents: when two turns have one
    key, when two results have one hash, and how a turn ends. */
module KeyFacts {
  import opened Cache
  import opened Records
  import opened Sorting
  import opened StoreFacts
  import opened Tasks
  import opened Text

  // ---- Contents and their names ------------------------------------------------------------------------

  /** The contents at the paths, in order; None for a missing file. */
  function ContentsOf(files: Files, paths: seq<string>): (r: seq<Option<string>>)
    ensures |r| == |paths|
    ensures forall i :: 0 <= i < |r| ==> r[i] == if paths[i] in files then Some(files[paths[i]]) else None
  {
    seq(|paths|, i requires 0 <= i < |paths| => if paths[i] in files then Some(files[paths[i]]) else None)
  }

  function NameOf(env: Env, x: Option<string>): string {
    match x
    case None => ""
    case Some(c) => env.hash(c)
  }

  function NamesOf(env: Env, xs: seq<Option<string>>): (r: seq<string>)
    ensures |r| == |xs| && forall i :: 0 <= i < |r| ==> r[i] == NameOf(env, xs[i])
  {
    seq(|xs|, i requires 0 <= i < |xs| => NameOf(env, xs[i]))
  }

  /** The contents among xs are in seen. */
  ghost predicate AllSeen(seen: iset<string>, xs: seq<Option<string>>) {
    forall x :: x in xs && x.Some? ==> x.value in seen
  }

  lemma NameDetermines(env: Env, seen: iset<string>, x: Option<string>, y: Option<string>)
    requires HashNames(env) && NoCollision(env, seen)
    requires (x.Some? ==> x.value in seen) && (y.Some? ==> y.value in seen)
    ensures NameOf(env, x) == NameOf(env, y) ==> x == y
  {
    assert x.Some? ==> IsHashName(env.hash(x.value));
    assert y.Some? ==> IsHashName(env.hash(y.value));
  }

  lemma FirstCounts<T>(s: seq<T>)
    requires s != []
    ensures multiset(s) == multiset{s[0]} + multiset(s[1..])
  {
    assert s == [s[0]] + s[1..];
  }

  lemma NamesRest(env: Env, xs: seq<Option<string>>)
    requires xs != []
    ensures NamesOf(env, xs)[1..] == NamesOf(env, xs[1..])
  {}

  /** A name occurs as often as its content. */
  lemma {:induction false} NameCounts(env: Env, seen: iset<string>, xs: seq<Option<string>>, x: Option<string>)
    requires HashNames(env) && NoCollision(env, seen) && AllSeen(seen, xs) && (x.Some? ==> x.value in seen)
    ensures multiset(NamesOf(env, xs))[NameOf(env, x)] == multiset(xs)[x]
  {
    hide HashNames, NoCollision, NameOf;
    if xs != [] {
      assert xs[0] in xs && forall y :: y in xs[1..] ==> y in xs;
      NameCounts(env, seen, xs[1..], x);
      NameDetermines(env, seen, xs[0], x);
      NamesRest(env, xs);
      FirstCounts(xs);
      FirstCounts(NamesOf(env, xs));
    }
  }

  lemma CountsDecide<T>(a: seq<T>, b: seq<T>)
    requires forall x :: x in a || x in b ==> multiset(a)[x] == multiset(b)[x]
    ensures multiset(a) == multiset(b)
  {
    forall x: T
      ensures multiset(a)[x] == multiset(b)[x]
    {
      if x !in a && x !in b {
        assert x !in multiset(a) && x !in multiset(b);
      }
    }
  }

  /** Without collisions, equal names as multisets are equal contents as multisets. */
  lemma SameNamesSameContents(env: Env, seen: iset<string>, xs: seq<Option<string>>, ys: seq<Option<string>>)
    requires HashNames(env) && NoCollision(env, seen) && AllSeen(seen, xs) && AllSeen(seen, ys)
    requires multiset(NamesOf(env, xs)) == multiset(NamesOf(env, ys))
    ensures multiset(xs) == multiset(ys)
  {
    hide HashNames, NoCollision, NameOf;
    forall x | x in xs || x in ys
      ensures multiset(xs)[x] == multiset(ys)[x]
    {
      NameCounts(env, seen, xs, x);
      NameCounts(env, seen, ys, x);
    }
    CountsDecide(xs, ys);
  }

  lemma NamesWithout(env: Env, ys: seq<Option<string>>, j: nat)
    requires j < |ys|
    ensures multiset(ys) == multiset(ys[..j] + ys[j + 1..]) + multiset{ys[j]}
    ensures multiset(NamesOf(env, ys)) == multiset(NamesOf(env, ys[..j] + ys[j + 1..])) + multiset{NameOf(env, ys[j])}
  {
    var names, rest := NamesOf(env, ys), ys[..j] + ys[j + 1..];
    assert ys == ys[..j] + [ys[j]] + ys[j + 1..];
    assert names == names[..j] + [names[j]] + names[j + 1..];
    assert NamesOf(env, rest) == names[..j] + names[j + 1..];
  }

  lemma Cancel<T>(a: multiset<T>, b: multiset<T>, x: T)
    requires multiset{x} + a == b + multiset{x}
    ensures a == b
  {
    assert a == multiset{x} + a - multiset{x};
    assert b == b + multiset{x} - multiset{x};
  }

  /** Equal contents as multisets have equal names, whatever collides. */
  lemma {:induction false} SameContentsSameNames(env: Env, xs: seq<Option<string>>, ys: seq<Option<string>>)
    requires multiset(xs) == multiset(ys)
    ensures multiset(NamesOf(env, xs)) == multiset(NamesOf(env, ys))
  {
    hide NameOf;
    if xs == [] {
      assert |multiset(ys)| == 0;
      assert NamesOf(env, xs) == NamesOf(env, ys);
    } else {
      FirstCounts(xs);
      assert xs[0] in multiset(ys);
      var j :| 0 <= j < |ys| && ys[j] == xs[0];
      NamesWithout(env, ys, j);
      Cancel(multiset(xs[1..]), multiset(ys[..j] + ys[j + 1..]), xs[0]);
      SameContentsSameNames(env, xs[1..], ys[..j] + ys[j + 1..]);
      FirstCounts(NamesOf(env, xs));
      NamesRest(env, xs);
    }
  }

  // ---- Keys ------------------------------------------------------------------------------------------------

  /** The commands agree, no command line counting as the empty command. */
  predicate SameCommand(t: TaskDecl, u: TaskDecl) {
    match (t.cmd, u.cmd)
    case (Some(c), Some(d)) => c == d
    case (Some(c), None) => c == ""
    case (None, Some(d)) => d == ""
    case (None, None) => true
  }

  predicate OneLineCommand(t: TaskDecl) {
    t.cmd.Some? ==> '\n' !in t.cmd.value
  }

  /** A key counts no dependency as one. */
  predicate SameDepCount(t: TaskDecl, u: TaskDecl) {
    |t.deps| == |u.deps| || (|t.deps| <= 1 && |u.deps| <= 1)
  }

  lemma InputHashesAreNames(env: Env, files: Files, t: TaskDecl)
    requires InputsExist(files, t)
    ensures HashesOf(env, files, t.inputs) == NamesOf(env, ContentsOf(files, t.inputs))
  {
    assert forall i :: 0 <= i < |t.inputs| ==> t.inputs[i] in t.inputs;
  }

  lemma HashesAreHashNames(env: Env, files: Files, t: TaskDecl)
    requires InputsExist(files, t) && HashNames(env)
    ensures AllHashNames(HashesOf(env, files, t.inputs))
  {}

  /** Two turns have one key if and only if their commands, the contents of their inputs as multisets and
      the numbers of their dependencies agree. */
  lemma SameKeyIff(env: Env, seen: iset<string>, a: Turn, b: Turn)
    requires HashNames(env) && NoCollision(env, seen) && a.Ready() && b.Ready()
    requires OneLineCommand(a.task) && OneLineCommand(b.task)
    requires AllSeen(seen, ContentsOf(a.files, a.task.inputs)) && AllSeen(seen, ContentsOf(b.files, b.task.inputs))
    requires KeyOf(env, a.files, a.task) == KeyOf(env, b.files, b.task) ==>
               KeyTextOf(env, a.files, a.task) == KeyTextOf(env, b.files, b.task)
    ensures KeyOf(env, a.files, a.task) == KeyOf(env, b.files, b.task) <==>
            && SameCommand(a.task, b.task)
            && multiset(ContentsOf(a.files, a.task.inputs)) == multiset(ContentsOf(b.files, b.task.inputs))
            && SameDepCount(a.task, b.task)
  {
    hide HashNames, NoCollision, KeyText, HashesOf;
    var xs, ys := ContentsOf(a.files, a.task.inputs), ContentsOf(b.files, b.task.inputs);
    InputHashesAreNames(env, a.files, a.task);
    InputHashesAreNames(env, b.files, b.task);
    HashesAreHashNames(env, a.files, a.task);
    HashesAreHashNames(env, b.files, b.task);
    KeyTextCanonical(CommandText(a.task), NamesOf(env, xs), |a.task.deps|, CommandText(b.task), NamesOf(env, ys), |b.task.deps|);
    if multiset(xs) == multiset(ys) {
      SameContentsSameNames(env, xs, ys);
    } else if multiset(NamesOf(env, xs)) == multiset(NamesOf(env, ys)) {
      SameNamesSameContents(env, seen, xs, ys);
    }
  }

  /** The paths before the first missing file. */
  function Existing(files: Files, paths: seq<string>): (r: seq<string>)
    ensures r <= paths && forall p :: p in r ==> p in files
    ensures |r| < |paths| ==> paths[|r|] !in files
    decreases |paths|
  {
    if paths == [] || paths[0] !in files then [] else [paths[0]] + Existing(files, paths[1..])
  }

  lemma {:induction false} HashInputsStore(env: Env, w: World, inputs: seq<string>)
    ensures var (w', hashes) := HashInputs(env, w, inputs);
            && Grown(env, w, w', Existing(w.files, inputs))
            && forall p :: p in Existing(w.files, inputs) ==> env.hash(w.files[p]) in w'.objects
    decreases |inputs|
  {
    if inputs != [] && inputs[0] in w.files {
      var w1 := StoreBlob(env, w, w.files[inputs[0]]);
      var found := Existing(w.files, inputs);
      assert found == [inputs[0]] + Existing(w.files, inputs[1..]);
      StoreBlobGrows(env, w, found);
      HashInputsStore(env, w1, inputs[1..]);
      GrownTwice(env, w, w1, HashInputs(env, w1, inputs[1..]).0, found, Existing(w.files, inputs[1..]));
    }
  }

  /** Hashing a task stores the inputs up to the first missing one, and nothing else. */
  lemma HashStoresInputs(env: Env, w: World, t: TaskDecl)
    ensures var w' := HashTask(env, w, t).0;
            && Grown(env, w, w', Existing(w.files, t.inputs))
            && forall p :: p in Existing(w.files, t.inputs) ==> env.hash(w.files[p]) in w'.objects
  {
    HashInputsStore(env, w, t.inputs);
  }

  // ---- Result hashes -----------------------------------------------------------------------------------------

  /** What compute_result_hash hashes. */
  function ResultText(env: Env, files: Files, t: TaskDecl): string {
    Join(Sort(HashOrEmpty(env, files, t.outputs)), ",")
  }

  lemma OutputHashesAreNames(env: Env, files: Files, t: TaskDecl)
    ensures HashOrEmpty(env, files, t.outputs) == NamesOf(env, ContentsOf(files, t.outputs))
  {}

  lemma ResultIs(env: Env, w: World, t: TaskDecl, key: string)
    ensures RecordResult(env, w, t, key).1 == env.hash(ResultText(env, w.files, t))
  {
    hide RecordEntries, RecordText, HashOrEmpty, OutputHashes, Sort, Join;
    OutputHashesMeans(env, w, t.outputs);
  }

  /** The order in which outputs are declared does not show in the result hash. */
  lemma PermutedOutputs(env: Env, w: World, t: TaskDecl, key: string, w': World, t': TaskDecl, key': string)
    requires multiset(ContentsOf(w.files, t.outputs)) == multiset(ContentsOf(w'.files, t'.outputs))
    ensures RecordResult(env, w, t, key).1 == RecordResult(env, w', t', key').1
  {
    hide RecordResult, HashOrEmpty, Sort, Join;
    ResultIs(env, w, t, key);
    ResultIs(env, w', t', key');
    OutputHashesAreNames(env, w.files, t);
    OutputHashesAreNames(env, w'.files, t');
    SameContentsSameNames(env, ContentsOf(w.files, t.outputs), ContentsOf(w'.files, t'.outputs));
    SortCanonical(NamesOf(env, ContentsOf(w.files, t.outputs)), NamesOf(env, ContentsOf(w'.files, t'.outputs)));
  }

  predicate NoCommas(hs: seq<string>) {
    forall h :: h in hs ==> ',' !in h
  }

  /** A join of strings without separators can be split again. */
  lemma {:induction false} SplitJoin(hs: seq<string>)
    requires hs != [] && NoCommas(hs)
    ensures Split(Join(hs, ","), ',') == hs
  {
    assert hs[0] in hs;
    if |hs| == 1 {
      IndexOfFirst(hs[0], ',');
    } else {
      assert forall h :: h in hs[1..] ==> h in hs;
      SplitJoin(hs[1..]);
      SplitMiddle(hs[0], ',', Join(hs[1..], ","));
    }
  }

  lemma NamesHaveNoCommas(env: Env, xs: seq<Option<string>>)
    requires HashNames(env)
    ensures NoCommas(Sort(NamesOf(env, xs)))
  {
    var names := NamesOf(env, xs);
    SameMembers(Sort(names), multiset(names));
    forall h | h in names
      ensures ',' !in h
    {
      var i :| 0 <= i < |xs| && names[i] == h;
      assert xs[i].Some? ==> IsHashName(env.hash(xs[i].value));
    }
  }

  /** Joining shows everything but whether there is no string or one empty string. */
  lemma JoinDetermines(a: seq<string>, b: seq<string>)
    requires NoCommas(a) && NoCommas(b) && Join(a, ",") == Join(b, ",")
    ensures a == b || (a == [] && b == [""]) || (a == [""] && b == [])
  {
    if a != [] { SplitJoin(a); }
    if b != [] { SplitJoin(b); }
    assert Split("", ',') == [""];
  }

  /** No outputs, or a single one that is missing. */
  predicate NothingToHash(xs: seq<Option<string>>) {
    xs == [] || xs == [None]
  }

  lemma OneElement<T>(s: seq<T>, x: T)
    requires multiset(s) == multiset{x}
    ensures s == [x]
  {
    assert |s| == |multiset(s)| == 1;
    assert s[0] in multiset(s);
  }

  lemma BlankNames(env: Env, xs: seq<Option<string>>)
    requires HashNames(env)
    ensures NothingToHash(xs) <==> Sort(NamesOf(env, xs)) == [] || Sort(NamesOf(env, xs)) == [""]
  {
    var names := NamesOf(env, xs);
    assert |Sort(names)| == |multiset(Sort(names))| == |multiset(names)| == |xs|;
    if Sort(names) == [""] {
      OneElement(names, "");
      assert xs[0].Some? ==> IsHashName(env.hash(xs[0].value));
    }
    if xs == [None] {
      assert names == [""];
    }
  }

  /** Two results have one hash if and only if the contents of the outputs are equal as multisets, missing
      ones included, or there is nothing to hash in either. */
  lemma SameResultIff(env: Env, seen: iset<string>, w: World, t: TaskDecl, key: string, w': World, t': TaskDecl, key': string)
    requires HashNames(env) && NoCollision(env, seen)
    requires AllSeen(seen, ContentsOf(w.files, t.outputs)) && AllSeen(seen, ContentsOf(w'.files, t'.outputs))
    requires env.hash(ResultText(env, w.files, t)) == env.hash(ResultText(env, w'.files, t')) ==>
               ResultText(env, w.files, t) == ResultText(env, w'.files, t')
    ensures RecordResult(env, w, t, key).1 == RecordResult(env, w', t', key').1 <==>
            var xs, ys := ContentsOf(w.files, t.outputs), ContentsOf(w'.files, t'.outputs);
            multiset(xs) == multiset(ys) || (NothingToHash(xs) && NothingToHash(ys))
  {
    hide RecordResult, HashOrEmpty, Sort, Join, HashNames, NoCollision;
    var xs, ys := ContentsOf(w.files, t.outputs), ContentsOf(w'.files, t'.outputs);
    var a, b := NamesOf(env, xs), NamesOf(env, ys);
    ResultIs(env, w, t, key);
    ResultIs(env, w', t', key');
    OutputHashesAreNames(env, w.files, t);
    OutputHashesAreNames(env, w'.files, t');
    BlankNames(env, xs);
    BlankNames(env, ys);
    SortCanonical(a, b);
    if multiset(xs) == multiset(ys) {
      SameContentsSameNames(env, xs, ys);
    } else if NothingToHash(xs) && NothingToHash(ys) {
      BlankJoins();
    } else if Join(Sort(a), ",") == Join(Sort(b), ",") {
      NamesHaveNoCommas(env, xs);
      NamesHaveNoCommas(env, ys);
      JoinDetermines(Sort(a), Sort(b));
      if multiset(a) == multiset(b) { SameNamesSameContents(env, seen, xs, ys); }
    }
  }

  lemma BlankJoins()
    ensures Join([], ",") == Join([""], ",") == ""
  {}

  /** Where all outputs exist, that is equality of their contents as multisets. */
  lemma SameResultOfFilesIff(env: Env, seen: iset<string>, w: World, t: TaskDecl, key: string, w': World, t': TaskDecl, key': string)
    requires HashNames(env) && NoCollision(env, seen)
    requires (forall o :: o in t.outputs ==> o in w.files) && forall o :: o in t'.outputs ==> o in w'.files
    requires AllSeen(seen, ContentsOf(w.files, t.outputs)) && AllSeen(seen, ContentsOf(w'.files, t'.outputs))
    requires env.hash(ResultText(env, w.files, t)) == env.hash(ResultText(env, w'.files, t')) ==>
               ResultText(env, w.files, t) == ResultText(env, w'.files, t')
    ensures RecordResult(env, w, t, key).1 == RecordResult(env, w', t', key').1 <==>
            multiset(ContentsOf(w.files, t.outputs)) == multiset(ContentsOf(w'.files, t'.outputs))
  {
    hide RecordResult, HashNames, NoCollision, ResultText;
    SameResultIff(env, seen, w, t, key, w', t', key');
    assert forall i :: 0 <= i < |t.outputs| ==> t.outputs[i] in t.outputs;
    assert forall i :: 0 <= i < |t'.outputs| ==> t'.outputs[i] in t'.outputs;
  }

  /** Two outputs, declared in either order: the smaller hash comes first. */
  lemma ResultOfTwo(env: Env, w: World, t: TaskDecl, key: string, p: string, q: string)
    requires (t.outputs == [p, q] || t.outputs == [q, p]) && p in w.files && q in w.files
    requires Le(env.hash(w.files[p]), env.hash(w.files[q]))
    ensures RecordResult(env, w, t, key).1 == env.hash(env.hash(w.files[p]) + "," + env.hash(w.files[q]))
  {
    hide RecordResult, Sort, Le;
    var g, h := env.hash(w.files[p]), env.hash(w.files[q]);
    ResultIs(env, w, t, key);
    SortTwo(g, h);
    assert HashOrEmpty(env, w.files, t.outputs) == if t.outputs == [p, q] then [g, h] else [h, g];
    assert Join([g, h], ",") == g + "," + h;
  }

  // ---- Turns -----------------------------------------------------------------------------------------------------

  /** Without a command line no turn ever runs: it is a hit or it fails, and leaves no record. */
  lemma NoCommandNeverRuns(env: Env, w: World, t: TaskDecl)
    requires t.cmd == None
    ensures var (w', e) := RunTask(env, w, t);
            && !e.Ran? && w'.meta == w.meta
            && (!e.Hit? ==> w'.files == w.files)
  {
    hide ParseRecord;
    HashTaskMeans(env, w, t);
    var (w1, key) := HashTask(env, w, t);
    if key.Some? && key.value in w.meta {
      var r := ParseRecord(w1.meta[key.value]);
      RestoreAllIsMap(w1, r.outputs, t.outputs);
    }
  }

  /** On a miss the command runs on the files as they are, and what it writes stays, whether it succeeds or
      not; only success leaves a record. */
  lemma MissRunsCommand(env: Env, w: World, t: TaskDecl)
    requires t.cmd.Some? && InputsExist(w.files, t) && KeyOf(env, w.files, t) !in w.meta
    ensures var (w', e) := RunTask(env, w, t);
            var r := env.run(t.cmd.value, w.files);
            && w'.files == w.files + r.writes
            && (r.ok ==> e.Ran? && e.key == KeyOf(env, w.files, t) && w'.meta.Keys == w.meta.Keys + {e.key})
            && (!r.ok ==> e == ExecError && w'.meta == w.meta)
  {
    hide KeyOf, RecordText;
    HashTaskMeans(env, w, t);
    var (w1, key) := HashTask(env, w, t);
    var r := env.run(t.cmd.value, w.files);
    var w2 := w1.(files := w1.files + r.writes);
    if r.ok { RecordKeepsFiles(env, w2, t, key.value); }
  }

  lemma RecordKeepsFiles(env: Env, w: World, t: TaskDecl, key: string)
    ensures var (w', _) := RecordResult(env, w, t, key);
            w'.files == w.files && w'.meta.Keys == w.meta.Keys + {key}
  {
    hide RecordText, ResultHash;
    var (w1, hashes) := OutputHashes(env, w, t.outputs);
    OutputHashesMeans(env, w, t.outputs);
    RecordEntriesMeans(env, w1, t.outputs);
  }
}
