/** What the cache misses: results of dependencies are not in the key, so a task that reads them without
    declaring them as inputs is not run again when they change. */
module StaleCache {
  import opened Cache
  import opened Records
  import opened Tasks
  import T = Transparency

  /** `make` writes a from the source s; `copy` depends on it and writes b from a. */
  const MAKE := TaskDecl("make", Some("make"), ["s"], ["a"], [])
  const COPY := TaskDecl("copy", Some("copy"), [], ["b"], ["make"])

  function Effect(cmd: string, files: Files): RunResult {
    if cmd == "make" && "s" in files then RunResult(true, map["a" := files["s"]])
    else if cmd == "copy" && "a" in files then RunResult(true, map["b" := files["a"]])
    else RunResult(false, map[])
  }

  function MakeKey(env: Env, source: string): string {
    env.hash(KeyText("make", [env.hash(source)], 0))
  }

  function CopyKey(env: Env): string {
    env.hash(KeyText("copy", [], 1))
  }

  /** The commands above, and a hash that tells the texts they give rise to apart. */
  ghost predicate Setting(env: Env) {
    && (forall c, f :: env.run(c, f) == Effect(c, f))
    && HashNames(env)
    && MakeKey(env, "1") != MakeKey(env, "2")
    && CopyKey(env) !in {MakeKey(env, "1"), MakeKey(env, "2")}
  }

  // ---- The setting exists ----------------------------------------------------------------------------

  function Label(text: string): string {
    if text == "1" then PlainName('1')
    else if text == "2" then PlainName('2')
    else if text == KeyText("make", [PlainName('1')], 0) then PlainName('3')
    else if text == KeyText("make", [PlainName('2')], 0) then PlainName('4')
    else PlainName('5')
  }

  lemma SettingExists() returns (env: Env)
    ensures Setting(env)
  {
    hide KeyText;
    env := Env(Label, Effect);
    var one, two := PlainName('1'), PlainName('2');
    assert one[0] != two[0];
    assert PlainName('3')[0] != PlainName('4')[0] && PlainName('3')[0] != PlainName('5')[0] && PlainName('4')[0] != PlainName('5')[0];
    KeyTextCanonical("make", [one], 0, "make", [two], 0);
    assert multiset([one])[one] != multiset([two])[one];
    KeyTextCanonical("copy", [], 1, "make", [one], 0);
    KeyTextCanonical("copy", [], 1, "make", [two], 0);
    KeyTextIsLong("make", [one], 0);
    KeyTextIsLong("make", [two], 0);
    KeyTextIsLong("copy", [], 1);
    assert MakeKey(env, "1") == PlainName('3') && MakeKey(env, "2") == PlainName('4') && CopyKey(env) == PlainName('5');
  }

  // ---- The turns ----------------------------------------------------------------------------------------

  const SEEN: iset<string> := iset{"1", "2"}
  function Source(): Files { map["s" := "1"] }
  function Made(): Files { map["s" := "1", "a" := "1"] }
  function Copied(): Files { map["s" := "1", "a" := "1", "b" := "1"] }
  function Edited(): Files { map["s" := "2", "a" := "1", "b" := "1"] }
  function Remade(): Files { map["s" := "2", "a" := "2", "b" := "1"] }

  lemma Updates()
    ensures Source()["a" := "1"] == Made() && Made()["b" := "1"] == Copied() && Copied()["s" := "2"] == Edited() && Edited()["a" := "2"] == Remade()
    ensures "s" in Source() && Source()["s"] == "1" && "a" in Made() && Made()["a"] == "1"
    ensures "s" in Edited() && Edited()["s"] == "2" && "a" in Remade() && Remade()["a"] == "2"
    ensures Remade()["b" := "1"] == Remade() && Remade()["b" := "2"] == map["s" := "2", "a" := "2", "b" := "2"]
  {}

  /** The turns of the first run and the first turn of the second. */
  ghost function Past(): iset<Turn> {
    iset{Turn(MAKE, Source()), Turn(COPY, Made()), Turn(MAKE, Edited())}
  }

  lemma MakeDoes(env: Env, f: Files)
    requires Setting(env) && "s" in f
    ensures After(env, Turn(MAKE, f)) == f["a" := f["s"]]
    ensures CleanTask(env, f, MAKE) == (f["a" := f["s"]], CleanResult(CleanResultOf(env, f["a" := f["s"]], MAKE)))
    ensures InputsExist(f, MAKE) && KeyOf(env, f, MAKE) == MakeKey(env, f["s"])
  {
    hide KeyText, CleanResultOf;
    assert RunCommand(env, f, MAKE) == RunResult(true, map["a" := f["s"]]);
    assert f + map["a" := f["s"]] == f["a" := f["s"]];
    assert HashesOf(env, f, MAKE.inputs) == [env.hash(f["s"])];
  }

  lemma CopyDoes(env: Env, f: Files)
    requires Setting(env) && "a" in f
    ensures After(env, Turn(COPY, f)) == f["b" := f["a"]]
    ensures CleanTask(env, f, COPY) == (f["b" := f["a"]], CleanResult(CleanResultOf(env, f["b" := f["a"]], COPY)))
    ensures InputsExist(f, COPY) && KeyOf(env, f, COPY) == CopyKey(env)
  {
    hide KeyText, CleanResultOf;
    assert RunCommand(env, f, COPY) == RunResult(true, map["b" := f["a"]]);
    assert f + map["b" := f["a"]] == f["b" := f["a"]];
    assert HashesOf(env, f, COPY.inputs) == [];
  }

  lemma TurnsStorable(env: Env)
    requires Setting(env)
    ensures Storable(env, Past() + iset{Turn(COPY, Remade())}, SEEN)
  {
    TasksWellFormed();
    assert NoCollision(env, SEEN) by { hide KeyText; }
    forall a | a in Past() + iset{Turn(COPY, Remade())}
      ensures WellFormed(a.task) && Known(env, SEEN, a)
    {
      if a.task == MAKE { MakeKnown(env, a.files); } else { CopyKnown(env, a.files); }
    }
  }

  lemma TasksWellFormed()
    ensures WellFormed(MAKE) && WellFormed(COPY)
  {
    assert RecordableName("a") && RecordableName("b");
  }

  lemma MakeKnown(env: Env, f: Files)
    requires Setting(env) && "s" in f && f["s"] in SEEN
    ensures Known(env, SEEN, Turn(MAKE, f))
  {
    hide KeyText, CleanTask, KeyOf;
    MakeDoes(env, f);
  }

  lemma CopyKnown(env: Env, f: Files)
    requires Setting(env) && "a" in f && f["a"] in SEEN
    ensures Known(env, SEEN, Turn(COPY, f))
  {
    hide KeyText, CleanTask, KeyOf;
    CopyDoes(env, f);
  }

  // ---- Exactly when the record of `copy` goes stale ----------------------------------------------------------

  /** A later turn of `copy` may use the record of an earlier one if and only if a has the same content. */
  lemma StaleIff(env: Env, f: Files, f': Files)
    requires Setting(env) && "a" in f && "a" in f'
    ensures Meets(env, Turn(COPY, f), Turn(COPY, f'))
    ensures Interchangeable(env, Turn(COPY, f), Turn(COPY, f')) <==> f["a"] == f'["a"]
  {
    hide KeyText, KeyOf, ResultHash, CleanTask;
    CopyDoes(env, f);
    CopyDoes(env, f');
    var a, b := Turn(COPY, f), Turn(COPY, f');
    assert "b" in OutputSet(COPY);
    assert Restored(env, a, COPY) == map["b" := f["a"]];
    assert (f' + map["b" := f["a"]])["b"] == f["a"];
    if f["a"] == f'["a"] {
      assert f' + map["b" := f["a"]] == f'["b" := f'["a"]];
      assert HashOrEmpty(env, After(env, a), COPY.outputs) == HashOrEmpty(env, After(env, b), COPY.outputs);
    }
  }

  /** So a cache over these turns is not transparent. */
  lemma NotAlwaysTransparent(env: Env)
    requires Setting(env)
    ensures !T.AlwaysTransparent(env, Past() + iset{Turn(COPY, Remade())})
  {
    hide Interchangeable, Storable, T.AlwaysTransparent;
    var occ := Past() + iset{Turn(COPY, Remade())};
    TurnsStorable(env);
    StaleIff(env, Made(), Remade());
    assert Turn(COPY, Made()) in occ && Turn(COPY, Remade()) in occ;
    T.TransparentIff(env, occ, SEEN);
  }

  // ---- The two runs ---------------------------------------------------------------------------------------

  lemma CleanTwo(env: Env, f: Files, t: TaskDecl, u: TaskDecl)
    ensures var (f1, e1) := CleanTask(env, f, t);
            e1.CleanResult? ==> CleanRun(env, f, [t, u]).0 == CleanTask(env, f1, u).0
  {
    hide CleanTask;
    var (f1, e1) := CleanTask(env, f, t);
    var f2 := CleanTask(env, f1, u).0;
    assert [t, u][0] == t && [t, u][1..] == [u] && [u][0] == u && [u][1..] == [];
    assert CleanRun(env, f2, []).0 == f2;
    assert CleanRun(env, f1, [u]).0 == f2;
  }

  ghost predicate PastInv(env: Env, w: World) {
    T.CacheInv(env, Past(), SEEN, w)
  }

  /** A turn of Past() under a new key runs its command and leaves a record. */
  lemma Runs(env: Env, w: World, t: TaskDecl)
    requires Setting(env) && Turn(t, w.files) in Past() && PastInv(env, w)
    requires InputsExist(w.files, t) && KeyOf(env, w.files, t) !in w.meta && CleanTask(env, w.files, t).1.CleanResult?
    ensures var (w', e) := RunTask(env, w, t);
            && PastInv(env, w') && !e.Failure() && w'.files == CleanTask(env, w.files, t).0
            && w'.meta.Keys == w.meta.Keys + {KeyOf(env, w.files, t)}
  {
    hide Setting, Storable, T.CacheInv, CleanTask, RunTask, KeyOf, InputsExist;
    TurnsStorable(env);
    FewerStorable(env);
    T.MissMeans(env, Past(), SEEN, w, t);
  }

  lemma FewerStorable(env: Env)
    requires Storable(env, Past() + iset{Turn(COPY, Remade())}, SEEN)
    ensures Storable(env, Past(), SEEN)
  {
    hide WellFormed, Known;
  }

  lemma MakeRuns(env: Env, w: World)
    requires Setting(env) && PastInv(env, w) && Turn(MAKE, w.files) in Past() && "s" in w.files
    requires MakeKey(env, w.files["s"]) !in w.meta
    ensures var (w', e) := RunTask(env, w, MAKE);
            && PastInv(env, w') && !e.Failure() && w'.files == w.files["a" := w.files["s"]]
            && w'.meta.Keys == w.meta.Keys + {MakeKey(env, w.files["s"])}
  {
    MakeDoes(env, w.files);
    hide Setting, Past, PastInv, RunTask, CleanTask, KeyOf, MakeKey;
    Runs(env, w, MAKE);
  }

  lemma CopyRuns(env: Env, w: World)
    requires Setting(env) && PastInv(env, w) && Turn(COPY, w.files) in Past() && "a" in w.files
    requires CopyKey(env) !in w.meta
    ensures var (w', e) := RunTask(env, w, COPY);
            && PastInv(env, w') && !e.Failure() && w'.files == w.files["b" := w.files["a"]]
            && w'.meta.Keys == w.meta.Keys + {CopyKey(env)}
  {
    CopyDoes(env, w.files);
    hide Setting, Past, PastInv, RunTask, CleanTask, KeyOf, CopyKey;
    Runs(env, w, COPY);
  }

  lemma FirstRun(env: Env) returns (w: World)
    requires Setting(env)
    ensures var (w2, ends) := SerialRun(env, World(Source(), map[], map[]), [MAKE, COPY]);
            w == w2 && AllSucceeded(ends) && w.files == Copied()
    ensures PastInv(env, w) && w.meta.Keys == {MakeKey(env, "1"), CopyKey(env)}
  {
    hide Setting, Past, PastInv, RunTask, MakeKey, CopyKey, Source, Made, Copied, Edited, Remade, SerialRun, AllSucceeded;
    var w0 := World(Source(), map[], map[]);
    Begins(env, w0);
    Keys(env);
    Updates();
    InPast();
    MakeRuns(env, w0);
    var w1 := RunTask(env, w0, MAKE).0;
    CopyRuns(env, w1);
    T.TwoTasks(env, w0, MAKE, COPY);
    T.BothSucceed(RunTask(env, w0, MAKE).1, RunTask(env, w1, COPY).1);
    w := RunTask(env, w1, COPY).0;
  }

  lemma Begins(env: Env, w: World)
    requires w.objects == map[] && w.meta == map[]
    ensures PastInv(env, w)
  {
    T.NothingInv(env, Past(), SEEN, w);
  }

  lemma Keys(env: Env)
    requires Setting(env)
    ensures MakeKey(env, "1") != MakeKey(env, "2") && CopyKey(env) != MakeKey(env, "1") && CopyKey(env) != MakeKey(env, "2")
  {
    hide KeyText;
  }

  lemma InPast()
    ensures Turn(MAKE, Source()) in Past() && Turn(COPY, Made()) in Past() && Turn(MAKE, Edited()) in Past()
  {}

  /** The second turn of `copy` meets the record of the first. */
  lemma CopyHits(env: Env, w: World)
    requires Setting(env) && PastInv(env, w) && w.files == Remade() && CopyKey(env) in w.meta
    ensures var (w', e) := RunTask(env, w, COPY); e.Hit? && w'.files == Remade()
  {
    CopyDoes(env, Remade());
    hide Setting, T.CacheInv, RunTask, CleanTask, KeyOf, After, Restored;
    var a := T.MetMeans(env, Past(), SEEN, w, COPY);
    MetIsFirst(env, a);
    Updates();
    StaleRestored(env);
  }

  lemma MetIsFirst(env: Env, a: Turn)
    requires Setting(env) && a in Past() && Meets(env, a, Turn(COPY, Remade()))
    ensures a == Turn(COPY, Made())
  {
    Keys(env);
    Updates();
    PastTurns(a);
    CopyDoes(env, Remade());
    if a.task == MAKE { MakeDoes(env, a.files); }
    hide Setting, CleanTask, MakeKey, CopyKey, KeyOf, Past, Source, Made, Copied, Edited, Remade;
  }

  lemma PastTurns(a: Turn)
    requires a in Past()
    ensures a == Turn(COPY, Made()) || (a.task == MAKE && "s" in a.files && a.files["s"] in {"1", "2"})
  {}

  lemma StaleRestored(env: Env)
    requires Setting(env)
    ensures Remade() + Restored(env, Turn(COPY, Made()), COPY) == Remade()
  {
    CopyDoes(env, Made());
    hide Setting, CleanTask, KeyOf;
    assert Restored(env, Turn(COPY, Made()), COPY) == map["b" := "1"];
  }

  /** The documented key would contain the dependency's result and `copy` would run again. The code's key
      does not: after the source changes, a second run succeeds, rebuilds a, and restores the old b,
      which a run of every command would have rebuilt. */
  lemma DependencyChangeIsMissed(env: Env)
    requires Setting(env)
    ensures var first := SerialRun(env, World(map["s" := "1"], map[], map[]), [MAKE, COPY]).0;
            var edited := first.(files := first.files["s" := "2"]);
            var (second, ends) := SerialRun(env, edited, [MAKE, COPY]);
            && AllSucceeded(ends)
            && second.files == map["s" := "2", "a" := "2", "b" := "1"]
            && CleanRun(env, edited.files, [MAKE, COPY]).0 == map["s" := "2", "a" := "2", "b" := "2"]
  {
    hide Setting, Past, PastInv, RunTask, MakeKey, CopyKey, Source, Made, Copied, Edited, Remade, SerialRun, AllSucceeded,
         CleanTask, CleanRun;
    var first := FirstRun(env);
    var edited := first.(files := Edited());
    AsNamed();
    Updates();
    Keys(env);
    InPast();
    EditKeeps(env, first, Edited());
    MakeRuns(env, edited);
    var w1 := RunTask(env, edited, MAKE).0;
    CopyHits(env, w1);
    T.TwoTasks(env, edited, MAKE, COPY);
    T.BothSucceed(RunTask(env, edited, MAKE).1, RunTask(env, w1, COPY).1);
    MakeDoes(env, Edited());
    CopyDoes(env, Remade());
    CleanTwo(env, Edited(), MAKE, COPY);
  }

  lemma AsNamed()
    ensures Source() == map["s" := "1"] && Remade() == map["s" := "2", "a" := "2", "b" := "1"]
  {}

  lemma EditKeeps(env: Env, w: World, files: Files)
    requires PastInv(env, w)
    ensures PastInv(env, w.(files := files))
  {
    T.FilesKeepInv(env, Past(), SEEN, w, files);
  }
}
