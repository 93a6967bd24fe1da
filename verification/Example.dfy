/** A project on which everything the results about the cache and the executor assume holds at once: two
    tasks, a command that reads two files in an order that matters, outputs longer than inputs. */
module Example {
  import opened Graphs
  import opened Tasks
  import opened Cache
  import opened Records
  import opened Interleaving
  import opened ScheduleIndependence
  import T = Transparency
  import W = WarmRerun

  /** `join` writes z from x and y, one behind the other; `mark` writes z and a "!" to d. */
  const JOIN := TaskDecl("join", Some("cat x y"), ["x", "y"], ["z"], [])
  const MARK := TaskDecl("mark", Some("mark z"), ["z"], ["d"], ["join"])
  const TASKS := [JOIN, MARK]
  const DEPS: Graph := Graph([[], [0]], [[1], []])

  function Effect(cmd: string, files: Files): RunResult {
    if cmd == "cat x y" && "x" in files && "y" in files then RunResult(true, map["z" := files["x"] + files["y"]])
    else if cmd == "mark z" && "z" in files then RunResult(true, map["d" := files["z"] + "!"])
    else RunResult(false, map[])
  }

  function Label(text: string): string {
    if text == "1" then PlainName('1')
    else if text == "2" then PlainName('2')
    else if text == "12" then PlainName('3')
    else if text == "12!" then PlainName('4')
    else if text == KeyText("cat x y", [PlainName('1'), PlainName('2')], 0) then PlainName('5')
    else PlainName('6')
  }

  const ENV := Env(Label, Effect)
  const SEEN: iset<string> := iset{"1", "2", "12", "12!"}

  // ---- What the commands do ----------------------------------------------------------------------------

  predicate JoinReads(f: Files) {
    "x" in f && "y" in f && f["x"] == "1" && f["y"] == "2"
  }

  predicate MarkReads(f: Files) {
    "z" in f && f["z"] == "12"
  }

  /** All turns of the two tasks on these input contents, whatever the other files are. */
  predicate Occurs(a: Turn) {
    (a.task == JOIN && JoinReads(a.files)) || (a.task == MARK && MarkReads(a.files))
  }

  ghost function Occurring(): iset<Turn> {
    iset a: Turn | Occurs(a)
  }

  lemma LabelsDiffer(x: string, y: string)
    requires x in SEEN && y in SEEN && Label(x) == Label(y)
    ensures x == y
  {
    hide KeyText;
    assert PlainName('1')[0] == '1' && PlainName('2')[0] == '2' && PlainName('3')[0] == '3' && PlainName('4')[0] == '4';
  }

  lemma HashFacts()
    ensures HashNames(ENV) && NoCollision(ENV, SEEN)
  {
    hide KeyText;
    forall x, y | x in SEEN && y in SEEN && ENV.hash(x) == ENV.hash(y)
      ensures x == y
    {
      LabelsDiffer(x, y);
    }
  }

  lemma TasksBehave()
    ensures Behaved(ENV, JOIN) && Behaved(ENV, MARK)
  {
    assert RecordableName("z") && RecordableName("d");
    assert OutputSet(JOIN) == {"z"} && OutputSet(MARK) == {"d"};
    forall f | InputsExist(f, JOIN)
      ensures RunCommand(ENV, f, JOIN) == RunResult(true, map["z" := f["x"] + f["y"]])
    {
      assert "x" in JOIN.inputs && "y" in JOIN.inputs;
    }
    forall f | InputsExist(f, MARK)
      ensures RunCommand(ENV, f, MARK) == RunResult(true, map["d" := f["z"] + "!"])
    {
      assert "z" in MARK.inputs;
    }
  }

  lemma JoinDoes(f: Files)
    requires JoinReads(f)
    ensures InputsExist(f, JOIN) && RunCommand(ENV, f, JOIN) == RunResult(true, map["z" := "12"])
    ensures After(ENV, Turn(JOIN, f)) == f["z" := "12"]
    ensures KeyTextOf(ENV, f, JOIN) == KeyText("cat x y", [PlainName('1'), PlainName('2')], 0)
  {
    hide KeyText;
    assert "1" + "2" == "12";
    assert f + map["z" := "12"] == f["z" := "12"];
    assert HashesOf(ENV, f, JOIN.inputs) == [PlainName('1'), PlainName('2')];
  }

  lemma MarkDoes(f: Files)
    requires MarkReads(f)
    ensures InputsExist(f, MARK) && RunCommand(ENV, f, MARK) == RunResult(true, map["d" := "12!"])
    ensures After(ENV, Turn(MARK, f)) == f["d" := "12!"]
    ensures KeyTextOf(ENV, f, MARK) == KeyText("mark z", [PlainName('3')], 1)
  {
    hide KeyText;
    assert "12" + "!" == "12!";
    assert f + map["d" := "12!"] == f["d" := "12!"];
    assert HashesOf(ENV, f, MARK.inputs) == [PlainName('3')];
  }

  /** The order of the two inputs matters to the command but not to the key: once their contents are
      swapped, the record of the earlier turn is met and is wrong. */
  lemma SwapIsMissed()
    ensures var a, b := Turn(JOIN, map["x" := "1", "y" := "2"]), Turn(JOIN, map["x" := "2", "y" := "1"]);
            Meets(ENV, a, b) && RunCommand(ENV, a.files, JOIN) != RunCommand(ENV, b.files, JOIN) && !Interchangeable(ENV, a, b)
  {
    hide KeyText, CleanResultOf;
    var f, g: Files := map["x" := "1", "y" := "2"], map["x" := "2", "y" := "1"];
    var a, b := Turn(JOIN, f), Turn(JOIN, g);
    JoinDoes(f);
    assert "1" + "2" == "12" && "2" + "1" == "21" && "12" != "21";
    assert RunCommand(ENV, g, JOIN) == RunResult(true, map["z" := "21"]);
    SwapKeepsKey();
    assert HashesOf(ENV, g, JOIN.inputs) == [PlainName('2'), PlainName('1')];
    assert "z" in OutputSet(JOIN);
    assert Restored(ENV, a, JOIN)["z"] == "12";
    assert After(ENV, b)["z"] == "21" && (g + Restored(ENV, a, JOIN))["z"] == "12";
  }

  lemma SwapKeepsKey()
    ensures KeyText("cat x y", [PlainName('2'), PlainName('1')], 0) == KeyText("cat x y", [PlainName('1'), PlainName('2')], 0)
  {
    hide KeyText;
    var one, two := PlainName('1'), PlainName('2');
    assert multiset([two, one]) == multiset([one, two]);
    KeyTextCanonical("cat x y", [two, one], 0, "cat x y", [one, two], 0);
  }

  /** The two keys differ. */
  lemma KeysDiffer()
    ensures ENV.hash(KeyText("cat x y", [PlainName('1'), PlainName('2')], 0)) != ENV.hash(KeyText("mark z", [PlainName('3')], 1))
  {
    hide KeyText;
    KeyTextIsLong("cat x y", [PlainName('1'), PlainName('2')], 0);
    KeyTextIsLong("mark z", [PlainName('3')], 1);
    KeyTextCanonical("cat x y", [PlainName('1'), PlainName('2')], 0, "mark z", [PlainName('3')], 1);
    assert PlainName('5')[0] == '5' && PlainName('6')[0] == '6';
  }

  // ---- The assumptions hold ------------------------------------------------------------------------------

  /** What CacheTransparency and TransparentIff assume. */
  lemma CacheAssumptions()
    ensures Storable(ENV, Occurring(), SEEN)
    ensures forall a, b :: a in Occurring() && b in Occurring() ==> Interchangeable(ENV, a, b)
  {
    HashFacts();
    TasksBehave();
    forall a | a in Occurring()
      ensures WellFormed(a.task) && Known(ENV, SEEN, a)
    {
      OneKnown(a);
    }
    forall a, b | a in Occurring() && b in Occurring()
      ensures Interchangeable(ENV, a, b)
    {
      TwoInterchangeable(a, b);
    }
  }

  lemma OneKnown(a: Turn)
    requires Occurs(a)
    ensures Known(ENV, SEEN, a)
  {
    hide KeyText;
    if a.task == JOIN { JoinDoes(a.files); } else { MarkDoes(a.files); }
  }

  lemma TwoInterchangeable(a: Turn, b: Turn)
    requires Occurs(a) && Occurs(b)
    ensures Interchangeable(ENV, a, b)
  {
    TasksBehave();
    if a.task == b.task {
      SameTask(a, b);
    } else {
      OtherTask(a, b);
    }
  }

  lemma SameTask(a: Turn, b: Turn)
    requires Occurs(a) && Occurs(b) && a.task == b.task && Behaved(ENV, a.task)
    ensures Interchangeable(ENV, a, b)
  {
    if a.task == JOIN { JoinDoes(a.files); JoinDoes(b.files); } else { MarkDoes(a.files); MarkDoes(b.files); }
    hide KeyText, RunCommand, ENV, After, CleanResultOf, JoinReads, MarkReads, Interchangeable, KeyTextOf, WritesOutputs;
    T.LawsSuffice(ENV, iset{KeyTextOf(ENV, a.files, a.task)}, a, b);
  }

  lemma OtherTask(a: Turn, b: Turn)
    requires Occurs(a) && Occurs(b) && a.task != b.task
    ensures Interchangeable(ENV, a, b)
  {
    KeysDiffer();
    if a.task == JOIN { JoinDoes(a.files); MarkDoes(b.files); } else { MarkDoes(a.files); JoinDoes(b.files); }
    hide KeyText, RunCommand, ENV, After, CleanResultOf, JoinReads, MarkReads, KeyTextOf, Replaceable;
  }

  // ---- Two runs ------------------------------------------------------------------------------------------

  function Start(): Files { map["x" := "1", "y" := "2"] }
  function Joined(): Files { map["x" := "1", "y" := "2", "z" := "12"] }
  function Marked(): Files { map["x" := "1", "y" := "2", "z" := "12", "d" := "12!"] }

  lemma FilesFacts()
    ensures JoinReads(Start()) && Start()["z" := "12"] == Joined()
    ensures MarkReads(Joined()) && Joined()["d" := "12!"] == Marked() && JoinReads(Marked()) && MarkReads(Marked())
    ensures Within(Start(), SEEN) && Within(Joined(), SEEN) && Within(Marked(), SEEN)
  {}

  ghost predicate Sound(w: World) {
    T.CacheInv(ENV, Occurring(), SEEN, w)
  }

  /** A turn whose command succeeds is sound and leaves what the command leaves. */
  lemma OneTurn(w: World, t: TaskDecl)
    requires Sound(w) && Occurs(Turn(t, w.files)) && Succeeds(ENV, Turn(t, w.files))
    ensures var (w', e) := RunTask(ENV, w, t); Sound(w') && !e.Failure() && w'.files == After(ENV, Turn(t, w.files))
  {
    CacheAssumptions();
    assert Turn(t, w.files) in Occurring();
    hide ENV, SEEN, Occurring, Storable, Interchangeable, T.CacheInv, RunTask, Occurs, KeyText, CleanResultOf;
    T.TurnMeans(ENV, Occurring(), SEEN, w, t);
    assert T.TransparentAt(ENV, w, t);
  }

  lemma JoinTurn(w: World)
    requires Sound(w) && JoinReads(w.files)
    ensures var (w', e) := RunTask(ENV, w, JOIN); Sound(w') && !e.Failure() && w'.files == w.files["z" := "12"]
  {
    JoinDoes(w.files);
    hide Sound, RunTask, After, RunCommand;
    OneTurn(w, JOIN);
  }

  lemma MarkTurn(w: World)
    requires Sound(w) && MarkReads(w.files)
    ensures var (w', e) := RunTask(ENV, w, MARK); Sound(w') && !e.Failure() && w'.files == w.files["d" := "12!"]
  {
    MarkDoes(w.files);
    hide Sound, RunTask, After, RunCommand;
    OneTurn(w, MARK);
  }

  lemma SoundContents(w: World)
    requires Sound(w) && Within(w.files, SEEN)
    ensures W.Contents(w) <= SEEN
  {}

  /** The first run builds both files without a collision. */
  lemma FirstRun() returns (w: World, ends: seq<TaskEnd>)
    ensures (w, ends) == SerialRun(ENV, World(Start(), map[], map[]), TASKS)
    ensures AllSucceeded(ends) && w.files == Marked()
    ensures NoCollision(ENV, W.Occurring(ENV, World(Start(), map[], map[]), TASKS))
  {
    hide RunTask, Sound, NoCollision, ENV, SEEN, Start, Joined, Marked, AllSucceeded, JoinReads, MarkReads, W.Contents, Within;
    var w0 := World(Start(), map[], map[]);
    FilesFacts();
    NothingSound(w0);
    JoinTurn(w0);
    var (w1, e1) := RunTask(ENV, w0, JOIN);
    MarkTurn(w1);
    var (w2, e2) := RunTask(ENV, w1, MARK);
    w, ends := w2, [e1, e2];
    T.TwoTasks(ENV, w0, JOIN, MARK);
    T.BothSucceed(e1, e2);
    SoundContents(w0);
    SoundContents(w1);
    SoundContents(w2);
    TwoOccur(w0);
    HashFacts();
    W.FewerCollide(ENV, SEEN, W.Occurring(ENV, w0, TASKS));
  }

  lemma NothingSound(w: World)
    requires w.objects == map[] && w.meta == map[]
    ensures Sound(w)
  {
    T.NothingInv(ENV, Occurring(), SEEN, w);
  }

  lemma TwoOccur(w: World)
    ensures var w1 := RunTask(ENV, w, JOIN).0;
            W.Occurring(ENV, w, TASKS) == W.Contents(w) + W.Contents(w1) + W.Contents(RunTask(ENV, w1, MARK).0)
  {
    hide RunTask, W.Contents;
    var w1 := RunTask(ENV, w, JOIN).0;
    var w2 := RunTask(ENV, w1, MARK).0;
    assert TASKS[0] == JOIN && TASKS[1..] == [MARK] && [MARK][0] == MARK && [MARK][1..] == [];
    assert W.Occurring(ENV, w2, []) == W.Contents(w2);
    assert W.Occurring(ENV, w1, [MARK]) == W.Contents(w1) + W.Contents(w2);
  }

  /** Everything WarmRerunDoesNoWork assumes holds, so the second run only hits. */
  lemma SecondRun()
    ensures var (w1, ends) := SerialRun(ENV, World(Start(), map[], map[]), TASKS);
            var (w2, again) := SerialRun(ENV, w1, TASKS);
            && AllSucceeded(ends) && w1.files == Marked()
            && |again| == 2 && again[0].Hit? && again[1].Hit? && w2.files == w1.files && w2.meta == w1.meta
  {
    hide ENV, Start, Marked, W.NoOverwrites, NoCollision, SerialRun, W.Occurring, W.Tame, AllSucceeded, HashNames;
    var w0 := World(Start(), map[], map[]);
    var w1, ends := FirstRun();
    HashFacts();
    TasksFit();
    NothingHonest(w0);
    W.WarmRerunDoesNoWork(ENV, {JOIN, MARK}, w0, TASKS);
    TwoEnds(w0);
  }

  lemma TasksFit()
    ensures W.NoOverwrites(TASKS) && forall t :: t in TASKS ==> W.Tame(ENV, {JOIN, MARK}, t)
  {
    TasksBehave();
    hide ENV;
    assert [MARK][0] == MARK && [MARK][1..] == [] && TASKS[1..] == [MARK];
    W.AllOutputsCons([MARK]);
    W.AllOutputsCons(TASKS);
    assert OutputSet(JOIN) == {"z"} && OutputSet(MARK) == {"d"};
    assert W.NoOverwrites([MARK]);
  }

  lemma NothingHonest(w: World)
    requires w.objects == map[] && w.meta == map[]
    ensures T.Honest(ENV, {JOIN, MARK}, w)
  {}

  lemma TwoEnds(w: World)
    requires AllSucceeded(SerialRun(ENV, w, TASKS).1)
    ensures |SerialRun(ENV, w, TASKS).1| == 2
  {
    hide ENV, RunTask;
    assert TASKS[0] == JOIN && TASKS[1..] == [MARK] && [MARK][0] == MARK && [MARK][1..] == [];
    var e := RunTask(ENV, w, JOIN).1;
    assert SerialRun(ENV, w, TASKS).1[0] == e;
    T.TwoTasks(ENV, w, JOIN, MARK);
  }

  // ---- The executor -----------------------------------------------------------------------------------------

  /** Everything ColdSchedules assumes of the tasks, the graph and the files holds. */
  lemma ScheduleAssumptions()
    ensures SerialSuccess(ENV, DEPS, TASKS, [0, 1], World(Start(), map[], map[]))
    ensures forall t :: 0 <= t < |TASKS| ==> Behaved(ENV, TASKS[t])
    ensures SerialRun(ENV, World(Start(), map[], map[]), Select(TASKS, [0, 1])).0.files == Marked()
    ensures DistinctKeys(ENV, TASKS, Marked()) && HashNames(ENV) && NoCollision(ENV, iset c | c in Marked().Values)
  {
    hide ENV, SEEN, Start, Joined, Marked, SerialRun, Behaved, DistinctKeys, HashNames, NoCollision, Layout, IsTopological, AllSucceeded,
         Within;
    TasksBehave();
    HashFacts();
    LayoutHolds();
    var w, ends := FirstRun();
    assert Select(TASKS, [0, 1]) == TASKS;
    KeysOfEnd();
    FilesFacts();
    ValuesWithin(Marked());
    W.FewerCollide(ENV, SEEN, iset c | c in Marked().Values);
  }

  lemma ValuesWithin(f: Files)
    requires Within(f, SEEN)
    ensures (iset c | c in f.Values) <= SEEN
  {}

  lemma EndKeysDiffer()
    ensures InputsExist(Marked(), JOIN) && InputsExist(Marked(), MARK)
    ensures KeyOf(ENV, Marked(), JOIN) != KeyOf(ENV, Marked(), MARK)
  {
    hide ENV, Marked, KeyText, KeyTextOf, Start, Joined, JoinReads, MarkReads;
    FilesFacts();
    JoinDoes(Marked());
    MarkDoes(Marked());
    KeysDiffer();
  }

  lemma KeysOfEnd()
    ensures DistinctKeys(ENV, TASKS, Marked())
  {
    EndKeysDiffer();
    hide ENV, Marked, KeyOf, InputsExist;
    assert TASKS[0] == JOIN && TASKS[1] == MARK && |TASKS| == 2;
  }

  lemma LayoutHolds()
    ensures DEPS.Valid() && Layout(DEPS, TASKS) && IsTopological(DEPS, [0, 1])
  {
    DepsValid();
    MarkNeedsJoin();
    hide Ancestor, Graph.Valid, IsTopological;
    assert TASKS[0] == JOIN && TASKS[1] == MARK && |TASKS| == 2;
  }

  lemma MarkNeedsJoin()
    ensures Ancestor(DEPS, 1, 0)
  {
    assert IsPath(DEPS, [1, 0]);
  }

  lemma DepsValid()
    ensures DEPS.Valid() && IsTopological(DEPS, [0, 1])
  {
    var none: seq<nat>, zero: seq<nat>, one: seq<nat> := [], [0], [1];
    assert multiset(none)[0] == 0 && multiset(none)[1] == 0 && multiset(zero)[0] == 1 && multiset(zero)[1] == 0;
    assert multiset(one)[1] == 1 && multiset(one)[0] == 0;
    assert [0, 1][0] == 0 && [0, 1][1] == 1;
  }
}
