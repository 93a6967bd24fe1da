/** The content-addressed store, the metadata cache and the execution of tasks, on values: a world is
    the files of the working directory, the stored objects by name and the records by task key. */
module Cache {
  import opened Tasks
  import opened Text
  import opened Sorting
  import opened Records

  type Files = map<string, string>

  datatype World = World(files: Files, objects: map<string, string>, meta: map<string, string>)

  datatype RunResult = RunResult(ok: bool, writes: Files)

  /** The hash names and the effect of commands: exit status and the files written. */
  datatype Env = Env(hash: string -> string, run: (string, Files) -> RunResult)

  // ---- Blobs --------------------------------------------------------------------------------

  /** cas_store_blob_*: the object is written only when none of that name exists. */
  function StoreBlob(env: Env, w: World, content: string): World {
    var name := env.hash(content);
    if name in w.objects then w else w.(objects := w.objects[name := content])
  }

  /** cas_restore_blob_to_file: names shorter than three characters and unknown names change nothing. */
  function RestoreBlob(w: World, name: string, dest: string): World {
    if |name| >= 3 && name in w.objects then w.(files := w.files[dest := w.objects[name]]) else w
  }

  // ---- Task keys ------------------------------------------------------------------------------

  function CommandText(t: TaskDecl): string {
    match t.cmd
    case None => ""
    case Some(c) => c
  }

  predicate InputsExist(files: Files, t: TaskDecl) {
    forall p :: p in t.inputs ==> p in files
  }

  function HashesOf(env: Env, files: Files, paths: seq<string>): (r: seq<string>)
    requires forall p :: p in paths ==> p in files
    ensures |r| == |paths|
  {
    seq(|paths|, i requires 0 <= i < |paths| => env.hash(files[paths[i]]))
  }

  function KeyTextOf(env: Env, files: Files, t: TaskDecl): string
    requires InputsExist(files, t)
  {
    KeyText(CommandText(t), HashesOf(env, files, t.inputs), |t.deps|)
  }

  function KeyOf(env: Env, files: Files, t: TaskDecl): string
    requires InputsExist(files, t)
  {
    env.hash(KeyTextOf(env, files, t))
  }

  /** Stores the inputs in order and collects their names; stops at the first missing file. */
  function HashInputs(env: Env, w: World, inputs: seq<string>): (World, Option<seq<string>>)
    decreases |inputs|
  {
    if inputs == [] then (w, Some([]))
    else if inputs[0] !in w.files then (w, None)
    else
      var (w', rest) := HashInputs(env, StoreBlob(env, w, w.files[inputs[0]]), inputs[1..]);
      (w', match rest case None => None case Some(r) => Some([env.hash(w.files[inputs[0]])] + r))
  }

  /** compute_task_hash */
  function HashTask(env: Env, w: World, t: TaskDecl): (World, Option<string>) {
    var (w', hashes) := HashInputs(env, w, t.inputs);
    (w', match hashes case None => None case Some(hs) => Some(env.hash(KeyText(CommandText(t), hs, |t.deps|))))
  }

  // ---- Loading a record -------------------------------------------------------------------------

  function RestoreEntry(w: World, e: (string, string), outputs: seq<string>): World
    decreases |outputs|
  {
    if outputs == [] then w
    else RestoreEntry(if outputs[0] == e.0 then RestoreBlob(w, e.1, outputs[0]) else w, e, outputs[1..])
  }

  function RestoreAll(w: World, entries: seq<(string, string)>, outputs: seq<string>): World
    decreases |entries|
  {
    if entries == [] then w else RestoreAll(RestoreEntry(w, entries[0], outputs), entries[1..], outputs)
  }

  // ---- Recording a result -----------------------------------------------------------------------

  /** The names of the outputs, stored as they are hashed; a missing output counts as "". */
  function OutputHashes(env: Env, w: World, outputs: seq<string>): (World, seq<string>)
    decreases |outputs|
  {
    if outputs == [] then (w, [])
    else if outputs[0] !in w.files then
      var (w', rest) := OutputHashes(env, w, outputs[1..]);
      (w', [""] + rest)
    else
      var (w', rest) := OutputHashes(env, StoreBlob(env, w, w.files[outputs[0]]), outputs[1..]);
      (w', [env.hash(w.files[outputs[0]])] + rest)
  }

  function ResultHash(env: Env, hashes: seq<string>): string {
    env.hash(Join(Sort(hashes), ","))
  }

  /** The output lines of a record; missing outputs are left out. */
  function RecordEntries(env: Env, w: World, outputs: seq<string>): (World, seq<(string, string)>)
    decreases |outputs|
  {
    if outputs == [] then (w, [])
    else if outputs[0] !in w.files then RecordEntries(env, w, outputs[1..])
    else
      var (w', rest) := RecordEntries(env, StoreBlob(env, w, w.files[outputs[0]]), outputs[1..]);
      (w', [(outputs[0], env.hash(w.files[outputs[0]]))] + rest)
  }

  /** compute_result_hash followed by write_task_record. */
  function RecordResult(env: Env, w: World, t: TaskDecl, key: string): (World, string) {
    var (w1, hashes) := OutputHashes(env, w, t.outputs);
    var result := ResultHash(env, hashes);
    var (w2, entries) := RecordEntries(env, w1, t.outputs);
    (w2.(meta := w2.meta[key := RecordText(key, result, entries)]), result)
  }

  // ---- Tasks and runs -----------------------------------------------------------------------------

  datatype TaskEnd =
    | HashError
    | ExecError
    | Hit(key: string, result: string)
    | Ran(key: string, result: string)
  {
    predicate Failure() { HashError? || ExecError? }
  }

  /** The effect of a command; without a command line, system(NULL) reports a shell and so "fails". */
  function RunCommand(env: Env, files: Files, t: TaskDecl): RunResult {
    match t.cmd
    case None => RunResult(false, map[])
    case Some(c) => env.run(c, files)
  }

  /** execute_task, once the key is known. */
  function ExecuteTask(env: Env, w: World, t: TaskDecl, key: string): (World, TaskEnd) {
    if key in w.meta then
      var r := ParseRecord(w.meta[key]);
      (RestoreAll(w, r.outputs, t.outputs), Hit(key, r.resultHash))
    else
      var r := RunCommand(env, w.files, t);
      var w1 := w.(files := w.files + r.writes);
      if !r.ok then (w1, ExecError)
      else
        var (w2, result) := RecordResult(env, w1, t, key);
        (w2, Ran(key, result))
  }

  /** One turn of the serial loop. */
  function RunTask(env: Env, w: World, t: TaskDecl): (World, TaskEnd) {
    var (w1, key) := HashTask(env, w, t);
    match key
    case None => (w1, HashError)
    case Some(k) => ExecuteTask(env, w1, t, k)
  }

  /** The serial loop: task after task, stopping behind the first failure. */
  function SerialRun(env: Env, w: World, ts: seq<TaskDecl>): (World, seq<TaskEnd>)
    decreases |ts|
  {
    if ts == [] then (w, [])
    else
      var (w1, e) := RunTask(env, w, ts[0]);
      if e.Failure() then (w1, [e])
      else
        var (w2, rest) := SerialRun(env, w1, ts[1..]);
        (w2, [e] + rest)
  }

  predicate AllSucceeded(ends: seq<TaskEnd>) {
    forall e :: e in ends ==> !e.Failure()
  }

  // ---- The run without a cache --------------------------------------------------------------------

  datatype CleanEnd = CleanHashError | CleanExecError | CleanResult(result: string)

  function HashOrEmpty(env: Env, files: Files, outputs: seq<string>): (r: seq<string>)
    ensures |r| == |outputs|
  {
    seq(|outputs|, i requires 0 <= i < |outputs| => if outputs[i] in files then env.hash(files[outputs[i]]) else "")
  }

  /** What a successful command leaves recorded for given outputs. */
  function CleanResultOf(env: Env, files: Files, t: TaskDecl): string {
    ResultHash(env, HashOrEmpty(env, files, t.outputs))
  }

  /** Hash errors aside, simply run the command. */
  function CleanTask(env: Env, files: Files, t: TaskDecl): (Files, CleanEnd) {
    if !InputsExist(files, t) then (files, CleanHashError)
    else
      var r := RunCommand(env, files, t);
      var after := files + r.writes;
      (after, if r.ok then CleanResult(CleanResultOf(env, after, t)) else CleanExecError)
  }

  function CleanRun(env: Env, files: Files, ts: seq<TaskDecl>): (Files, seq<CleanEnd>)
    decreases |ts|
  {
    if ts == [] then (files, [])
    else
      var (f1, e) := CleanTask(env, files, ts[0]);
      if !e.CleanResult? then (f1, [e])
      else
        var (f2, rest) := CleanRun(env, f1, ts[1..]);
        (f2, [e] + rest)
  }

  /** A task's end without the key and without how the result was obtained. */
  function Forget(e: TaskEnd): CleanEnd {
    match e
    case HashError => CleanHashError
    case ExecError => CleanExecError
    case Hit(_, r) => CleanResult(r)
    case Ran(_, r) => CleanResult(r)
  }

  function ForgetAll(ends: seq<TaskEnd>): (r: seq<CleanEnd>)
    ensures |r| == |ends|
  {
    seq(|ends|, i requires 0 <= i < |ends| => Forget(ends[i]))
  }

  // ---- Turns ----------------------------------------------------------------------------------------

  /** A task on the files its turn finds. */
  datatype Turn = Turn(task: TaskDecl, files: Files)
  {
    predicate Ready() { InputsExist(files, task) }
  }

  predicate Succeeds(env: Env, a: Turn) {
    a.Ready() && RunCommand(env, a.files, a.task).ok
  }

  /** The files once the command has run. */
  function After(env: Env, a: Turn): Files {
    a.files + RunCommand(env, a.files, a.task).writes
  }

  function OutputSet(t: TaskDecl): set<string> {
    set o | o in t.outputs
  }

  /** What a hit on the record of turn a puts in place for task t. */
  function Restored(env: Env, a: Turn, t: TaskDecl): Files {
    var after := After(env, a);
    map o | o in after && o in OutputSet(a.task) && o in OutputSet(t) :: after[o]
  }

  /** The record of a does to b what b's own command does: it succeeds, with the same files and the same
      result hash. */
  ghost predicate Replaceable(env: Env, a: Turn, b: Turn) {
    && RunCommand(env, b.files, b.task).ok
    && b.files + Restored(env, a, b.task) == After(env, b)
    && CleanResultOf(env, After(env, a), a.task) == CleanResultOf(env, After(env, b), b.task)
  }

  /** b can meet the record of a. */
  ghost predicate Meets(env: Env, a: Turn, b: Turn) {
    Succeeds(env, a) && b.Ready() && KeyOf(env, a.files, a.task) == KeyOf(env, b.files, b.task)
  }

  ghost predicate Interchangeable(env: Env, a: Turn, b: Turn) {
    Meets(env, a, b) ==> Replaceable(env, a, b)
  }

  // ---- Hypotheses ---------------------------------------------------------------------------------

  ghost predicate HashNames(env: Env) {
    forall x :: IsHashName(env.hash(x))
  }

  /** No two different contents in seen share a hash. */
  ghost predicate NoCollision(env: Env, seen: iset<string>) {
    forall x, y {:trigger env.hash(x), env.hash(y)} :: x in seen && y in seen && env.hash(x) == env.hash(y) ==> x == y
  }

  ghost predicate Within(files: Files, seen: iset<string>) {
    forall p :: p in files ==> files[p] in seen
  }

  /** At most 64 outputs, with names a record can carry. */
  predicate WellFormed(t: TaskDecl) {
    |t.outputs| <= 64 && forall o :: o in t.outputs ==> RecordableName(o)
  }

  /** The contents the turn may store are in seen: its inputs and, when it succeeds, its outputs. */
  ghost predicate Known(env: Env, seen: iset<string>, a: Turn) {
    && (forall p :: p in a.task.inputs && p in a.files ==> a.files[p] in seen)
    && (Succeeds(env, a) ==> forall o :: o in a.task.outputs && o in After(env, a) ==> After(env, a)[o] in seen)
  }

  /** The turns that occur store contents without collisions. */
  ghost predicate Storable(env: Env, occ: iset<Turn>, seen: iset<string>) {
    && HashNames(env) && NoCollision(env, seen)
    && (forall a :: a in occ ==> WellFormed(a.task) && Known(env, seen, a))
  }

  // ---- Laws of commands -------------------------------------------------------------------------------

  /** The command writes declared outputs only. */
  ghost predicate KeepsToOutputs(env: Env, t: TaskDecl) {
    forall f :: InputsExist(f, t) ==> RunCommand(env, f, t).writes.Keys <= OutputSet(t)
  }

  /** And all of them when it succeeds. */
  ghost predicate WritesOutputs(env: Env, t: TaskDecl) {
    && KeepsToOutputs(env, t)
    && (forall f :: InputsExist(f, t) && RunCommand(env, f, t).ok ==> RunCommand(env, f, t).writes.Keys == OutputSet(t))
  }

  predicate SameInputs(f: Files, f': Files, t: TaskDecl) {
    InputsExist(f, t) && InputsExist(f', t) && forall p :: p in t.inputs ==> f[p] == f'[p]
  }

  /** What the command does is a function of the contents of its declared inputs. */
  ghost predicate Deterministic(env: Env, t: TaskDecl) {
    forall f, f' {:trigger SameInputs(f, f', t)} :: SameInputs(f, f', t) ==> RunCommand(env, f, t) == RunCommand(env, f', t)
  }

  ghost predicate Behaved(env: Env, t: TaskDecl) {
    WellFormed(t) && WritesOutputs(env, t) && Deterministic(env, t)
  }

  /** Where b meets the record of a, the record holds exactly what b's command writes and b's result. */
  ghost predicate KeyLaw(env: Env, a: Turn, b: Turn) {
    Meets(env, a, b) ==>
      && RunCommand(env, b.files, b.task).ok
      && Restored(env, a, b.task) == RunCommand(env, b.files, b.task).writes
      && CleanResultOf(env, After(env, a), a.task) == CleanResultOf(env, After(env, b), b.task)
  }
}
