/** The manifest parser, and the canonical text it inverts. */
module Manifest {
  import opened Graphs
  import opened ReverseEdges
  import opened Tasks
  import opened Text

  // ---- The parser ------------------------------------------------------------------------------

  /** The tasks finished so far and the one being read. */
  datatype Parser = Parser(done: seq<TaskDecl>, cur: Option<TaskDecl>)

  /** The 4096-byte line buffer keeps the first 4095 characters. */
  function Cut(line: string): string {
    if |line| <= 4095 then line else line[..4095]
  }

  /** What stands behind the first '='. */
  function Behind(line: string): Option<string> {
    var eq := IndexOf(line, '=');
    if eq < 0 then None else Some(line[eq + 1..])
  }

  function NameLength(p: string): (n: nat)
    ensures n <= |p|
  {
    if p == [] || IsSpace(p[0]) || p[0] == '{' then 0 else 1 + NameLength(p[1..])
  }

  /** The name behind "task ": up to a space or a brace. */
  function NameIn(rest: string): string {
    var p := SkipSpaces(rest);
    p[..NameLength(p)]
  }

  /** task.c:83-139, on a trimmed line. */
  function ReadLine(s: Parser, line: string): Parser {
    if line == [] || line[0] == '#' then s
    else if "task " <= line then s.(cur := Some(TaskDecl(NameIn(line[5..]), None, [], [], [])))
    else
      match s.cur
      case None => s
      case Some(t) =>
        if "cmd" <= line then
          match Behind(line)
          case None => s
          case Some(v) => s.(cur := Some(t.(cmd := Some(SkipSpaces(v)))))
        else if "inputs" <= line then
          match Behind(line)
          case None => s
          case Some(v) => s.(cur := Some(t.(inputs := CsvItems(Trim(v)))))
        else if "outputs" <= line then
          match Behind(line)
          case None => s
          case Some(v) => s.(cur := Some(t.(outputs := CsvItems(Trim(v)))))
        else if "deps" <= line then
          match Behind(line)
          case None => s
          case Some(v) => s.(cur := Some(t.(deps := CsvItems(Trim(v)))))
        else if '}' in line then Parser(s.done + [t], None)
        else s
  }

  function ReadLines(s: Parser, lines: seq<string>): Parser
    decreases |lines|
  {
    if lines == [] then s else ReadLines(ReadLine(s, Trim(Cut(lines[0]))), lines[1..])
  }

  /** An unclosed task at the end counts. */
  function Finish(s: Parser): seq<TaskDecl> {
    match s.cur
    case None => s.done
    case Some(t) => s.done + [t]
  }

  /** parse_manifest, up to the reverse edges: the lines are the strtok tokens of the text before any NUL. */
  function Parse(content: string): seq<TaskDecl> {
    Finish(ReadLines(Parser([], None), Tokens(CString(content), '\n')))
  }

  // ---- Line by line, on buffers --------------------------------------------------------------------

  /** A C string in a buffer of its own, trimmed in place. */
  method TrimmedCopy(text: string, size: nat) returns (r: string)
    requires '\0' !in text && |text| < size
    ensures r == Trim(text)
  {
    hide Trim, CString;
    var buf := new char[size](i => if 0 <= i < |text| then text[i] else '\0');
    assert buf[..][..|text|] == text && buf[..][|text|] == '\0';
    CStringIs(buf[..], text);
    TrimInPlace(buf);
    r := CString(buf[..]);
  }

  /** The list behind a '=': copied, trimmed and split. */
  method ListBehind(value: string) returns (items: seq<string>)
    requires '\0' !in value
    ensures items == CsvItems(Trim(value))
  {
    var rest := TrimmedCopy(value, |value| + 1);
    items := SplitCsvArray(rest);
  }

  /** The body of the loop, on a line as it stands in the text. */
  method ReadOne(s: Parser, line: string) returns (s': Parser)
    requires '\0' !in line
    ensures s' == ReadLine(s, Trim(Cut(line)))
  {
    hide Trim, CsvItems, NameIn, SkipSpaces, Behind;
    assert forall c :: c in Cut(line) ==> c in line;
    var tmp := TrimmedCopy(Cut(line), 4096);
    TrimSubset(Cut(line));
    if s.cur.None? || tmp == [] || tmp[0] == '#' || "task " <= tmp || "cmd" <= tmp {
      return ReadLine(s, tmp);
    }
    var value := Behind(tmp);
    if value.None? {
      return ReadLine(s, tmp);
    }
    BehindSubset(tmp);
    var t := s.cur.value;
    if "inputs" <= tmp {
      var items := ListBehind(value.value);
      return s.(cur := Some(t.(inputs := items)));
    } else if "outputs" <= tmp {
      var items := ListBehind(value.value);
      return s.(cur := Some(t.(outputs := items)));
    } else if "deps" <= tmp {
      var items := ListBehind(value.value);
      return s.(cur := Some(t.(deps := items)));
    }
    s' := ReadLine(s, tmp);
  }

  lemma BehindSubset(line: string)
    ensures Behind(line).Some? ==> forall c :: c in Behind(line).value ==> c in line
  {}

  /** parse_manifest: the tasks in order, with exact reverse edges when the names are unique. */
  method ParseManifest(content: string) returns (tasks: seq<Task>)
    ensures Decls(tasks) == Parse(content) && NoDup(tasks)
    ensures fresh(tasks)
    ensures LinkedUpTo(tasks, |tasks|, 0)
    ensures NoDup(Names(tasks)) ==> WellLinked(tasks) && Inside(tasks)
    ensures forall t :: t in tasks ==> t.status == Pending && t.taskHash == None
  {
    hide ReadLine, Tokens, CString, Links;
    var lines := Tokens(CString(content), '\n');
    LinesAreStrings(content);
    var s := Parser([], None);
    var i := 0;
    assert lines[0..] == lines;
    while i < |lines|
      invariant 0 <= i <= |lines|
      invariant Finish(ReadLines(s, lines[i..])) == Parse(content)
    {
      assert lines[i..][1..] == lines[i + 1..];
      s := ReadOne(s, lines[i]);
      i := i + 1;
    }
    tasks := Objects(Finish(s));
    BuildReverse(tasks);
    if NoDup(Names(tasks)) { BuiltIsLinked(tasks); }
  }

  lemma LinesAreStrings(content: string)
    ensures forall l :: l in Tokens(CString(content), '\n') ==> '\0' !in l
  {
    CStringChars(content);
    TokensClean(CString(content), '\n');
  }

  /** One fresh task object per declaration. */
  method Objects(decls: seq<TaskDecl>) returns (tasks: seq<Task>)
    ensures Decls(tasks) == decls && NoDup(tasks) && fresh(tasks)
    ensures forall t :: t in tasks ==> t.status == Pending && t.taskHash == None
  {
    tasks := [];
    for i := 0 to |decls|
      invariant |tasks| == i && Decls(tasks) == decls[..i] && NoDup(tasks)
      invariant fresh(tasks) && forall t :: t in tasks ==> t.status == Pending && t.taskHash == None
    {
      var t := new Task(decls[i]);
      assert forall k :: 0 <= k < |tasks| ==> tasks[k] in tasks;
      tasks := tasks + [t];
    }
  }

  // ---- The canonical text --------------------------------------------------------------------------

  function KeyLine(key: string, value: string): string {
    "  " + key + " = " + value
  }

  /** The lines of a task. */
  function Lines(t: TaskDecl): seq<string> {
    ["task " + t.name + " {"]
    + (match t.cmd case Some(c) => [KeyLine("cmd", c)] case None => [])
    + [KeyLine("inputs", Join(t.inputs, ",")), KeyLine("outputs", Join(t.outputs, ",")), KeyLine("deps", Join(t.deps, ",")), "}"]
  }

  function AllLines(ts: seq<TaskDecl>): seq<string> {
    if ts == [] then [] else Lines(ts[0]) + AllLines(ts[1..])
  }

  function Show(ts: seq<TaskDecl>): string {
    ShowLines(AllLines(ts))
  }

  predicate PlainLine(line: string) {
    line != [] && '\n' !in line && '\0' !in line && |line| <= 4095
  }

  /** What the canonical text can carry: a name without spaces and braces, a trimmed command, clean
      lists, and lines that fit the buffer. */
  predicate Printable(t: TaskDecl) {
    && (forall c :: c in t.name ==> !IsSpace(c) && c != '{')
    && (t.cmd.Some? ==> Trimmed(t.cmd.value) && (t.cmd.value != [] ==> !IsSpace(t.cmd.value[0])))
    && CsvClean(t.inputs) && CsvClean(t.outputs) && CsvClean(t.deps)
    && (forall line :: line in Lines(t) ==> PlainLine(line))
  }

  // ---- Line by line ------------------------------------------------------------------------------------

  /** A key line as it looks after trim. */
  function TrimmedKeyLine(key: string, value: string): string {
    key + " =" + if value == [] then "" else " " + value
  }

  lemma TrimKeyLine(key: string, value: string)
    requires key != [] && !IsBlank(key[0]) && Trimmed(value)
    ensures Trim(KeyLine(key, value)) == TrimmedKeyLine(key, value)
  {
    var body := key + " = " + value;
    assert KeyLine(key, value) == Blanks(2) + body;
    TrimLeftBlanks(2, body);
    if value != [] {
      TrimTrimmed(body);
      assert body == TrimmedKeyLine(key, value);
    } else {
      assert TrimLeft(body) == body;
      var line := key + " =";
      assert line[|line| - 1] == '=' && TrimRight(line) == line;
      assert body[|body| - 1] == ' ' && body[..|body| - 1] == line;
      assert TrimRight(body) == TrimRight(line);
    }
  }

  lemma KeyLineValue(key: string, value: string)
    requires '=' !in key && Trimmed(value)
    ensures var v := if value == [] then "" else " " + value;
            Behind(TrimmedKeyLine(key, value)) == Some(v) && Trim(v) == value
    ensures var v := if value == [] then "" else " " + value;
            value == [] || !IsSpace(value[0]) ==> SkipSpaces(v) == value
  {
    var v := if value == [] then "" else " " + value;
    var line := TrimmedKeyLine(key, value);
    assert line == (key + " ") + ['='] + v;
    IndexOfMiddle(key + " ", '=', v);
    if value != [] {
      assert v == Blanks(1) + value;
      TrimIndented(1, value);
      assert v[1..] == value;
    }
  }

  lemma {:induction false} JoinTrimmed(items: seq<string>)
    requires CsvClean(items)
    ensures Trimmed(Join(items, ","))
    ensures items != [] ==> Join(items, ",") != []
  {
    if items != [] {
      assert items[0] in items;
      if |items| > 1 {
        CsvCleanRest(items);
        JoinTrimmed(items[1..]);
      }
    }
  }

  lemma ReadCmd(s: Parser, t: TaskDecl, c: string)
    requires s.cur == Some(t) && Trimmed(c) && (c != [] ==> !IsSpace(c[0]))
    ensures ReadLine(s, Trim(KeyLine("cmd", c))) == s.(cur := Some(t.(cmd := Some(c))))
  {
    TrimKeyLine("cmd", c);
    KeyLineValue("cmd", c);
    assert TrimmedKeyLine("cmd", c)[0] == 'c';
  }

  /** What a list line gives. */
  lemma ListLine(key: string, items: seq<string>) returns (v: string)
    requires key != [] && '=' !in key && !IsBlank(key[0]) && CsvClean(items)
    ensures var line := Trim(KeyLine(key, Join(items, ",")));
            key <= line && Behind(line) == Some(v) && CsvItems(Trim(v)) == items
  {
    hide CsvItems, Join, CsvClean, IsBlank, Behind;
    var value := Join(items, ",");
    JoinTrimmed(items);
    TrimKeyLine(key, value);
    KeyLineValue(key, value);
    CsvRoundTrip(items);
    v := if value == [] then "" else " " + value;
  }

  lemma ReadInputs(s: Parser, t: TaskDecl, items: seq<string>)
    requires s.cur == Some(t) && CsvClean(items)
    ensures ReadLine(s, Trim(KeyLine("inputs", Join(items, ",")))) == s.(cur := Some(t.(inputs := items)))
  {
    hide CsvItems, Join, Trim, Behind, CsvClean, KeyLine, NameIn;
    var v := ListLine("inputs", items);
    assert Trim(KeyLine("inputs", Join(items, ",")))[0] == 'i';
  }

  lemma ReadOutputs(s: Parser, t: TaskDecl, items: seq<string>)
    requires s.cur == Some(t) && CsvClean(items)
    ensures ReadLine(s, Trim(KeyLine("outputs", Join(items, ",")))) == s.(cur := Some(t.(outputs := items)))
  {
    hide CsvItems, Join, Trim, Behind, CsvClean, KeyLine, NameIn;
    var v := ListLine("outputs", items);
    assert Trim(KeyLine("outputs", Join(items, ",")))[0] == 'o';
  }

  lemma ReadDeps(s: Parser, t: TaskDecl, items: seq<string>)
    requires s.cur == Some(t) && CsvClean(items)
    ensures ReadLine(s, Trim(KeyLine("deps", Join(items, ",")))) == s.(cur := Some(t.(deps := items)))
  {
    hide CsvItems, Join, Trim, Behind, CsvClean, KeyLine, NameIn, SkipSpaces;
    var v := ListLine("deps", items);
    var line := Trim(KeyLine("deps", Join(items, ",")));
    assert line[0] == 'd' && !("cmd" <= line) && !("inputs" <= line) && !("outputs" <= line) && !("task " <= line);
  }

  lemma {:induction false} NameEnds(name: string)
    requires forall c :: c in name ==> !IsSpace(c) && c != '{'
    ensures NameLength(name + " {") == |name|
  {
    var p := name + " {";
    if name != [] {
      assert p[0] == name[0] && name[0] in name;
      assert p[1..] == name[1..] + " {";
      assert forall c :: c in name[1..] ==> c in name;
      NameEnds(name[1..]);
    }
  }

  lemma ReadTaskLine(s: Parser, name: string)
    requires forall c :: c in name ==> !IsSpace(c) && c != '{'
    ensures ReadLine(s, Trim("task " + name + " {")) == s.(cur := Some(TaskDecl(name, None, [], [], [])))
  {
    var line := "task " + name + " {";
    TrimTrimmed(line);
    var rest := name + " {";
    assert line[0] == 't' && line[5..] == rest;
    NameEnds(name);
    if name == [] {
      assert rest == " {" && rest[1..] == "{";
      assert SkipSpaces(rest) == "{";
    } else {
      assert rest[0] == name[0] && name[0] in name;
      assert rest[..|name|] == name;
    }
  }

  lemma ReadClose(s: Parser, t: TaskDecl)
    requires s.cur == Some(t)
    ensures ReadLine(s, Trim("}")) == Parser(s.done + [t], None)
  {}

  // ---- Task by task ------------------------------------------------------------------------------------

  lemma ReadCons(s: Parser, line: string, rest: seq<string>)
    requires |line| <= 4095
    ensures ReadLines(s, [line] + rest) == ReadLines(ReadLine(s, Trim(line)), rest)
  {
    assert ([line] + rest)[1..] == rest;
  }

  /** Reading a task's lines appends the task. */
  lemma ReadTask(s: Parser, t: TaskDecl, rest: seq<string>)
    requires s.cur == None && Printable(t)
    ensures ReadLines(s, Lines(t) + rest) == ReadLines(Parser(s.done + [t], None), rest)
  {
    hide ReadLine, Trim, Printable;
    var first := "task " + t.name + " {";
    var ins, outs := KeyLine("inputs", Join(t.inputs, ",")), KeyLine("outputs", Join(t.outputs, ","));
    var ds := KeyLine("deps", Join(t.deps, ","));
    LinesFit(t);
    var t0 := TaskDecl(t.name, None, [], [], []);
    var t1 := t0.(cmd := t.cmd);
    var t2 := t1.(inputs := t.inputs);
    var t3 := t2.(outputs := t.outputs);
    var tail := [ins] + ([outs] + ([ds] + (["}"] + rest)));
    var s0 := s.(cur := Some(t0));
    ReadTaskLine(s, t.name);
    match t.cmd {
      case Some(c) =>
        ReadCmd(s0, t0, c);
        assert Lines(t) + rest == [first] + ([KeyLine("cmd", c)] + tail);
        ReadCons(s, first, [KeyLine("cmd", c)] + tail);
        ReadCons(s0, KeyLine("cmd", c), tail);
      case None =>
        assert Lines(t) + rest == [first] + tail;
        ReadCons(s, first, tail);
    }
    ReadLists(s, t1, t, rest);
  }

  lemma LinesFit(t: TaskDecl)
    requires Printable(t)
    ensures forall c :: c in t.name ==> !IsSpace(c) && c != '{'
    ensures t.cmd.Some? ==> Trimmed(t.cmd.value) && (t.cmd.value != [] ==> !IsSpace(t.cmd.value[0]))
    ensures t.cmd.Some? ==> |KeyLine("cmd", t.cmd.value)| <= 4095
    ensures CsvClean(t.inputs) && CsvClean(t.outputs) && CsvClean(t.deps)
    ensures |"task " + t.name + " {"| <= 4095 && |KeyLine("inputs", Join(t.inputs, ","))| <= 4095
    ensures |KeyLine("outputs", Join(t.outputs, ","))| <= 4095 && |KeyLine("deps", Join(t.deps, ","))| <= 4095
  {
    var lines := Lines(t);
    var n := |lines|;
    assert lines[0] == "task " + t.name + " {" && lines[0] in lines;
    if t.cmd.Some? { assert lines[1] == KeyLine("cmd", t.cmd.value) && lines[1] in lines; }
    assert lines[n - 4] == KeyLine("inputs", Join(t.inputs, ",")) && lines[n - 4] in lines;
    assert lines[n - 3] == KeyLine("outputs", Join(t.outputs, ",")) && lines[n - 3] in lines;
    assert lines[n - 2] == KeyLine("deps", Join(t.deps, ",")) && lines[n - 2] in lines;
  }

  lemma ReadLists(s: Parser, t1: TaskDecl, t: TaskDecl, rest: seq<string>)
    requires Printable(t) && t1 == TaskDecl(t.name, t.cmd, [], [], [])
    ensures ReadLines(s.(cur := Some(t1)), [KeyLine("inputs", Join(t.inputs, ","))] + ([KeyLine("outputs", Join(t.outputs, ","))] +
                      ([KeyLine("deps", Join(t.deps, ","))] + (["}"] + rest)))) ==
            ReadLines(Parser(s.done + [t], None), rest)
  {
    hide ReadLine, Trim, Printable, KeyLine, Join, Parse;
    LinesFit(t);
    var ins, outs := KeyLine("inputs", Join(t.inputs, ",")), KeyLine("outputs", Join(t.outputs, ","));
    var ds := KeyLine("deps", Join(t.deps, ","));
    var t2 := t1.(inputs := t.inputs);
    var t3 := t2.(outputs := t.outputs);
    var s1, s2, s3, s4 := s.(cur := Some(t1)), s.(cur := Some(t2)), s.(cur := Some(t3)), s.(cur := Some(t));
    ReadInputs(s1, t1, t.inputs);
    ReadOutputs(s2, t2, t.outputs);
    ReadDeps(s3, t3, t.deps);
    ReadClose(s4, t);
    ReadCons(s1, ins, [outs] + ([ds] + (["}"] + rest)));
    ReadCons(s2, outs, [ds] + (["}"] + rest));
    ReadCons(s3, ds, ["}"] + rest);
    ReadCons(s4, "}", rest);
  }

  lemma {:induction false} ReadAll(s: Parser, ts: seq<TaskDecl>)
    requires s.cur == None && forall t :: t in ts ==> Printable(t)
    ensures ReadLines(s, AllLines(ts)) == Parser(s.done + ts, None)
    decreases |ts|
  {
    hide Lines, ReadLine, Printable;
    if ts == [] {
      assert s.done + ts == s.done;
    } else {
      assert ts[0] in ts && forall t :: t in ts[1..] ==> t in ts;
      ReadTask(s, ts[0], AllLines(ts[1..]));
      ReadAll(Parser(s.done + [ts[0]], None), ts[1..]);
      assert s.done + [ts[0]] + ts[1..] == s.done + ts;
    }
  }

  /** The lines of a text made of plain lines are those lines. */
  lemma {:induction false} TokensOfLines(lines: seq<string>)
    requires forall l :: l in lines ==> PlainLine(l)
    ensures Tokens(ShowLines(lines), '\n') == lines && '\0' !in ShowLines(lines)
  {
    if lines == [] {
      TokensWhole("", '\n');
    } else {
      assert lines[0] in lines && forall l :: l in lines[1..] ==> l in lines;
      TokensOfLines(lines[1..]);
      TokensMiddle(lines[0], '\n', ShowLines(lines[1..]));
    }
  }

  lemma {:induction false} AllPlain(ts: seq<TaskDecl>)
    requires forall t :: t in ts ==> Printable(t)
    ensures forall l :: l in AllLines(ts) ==> PlainLine(l)
  {
    if ts != [] {
      assert ts[0] in ts && forall t :: t in ts[1..] ==> t in ts;
      AllPlain(ts[1..]);
    }
  }

  lemma {:induction false} WholeCString(s: string)
    requires '\0' !in s
    ensures CString(s) == s
  {
    if s != [] {
      assert s[0] in s && forall c :: c in s[1..] ==> c in s;
      WholeCString(s[1..]);
    }
  }

  /** Parsing the canonical text of any printable tasks gives those tasks back, in order. */
  lemma ManifestRoundTrip(ts: seq<TaskDecl>)
    requires forall t :: t in ts ==> Printable(t)
    ensures Parse(Show(ts)) == ts
  {
    AllPlain(ts);
    TokensOfLines(AllLines(ts));
    WholeCString(Show(ts));
    ReadAll(Parser([], None), ts);
    assert [] + ts == ts;
  }

  // ---- What the parser can produce ------------------------------------------------------------------------

  predicate Plain(s: string) { '\n' !in s && '\0' !in s }

  predicate PlainItems(items: seq<string>) {
    CsvClean(items) && forall x :: x in items ==> Plain(x)
  }

  /** Printable but for the lengths of the lines. */
  predicate Readable(t: TaskDecl) {
    && (forall c :: c in t.name ==> !IsSpace(c) && c != '{') && Plain(t.name)
    && (t.cmd.Some? ==> Plain(t.cmd.value) && Trimmed(t.cmd.value) && (t.cmd.value != [] ==> !IsSpace(t.cmd.value[0])))
    && PlainItems(t.inputs) && PlainItems(t.outputs) && PlainItems(t.deps)
  }

  lemma {:induction false} NameIsPlain(p: string)
    requires Plain(p)
    ensures forall c :: c in p[..NameLength(p)] ==> !IsSpace(c) && c != '{'
    ensures Plain(p[..NameLength(p)])
  {
    if p != [] && !IsSpace(p[0]) && p[0] != '{' {
      assert Plain(p[1..]) by { assert forall c :: c in p[1..] ==> c in p; }
      NameIsPlain(p[1..]);
      assert p[..NameLength(p)] == [p[0]] + p[1..][..NameLength(p[1..])];
      assert p[0] in p;
    }
  }

  lemma {:induction false} SkipKeeps(s: string)
    ensures forall c :: c in SkipSpaces(s) ==> c in s
    ensures SkipSpaces(s) != [] ==> !IsSpace(SkipSpaces(s)[0]) && SkipSpaces(s)[|SkipSpaces(s)| - 1] == s[|s| - 1]
  {
    if s != [] && IsSpace(s[0]) {
      SkipKeeps(s[1..]);
      assert forall c :: c in s[1..] ==> c in s;
    }
  }

  lemma {:induction false} TrimLeftFront(s: string)
    ensures TrimLeft(s) != [] ==> !IsBlank(TrimLeft(s)[0])
  {
    if s != [] && IsBlank(s[0]) { TrimLeftFront(s[1..]); }
  }

  lemma {:induction false} TrimRightBack(s: string)
    ensures TrimRight(s) <= s && (TrimRight(s) != [] ==> !IsBlank(TrimRight(s)[|TrimRight(s)| - 1]))
  {
    if s != [] && IsBlank(s[|s| - 1]) { TrimRightBack(s[..|s| - 1]); }
  }

  /** What trim returns is trimmed. */
  lemma TrimIsTrimmed(s: string)
    ensures Trimmed(Trim(s))
  {
    TrimLeftFront(s);
    TrimRightBack(TrimLeft(s));
  }

  /** The items of any list are clean and made of its characters. */
  lemma ItemsAreClean(line: string)
    requires Plain(line)
    ensures PlainItems(CsvItems(line))
  {
    var parts := Split(line, ',');
    SplitPieces(line, ',');
    SplitChars(line, ',');
    NonEmptyMembers(TrimAll(parts));
    forall x | x in CsvItems(line)
      ensures x != [] && Trimmed(x) && ',' !in x && Plain(x)
    {
      var i :| 0 <= i < |parts| && TrimAll(parts)[i] == x;
      assert parts[i] in parts;
      TrimIsTrimmed(parts[i]);
      TrimSubset(parts[i]);
    }
  }

  lemma BehindKeeps(line: string)
    requires Plain(line) && Trimmed(line) && Behind(line).Some?
    ensures Plain(Behind(line).value)
    ensures Behind(line).value != [] ==> !IsBlank(Behind(line).value[|Behind(line).value| - 1])
  {}

  lemma ReadLineReadable(s: Parser, line: string)
    requires Plain(line) && Trimmed(line) && (s.cur.Some? ==> Readable(s.cur.value))
    requires forall t :: t in s.done ==> Readable(t)
    ensures var s' := ReadLine(s, line);
            (s'.cur.Some? ==> Readable(s'.cur.value)) && forall t :: t in s'.done ==> Readable(t)
  {
    hide CsvItems, IndexOf;
    if "task " <= line {
      var rest := line[5..];
      assert forall c :: c in rest ==> c in line;
      SkipKeeps(rest);
      NameIsPlain(SkipSpaces(rest));
    } else if s.cur.Some? && Behind(line).Some? {
      BehindKeeps(line);
      var v := Behind(line).value;
      SkipKeeps(v);
      TrimSubset(v);
      ItemsAreClean(Trim(v));
      CmdReadable(v);
    }
  }

  lemma CmdReadable(v: string)
    requires Plain(v) && (v != [] ==> !IsBlank(v[|v| - 1]))
    ensures var c := SkipSpaces(v); Plain(c) && Trimmed(c) && (c != [] ==> !IsSpace(c[0]))
  {}

  lemma {:induction false} ReadLinesReadable(s: Parser, lines: seq<string>)
    requires (s.cur.Some? ==> Readable(s.cur.value)) && forall t :: t in s.done ==> Readable(t)
    requires forall l :: l in lines ==> Plain(l)
    ensures forall t :: t in Finish(ReadLines(s, lines)) ==> Readable(t)
    decreases |lines|
  {
    hide ReadLine, Readable;
    if lines != [] {
      var line := Cut(lines[0]);
      assert lines[0] in lines && forall l :: l in lines[1..] ==> l in lines;
      assert forall c :: c in line ==> c in lines[0];
      TrimSubset(line);
      TrimIsTrimmed(line);
      ReadLineReadable(s, Trim(line));
      ReadLinesReadable(ReadLine(s, Trim(line)), lines[1..]);
    }
  }

  lemma {:induction false} CStringChars(s: string)
    ensures '\0' !in CString(s)
  {
    if s != [] && s[0] != '\0' { CStringChars(s[1..]); }
  }

  /** Every task of every manifest is printable as soon as its lines fit. */
  lemma ParsedIsReadable(content: string)
    ensures forall t :: t in Parse(content) ==> Readable(t)
  {
    var text := CString(content);
    CStringChars(content);
    TokensClean(text, '\n');
    assert forall l :: l in Tokens(text, '\n') ==> Plain(l);
    ReadLinesReadable(Parser([], None), Tokens(text, '\n'));
  }

  lemma {:induction false} JoinIsPlain(items: seq<string>)
    requires PlainItems(items)
    ensures Plain(Join(items, ","))
  {
    if items != [] {
      assert items[0] in items;
      assert PlainItems(items[1..]) by { assert forall x :: x in items[1..] ==> x in items; }
      if |items| > 1 { JoinIsPlain(items[1..]); }
    }
  }

  lemma KeyLineIsPlain(key: string, value: string)
    requires Plain(key) && Plain(value)
    ensures Plain(KeyLine(key, value)) && KeyLine(key, value) != []
  {}

  lemma LinesArePlain(t: TaskDecl)
    requires Readable(t)
    ensures forall line :: line in Lines(t) ==> Plain(line) && line != []
  {
    hide Join, KeyLine;
    JoinIsPlain(t.inputs);
    JoinIsPlain(t.outputs);
    JoinIsPlain(t.deps);
    if t.cmd.Some? { KeyLineIsPlain("cmd", t.cmd.value); }
    KeyLineIsPlain("inputs", Join(t.inputs, ","));
    KeyLineIsPlain("outputs", Join(t.outputs, ","));
    KeyLineIsPlain("deps", Join(t.deps, ","));
    assert Plain("task " + t.name + " {");
  }

  lemma ReadableIsPrintable(t: TaskDecl)
    requires Readable(t) && forall line :: line in Lines(t) ==> |line| <= 4095
    ensures Printable(t)
  {
    hide Lines;
    LinesArePlain(t);
  }

  /** Printing what was parsed and parsing it again changes nothing, for any text whatever. */
  lemma ParseShowParse(content: string)
    requires forall t, line :: t in Parse(content) && line in Lines(t) ==> |line| <= 4095
    ensures Parse(Show(Parse(content))) == Parse(content)
  {
    hide Parse, Lines, Show;
    ParsedIsReadable(content);
    forall t | t in Parse(content)
      ensures Printable(t)
    {
      ReadableIsPrintable(t);
    }
    ManifestRoundTrip(Parse(content));
  }
}
