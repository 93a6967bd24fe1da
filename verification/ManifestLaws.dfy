/** What the parser does with any text, line by line: which lines can be left out, which forms of a line
    mean the same, and where a task begins and ends. Every law is about the tasks parsed from two texts. */
module ManifestLaws {
  import opened Manifest
  import opened Tasks
  import opened Text

  // ---- Lines of any text ---------------------------------------------------------------------------

  /** A line, possibly empty, of any length. */
  predicate IsLine(line: string) { '\n' !in line && '\0' !in line }

  predicate AreLines(lines: seq<string>) {
    forall l :: l in lines ==> IsLine(l)
  }

  /** What reading a line does. */
  function Read(s: Parser, line: string): Parser {
    ReadLine(s, Trim(Cut(line)))
  }

  lemma {:induction false} TokensOfText(lines: seq<string>)
    requires AreLines(lines)
    ensures Tokens(ShowLines(lines), '\n') == NonEmpty(lines) && '\0' !in ShowLines(lines)
  {
    if lines == [] {
      TokensWhole("", '\n');
    } else {
      assert lines[0] in lines && forall l :: l in lines[1..] ==> l in lines;
      TokensOfText(lines[1..]);
      TokensMiddle(lines[0], '\n', ShowLines(lines[1..]));
    }
  }

  lemma ReadEmpty(s: Parser)
    ensures Read(s, "") == s
  {}

  lemma {:induction false} EmptyLinesSkipped(s: Parser, lines: seq<string>)
    ensures ReadLines(s, NonEmpty(lines)) == ReadLines(s, lines)
    decreases |lines|
  {
    hide ReadLine, Trim, Cut;
    if lines != [] {
      var s' := Read(s, lines[0]);
      EmptyLinesSkipped(s', lines[1..]);
      if lines[0] == [] {
        ReadEmpty(s);
        assert [] + NonEmpty(lines[1..]) == NonEmpty(lines[1..]);
      } else {
        assert ([lines[0]] + NonEmpty(lines[1..]))[1..] == NonEmpty(lines[1..]);
      }
    }
  }

  const START := Parser([], None)

  lemma ParseText(lines: seq<string>)
    requires AreLines(lines)
    ensures Parse(ShowLines(lines)) == Finish(ReadLines(START, lines))
  {
    hide ReadLine, Trim, Cut;
    TokensOfText(lines);
    WholeCString(ShowLines(lines));
    EmptyLinesSkipped(START, lines);
  }

  lemma {:induction false} ReadBoth(s: Parser, xs: seq<string>, ys: seq<string>)
    ensures ReadLines(s, xs + ys) == ReadLines(ReadLines(s, xs), ys)
    decreases |xs|
  {
    hide ReadLine, Trim, Cut;
    if xs == [] {
      assert xs + ys == ys;
    } else {
      assert (xs + ys)[0] == xs[0] && (xs + ys)[1..] == xs[1..] + ys;
      ReadBoth(Read(s, xs[0]), xs[1..], ys);
    }
  }

  /** Reading a does what reading b does, whatever came before. */
  ghost predicate Alike(a: seq<string>, b: seq<string>) {
    forall s: Parser :: ReadLines(s, a) == ReadLines(s, b)
  }

  /** Lines that read alike may stand for one another anywhere. */
  lemma Exchange(xs: seq<string>, a: seq<string>, b: seq<string>, ys: seq<string>)
    requires AreLines(xs) && AreLines(a) && AreLines(b) && AreLines(ys) && Alike(a, b)
    ensures Parse(ShowLines(xs + a + ys)) == Parse(ShowLines(xs + b + ys))
  {
    hide ReadLine, Trim, Cut;
    ParseText(xs + a + ys);
    ParseText(xs + b + ys);
    var s := ReadLines(START, xs);
    ReadBoth(START, xs, a);
    ReadBoth(START, xs, b);
    ReadBoth(START, xs + a, ys);
    ReadBoth(START, xs + b, ys);
    assert ReadLines(s, a) == ReadLines(s, b);
  }

  lemma ReadOneLine(s: Parser, line: string)
    ensures ReadLines(s, [line]) == Read(s, line)
  {
    hide ReadLine, Trim, Cut;
    assert [line][1..] == [];
  }

  lemma ReadTwoLines(s: Parser, c: string, d: string)
    ensures ReadLines(s, [c, d]) == Read(Read(s, c), d)
  {
    hide ReadLine, Trim, Cut;
    assert [c, d] == [c] + [d];
    ReadBoth(s, [c], [d]);
    ReadOneLine(s, c);
    ReadOneLine(Read(s, c), d);
  }

  lemma NoLines(s: Parser)
    ensures ReadLines(s, []) == s
  {}

  /** A line without effect can be left out. */
  lemma LeaveOut(xs: seq<string>, c: string, ys: seq<string>)
    requires AreLines(xs) && IsLine(c) && AreLines(ys) && forall s :: Read(s, c) == s
    ensures Parse(ShowLines(xs + [c] + ys)) == Parse(ShowLines(xs + ys))
  {
    hide Read, ReadLines, Parse, ShowLines;
    forall s: Parser
      ensures ReadLines(s, [c]) == ReadLines(s, [])
    {
      ReadOneLine(s, c);
      NoLines(s);
    }
    Exchange(xs, [c], [], ys);
    assert xs + [] + ys == xs + ys;
  }

  /** Lines that do the same can stand for one another. */
  lemma Replace(xs: seq<string>, c: string, d: string, ys: seq<string>)
    requires AreLines(xs) && IsLine(c) && IsLine(d) && AreLines(ys) && forall s :: Read(s, c) == Read(s, d)
    ensures Parse(ShowLines(xs + [c] + ys)) == Parse(ShowLines(xs + [d] + ys))
  {
    hide Read, ReadLines;
    forall s: Parser
      ensures ReadLines(s, [c]) == ReadLines(s, [d])
    {
      ReadOneLine(s, c);
      ReadOneLine(s, d);
    }
    Exchange(xs, [c], [d], ys);
  }

  // ---- Lines that mean nothing --------------------------------------------------------------------------

  /** Blank lines and comments, braces in them included. */
  lemma CommentsSkipped(xs: seq<string>, c: string, ys: seq<string>)
    requires AreLines(xs) && IsLine(c) && |c| <= 4095 && AreLines(ys)
    requires Trim(c) == [] || Trim(c)[0] == '#'
    ensures Parse(ShowLines(xs + [c] + ys)) == Parse(ShowLines(xs + ys))
  {
    hide Trim;
    LeaveOut(xs, c, ys);
  }

  /** Of a long line only the first 4095 characters count. */
  lemma LongLine(xs: seq<string>, c: string, ys: seq<string>)
    requires AreLines(xs) && IsLine(c) && |c| >= 4095 && AreLines(ys)
    ensures Parse(ShowLines(xs + [c] + ys)) == Parse(ShowLines(xs + [c[..4095]] + ys))
  {
    hide Trim, ReadLine;
    assert Cut(c) == Cut(c[..4095]);
    Replace(xs, c, c[..4095], ys);
  }

  /** Nothing behind a NUL counts. */
  lemma NulEnds(text: string, more: string)
    requires '\0' !in text
    ensures Parse(text + ['\0'] + more) == Parse(text)
  {
    hide ReadLines, Finish, Tokens;
    CStringIs(text + ['\0'] + more, text);
    WholeCString(text);
  }

  /** The last line needs no newline. */
  lemma LastNewlineOptional(xs: seq<string>, c: string)
    requires AreLines(xs) && IsLine(c)
    ensures Parse(ShowLines(xs) + c) == Parse(ShowLines(xs + [c]))
  {
    hide ReadLines, Finish;
    TokensOfText(xs + [c]);
    WholeCString(ShowLines(xs + [c]));
    LastToken(xs, c);
    WholeCString(ShowLines(xs) + c);
  }

  lemma {:induction false} LastToken(xs: seq<string>, c: string)
    requires AreLines(xs) && IsLine(c)
    ensures Tokens(ShowLines(xs) + c, '\n') == NonEmpty(xs + [c]) && '\0' !in ShowLines(xs) + c
  {
    if xs == [] {
      assert ShowLines(xs) + c == c && xs + [c] == [c];
      TokensWhole(c, '\n');
      NonEmptyOne(c);
    } else {
      assert xs[0] in xs && forall l :: l in xs[1..] ==> l in xs;
      LastToken(xs[1..], c);
      assert ShowLines(xs) + c == xs[0] + ['\n'] + (ShowLines(xs[1..]) + c);
      TokensMiddle(xs[0], '\n', ShowLines(xs[1..]) + c);
      assert xs + [c] == [xs[0]] + (xs[1..] + [c]);
      NonEmptyCons(xs[0], xs[1..] + [c]);
    }
  }

  // ---- The kinds of lines, by their trimmed text -----------------------------------------------------------

  predicate IsKey(key: string) {
    key == "cmd" || key == "inputs" || key == "outputs" || key == "deps"
  }

  /** No blank line, comment, header or key line. */
  predicate IsOther(line: string) {
    && line != [] && line[0] != '#' && !("task " <= line)
    && !("cmd" <= line) && !("inputs" <= line) && !("outputs" <= line) && !("deps" <= line)
  }

  function WithField(t: TaskDecl, key: string, value: string): TaskDecl
    requires IsKey(key)
  {
    if key == "cmd" then t.(cmd := Some(SkipSpaces(value)))
    else if key == "inputs" then t.(inputs := CsvItems(Trim(value)))
    else if key == "outputs" then t.(outputs := CsvItems(Trim(value)))
    else t.(deps := CsvItems(Trim(value)))
  }

  lemma KeysDiffer(key: string, line: string)
    requires IsKey(key) && key <= line
    ensures line != [] && line[0] != '#' && !("task " <= line)
    ensures "cmd" <= line <==> key == "cmd"
    ensures "inputs" <= line <==> key == "inputs"
    ensures "outputs" <= line <==> key == "outputs"
    ensures "deps" <= line <==> key == "deps"
  {
    assert line[0] == key[0];
  }

  lemma ReadKey(s: Parser, key: string, line: string)
    requires IsKey(key) && key <= line
    ensures ReadLine(s, line) ==
            if s.cur.Some? && Behind(line).Some? then s.(cur := Some(WithField(s.cur.value, key, Behind(line).value))) else s
  {
    hide Behind, SkipSpaces, CsvItems, Trim, NameIn;
    KeysDiffer(key, line);
  }

  lemma ReadHeader(s: Parser, line: string)
    requires "task " <= line
    ensures ReadLine(s, line) == s.(cur := Some(TaskDecl(NameIn(line[5..]), None, [], [], [])))
  {
    hide NameIn;
    assert line[0] == 't';
  }

  lemma ReadOther(s: Parser, line: string)
    requires IsOther(line)
    ensures ReadLine(s, line) == if s.cur.Some? && '}' in line then Parser(s.done + [s.cur.value], None) else s
  {
    hide NameIn, Behind;
  }

  // ---- Where a task ends ---------------------------------------------------------------------------------------

  lemma TrimKeepsBraces(c: string)
    ensures '}' in Trim(c) <==> '}' in c
  {
    hide Trim;
    var l, r := TrimMeans(c);
  }

  lemma TrimBrace()
    ensures Trim("}") == "}" && IsOther("}")
  {
    TrimTrimmed("}");
  }

  /** Any other line with a brace in it closes the task. */
  lemma BraceCloses(xs: seq<string>, c: string, ys: seq<string>)
    requires AreLines(xs) && IsLine(c) && |c| <= 4095 && AreLines(ys) && IsOther(Trim(c)) && '}' in c
    ensures Parse(ShowLines(xs + [c] + ys)) == Parse(ShowLines(xs + ["}"] + ys))
  {
    hide Trim, ReadLine, IsOther, Parse, ShowLines;
    TrimBrace();
    TrimKeepsBraces(c);
    forall s
      ensures Read(s, c) == Read(s, "}")
    {
      ReadOther(s, Trim(c));
      ReadOther(s, "}");
    }
    Replace(xs, c, "}", ys);
  }

  /** And one without a brace means nothing. */
  lemma OtherLinesSkipped(xs: seq<string>, c: string, ys: seq<string>)
    requires AreLines(xs) && IsLine(c) && |c| <= 4095 && AreLines(ys) && IsOther(Trim(c)) && '}' !in c
    ensures Parse(ShowLines(xs + [c] + ys)) == Parse(ShowLines(xs + ys))
  {
    hide Trim, ReadLine, IsOther, Parse, ShowLines;
    TrimKeepsBraces(c);
    forall s
      ensures Read(s, c) == s
    {
      ReadOther(s, Trim(c));
    }
    LeaveOut(xs, c, ys);
  }

  /** The brace that closes the last task can be left out. */
  lemma LastBraceOptional(xs: seq<string>)
    requires AreLines(xs)
    ensures Parse(ShowLines(xs + ["}"])) == Parse(ShowLines(xs))
  {
    hide ReadLine, Trim, IsOther, ReadLines;
    var s := ReadLines(START, xs);
    ParseText(xs);
    ParseText(xs + ["}"]);
    ReadBoth(START, xs, ["}"]);
    ReadOneLine(s, "}");
    TrimBrace();
    ReadOther(s, "}");
  }

  lemma CanonicalEnd(ts: seq<TaskDecl>)
    requires ts != []
    ensures AllLines(ts) != [] && AllLines(ts)[|AllLines(ts)| - 1] == "}"
  {
    if |ts| > 1 { CanonicalEnd(ts[1..]); }
  }

  /** So the canonical text without its last line gives the same tasks. */
  lemma UnclosedTaskCounts(ts: seq<TaskDecl>)
    requires ts != [] && forall t :: t in ts ==> Printable(t)
    ensures AllLines(ts) != []
    ensures Parse(ShowLines(AllLines(ts)[..|AllLines(ts)| - 1])) == ts
  {
    hide Parse, ShowLines, Printable, Lines;
    var lines := AllLines(ts);
    CanonicalEnd(ts);
    AllPlain(ts);
    var xs := lines[..|lines| - 1];
    assert lines == xs + ["}"];
    assert AreLines(xs) by { assert forall l :: l in xs ==> l in lines; }
    LastBraceOptional(xs);
    ManifestRoundTrip(ts);
  }

  /** Between tasks only a header counts. */
  lemma OutsideTasks(xs: seq<string>, c: string, ys: seq<string>)
    requires AreLines(xs) && IsLine(c) && |c| <= 4095 && AreLines(ys) && !("task " <= Trim(c))
    ensures Parse(ShowLines(xs + ["}", c] + ys)) == Parse(ShowLines(xs + ["}"] + ys))
    ensures Parse(ShowLines([c] + ys)) == Parse(ShowLines(ys))
  {
    hide Trim, IsOther, Parse, ShowLines, ReadLines;
    TrimBrace();
    forall s: Parser
      ensures ReadLines(s, ["}", c]) == ReadLines(s, ["}"])
    {
      ReadTwoLines(s, "}", c);
      ReadOneLine(s, "}");
      ReadOther(s, "}");
      NothingOpen(Read(s, "}"), Trim(c));
    }
    Exchange(xs, ["}", c], ["}"], ys);
    NothingOpen(START, Trim(c));
    FirstLine(c, ys);
  }

  lemma NothingOpen(s: Parser, line: string)
    requires s.cur == None && !("task " <= line)
    ensures ReadLine(s, line) == s
  {}

  lemma FirstLine(c: string, ys: seq<string>)
    requires IsLine(c) && AreLines(ys) && Read(START, c) == START
    ensures Parse(ShowLines([c] + ys)) == Parse(ShowLines(ys))
  {
    hide Read, ShowLines;
    ParseText([c] + ys);
    ParseText(ys);
    ReadBoth(START, [c], ys);
    ReadOneLine(START, c);
  }

  // ---- Key lines -------------------------------------------------------------------------------------------------

  lemma BehindNothing(c: string)
    requires '=' !in c
    ensures Behind(Trim(c)) == None
  {
    hide Trim;
    TrimSubset(c);
    IndexOfFirst(Trim(c), '=');
  }

  /** A key without '=' means nothing, even with a brace behind it. */
  lemma KeyWithoutValueSkipped(xs: seq<string>, key: string, c: string, ys: seq<string>)
    requires AreLines(xs) && IsLine(c) && |c| <= 4095 && AreLines(ys) && IsKey(key) && key <= Trim(c) && '=' !in c
    ensures Parse(ShowLines(xs + [c] + ys)) == Parse(ShowLines(xs + ys))
  {
    hide Trim, ReadLine, IsKey, Parse, ShowLines, Behind;
    BehindNothing(c);
    forall s
      ensures Read(s, c) == s
    {
      ReadKey(s, key, Trim(c));
    }
    LeaveOut(xs, c, ys);
  }

  lemma TrimSpacedKey(key: string, pre: string, mid: string, post: string, value: string, tail: string)
    requires IsKey(key) && AllBlank(pre) && '=' !in mid && AllBlank(post) && Trimmed(value) && AllBlank(tail)
    ensures var line := Trim(pre + key + mid + "=" + post + value + tail);
            line == key + mid + "=" + if value == [] then [] else post + value
  {
    var c := pre + key + mid + "=" + post + value + tail;
    var front := key + mid + "=";
    assert front[0] == key[0] && front[|front| - 1] == '=';
    if value == [] {
      assert AllBlank(post + tail);
      assert c == pre + front + (post + tail);
      TrimAround(pre, front, post + tail);
    } else {
      var body := front + (post + value);
      assert body[0] == front[0] && body[|body| - 1] == value[|value| - 1];
      assert c == pre + body + tail;
      TrimAround(pre, body, tail);
    }
  }

  lemma BlankFront(post: string, value: string)
    requires AllBlank(post) && Trimmed(value)
    ensures Trim(post + value) == value
    ensures value != [] && !IsSpace(value[0]) ==> SkipSpaces(post + value) == value
  {
    assert post + value + [] == post + value;
    TrimAround(post, value, []);
    if value != [] && !IsSpace(value[0]) { SkipFront(post, value); }
  }

  lemma {:induction false} SkipFront(post: string, value: string)
    requires (forall c :: c in post ==> IsSpace(c)) && (value != [] ==> !IsSpace(value[0]))
    ensures SkipSpaces(post + value) == value
  {
    if post == [] {
      assert post + value == value;
    } else {
      assert post[0] in post && (post + value)[1..] == post[1..] + value;
      assert forall c :: c in post[1..] ==> c in post;
      SkipFront(post[1..], value);
    }
  }

  /** What stands between the key and '=', and the blanks around everything, do not matter. */
  lemma SpacedKey(key: string, pre: string, mid: string, post: string, value: string, tail: string)
    requires IsKey(key) && AllBlank(pre) && '=' !in mid && AllBlank(post) && Trimmed(value) && AllBlank(tail)
    requires key == "cmd" && value != [] ==> !IsSpace(value[0])
    ensures var line := Trim(pre + key + mid + "=" + post + value + tail);
            && key <= line && Behind(line).Some?
            && (key == "cmd" ==> SkipSpaces(Behind(line).value) == value)
            && (key != "cmd" ==> Trim(Behind(line).value) == value)
  {
    TrimSpacedKey(key, pre, mid, post, value, tail);
    hide AllBlank, Trim, SkipSpaces, IsSpace, IsBlank, IndexOf;
    var v := if value == [] then [] else post + value;
    var line := key + mid + "=" + v;
    assert '=' !in key + mid;
    IndexOfMiddle(key + mid, '=', v);
    assert line == (key + mid) + ['='] + v;
    assert Behind(line) == Some(v);
    if value == [] { BlankFront([], []); NoBlanks(); } else { BlankFront(post, value); }
  }

  lemma NoBlanks()
    ensures Trim([]) == [] && SkipSpaces([]) == []
  {}

  /** A key line in any spacing sets what the canonical one sets. */
  lemma KeySpacing(xs: seq<string>, key: string, pre: string, mid: string, post: string, value: string, tail: string, ys: seq<string>)
    requires IsKey(key) && AllBlank(pre) && '=' !in mid && AllBlank(post) && Trimmed(value) && AllBlank(tail)
    requires key == "cmd" && value != [] ==> !IsSpace(value[0])
    requires var c := pre + key + mid + "=" + post + value + tail;
             IsLine(c) && |c| <= 4095 && |KeyLine(key, value)| <= 4095
    requires AreLines(xs) && AreLines(ys)
    ensures Parse(ShowLines(xs + [pre + key + mid + "=" + post + value + tail] + ys)) ==
            Parse(ShowLines(xs + [KeyLine(key, value)] + ys))
  {
    hide Trim, ReadLine, AllBlank, IsBlank, SkipSpaces, IsSpace, Behind, Parse, ShowLines, CsvItems;
    var c, d := pre + key + mid + "=" + post + value + tail, KeyLine(key, value);
    SpacedKey(key, pre, mid, post, value, tail);
    CanonicalSpacing(key, value);
    assert IsLine(d);
    forall s
      ensures Read(s, c) == Read(s, d)
    {
      ReadKey(s, key, Trim(c));
      ReadKey(s, key, Trim(d));
    }
    Replace(xs, c, d, ys);
  }

  lemma CanonicalSpacing(key: string, value: string)
    requires IsKey(key) && Trimmed(value) && (key == "cmd" && value != [] ==> !IsSpace(value[0]))
    ensures var line := Trim(KeyLine(key, value));
            && key <= line && Behind(line).Some?
            && (key == "cmd" ==> SkipSpaces(Behind(line).value) == value)
            && (key != "cmd" ==> Trim(Behind(line).value) == value)
  {
    hide Trim, Behind, SkipSpaces;
    assert KeyLine(key, value) == "  " + key + " " + "=" + " " + value + "";
    SpacedKey(key, "  ", " ", " ", value, "");
  }

  /** A command begins behind all isspace characters. */
  lemma CommandSkipsSpaces(xs: seq<string>, post: string, value: string, ys: seq<string>)
    requires (forall c :: c in post ==> IsSpace(c)) && value != [] && Trimmed(value) && !IsSpace(value[0])
    requires IsLine("cmd=" + post + value) && |post + value| <= 4000 && AreLines(xs) && AreLines(ys)
    ensures Parse(ShowLines(xs + ["cmd=" + post + value] + ys)) == Parse(ShowLines(xs + ["cmd=" + value] + ys))
  {
    hide Trim, ReadLine, IsSpace, SkipSpaces, Behind, Parse, ShowLines, CsvItems;
    var c, d := "cmd=" + post + value, "cmd=" + value;
    CommandBehind(post, value);
    CommandBehind([], value);
    SkipFront(post, value);
    SkipFront([], value);
    assert [] + value == value && "cmd=" + [] + value == d;
    forall s
      ensures Read(s, c) == Read(s, d)
    {
      ReadKey(s, "cmd", Trim(c));
      ReadKey(s, "cmd", Trim(d));
    }
    Replace(xs, c, d, ys);
  }

  lemma CommandBehind(post: string, value: string)
    requires value != [] && Trimmed(value)
    ensures var c := "cmd=" + post + value; Trim(c) == c && "cmd" <= c && Behind(c) == Some(post + value)
  {
    var c := "cmd=" + post + value;
    assert c[0] == 'c' && c[|c| - 1] == value[|value| - 1];
    TrimTrimmed(c);
    assert c == "cmd" + ['='] + (post + value);
    IndexOfMiddle("cmd", '=', post + value);
  }

  /** Lines of different keys may change places. */
  lemma KeysCommute(xs: seq<string>, key: string, c: string, key': string, d: string, ys: seq<string>)
    requires AreLines(xs) && AreLines([c, d]) && |c| <= 4095 && |d| <= 4095 && AreLines(ys)
    requires IsKey(key) && IsKey(key') && key != key' && key <= Trim(c) && key' <= Trim(d)
    ensures Parse(ShowLines(xs + [c, d] + ys)) == Parse(ShowLines(xs + [d, c] + ys))
  {
    hide Trim, ReadLine, Behind, Parse, ShowLines, SkipSpaces, CsvItems, ReadLines;
    forall s: Parser
      ensures ReadLines(s, [c, d]) == ReadLines(s, [d, c])
    {
      ReadTwoLines(s, c, d);
      ReadTwoLines(s, d, c);
      ReadKey(s, key, Trim(c));
      ReadKey(s, key', Trim(d));
      ReadKey(Read(s, c), key', Trim(d));
      ReadKey(Read(s, d), key, Trim(c));
    }
    assert AreLines([d, c]);
    Exchange(xs, [c, d], [d, c], ys);
  }

  /** Of two lines of one key the later counts. */
  lemma LaterKeyCounts(xs: seq<string>, key: string, c: string, d: string, ys: seq<string>)
    requires AreLines(xs) && AreLines([c, d]) && |c| <= 4095 && |d| <= 4095 && AreLines(ys)
    requires IsKey(key) && key <= Trim(c) && key <= Trim(d) && Behind(Trim(d)).Some?
    ensures Parse(ShowLines(xs + [c, d] + ys)) == Parse(ShowLines(xs + [d] + ys))
  {
    hide Trim, ReadLine, Behind, Parse, ShowLines, SkipSpaces, CsvItems, ReadLines;
    assert d in [c, d] && AreLines([d]);
    forall s: Parser
      ensures ReadLines(s, [c, d]) == ReadLines(s, [d])
    {
      ReadTwoLines(s, c, d);
      ReadOneLine(s, d);
      ReadKey(s, key, Trim(c));
      ReadKey(s, key, Trim(d));
      ReadKey(Read(s, c), key, Trim(d));
    }
    Exchange(xs, [c, d], [d], ys);
  }

  // ---- Where a task begins ---------------------------------------------------------------------------------------

  /** A list that is not given is empty. */
  lemma EmptyListOptional(xs: seq<string>, h: string, key: string, ys: seq<string>)
    requires AreLines(xs) && IsLine(h) && |h| <= 4095 && AreLines(ys) && "task " <= Trim(h)
    requires IsKey(key) && key != "cmd"
    ensures Parse(ShowLines(xs + [h, KeyLine(key, "")] + ys)) == Parse(ShowLines(xs + [h] + ys))
  {
    hide Trim, ReadLine, Behind, Parse, ShowLines, SkipSpaces, CsvItems, ReadLines, NameIn;
    var c := KeyLine(key, "");
    assert AreLines([h, c]);
    CanonicalSpacing(key, "");
    NoItems();
    forall s: Parser
      ensures ReadLines(s, [h, c]) == ReadLines(s, [h])
    {
      ReadTwoLines(s, h, c);
      ReadOneLine(s, h);
      ReadHeader(s, Trim(h));
      ReadKey(Read(s, h), key, Trim(c));
    }
    Exchange(xs, [h, c], [h], ys);
  }

  lemma NoItems()
    ensures CsvItems("") == []
  {
    CsvWhole("");
  }

  /** What precedes a header counts only if it closes a task: an open task is given up. */
  lemma HeaderStartsAfresh(xs: seq<string>, c: string, h: string, ys: seq<string>)
    requires AreLines(xs) && AreLines([c, h]) && |c| <= 4095 && |h| <= 4095 && AreLines(ys) && "task " <= Trim(h)
    requires IsOther(Trim(c)) ==> '}' !in c
    ensures Parse(ShowLines(xs + [c, h] + ys)) == Parse(ShowLines(xs + [h] + ys))
  {
    hide Trim, ReadLine, IsOther, Parse, ShowLines, ReadLines, NameIn;
    assert h in [c, h] && AreLines([h]);
    TrimKeepsBraces(c);
    forall s: Parser
      ensures ReadLines(s, [c, h]) == ReadLines(s, [h])
    {
      ReadTwoLines(s, c, h);
      ReadOneLine(s, h);
      ReadHeader(s, Trim(h));
      ReadHeader(Read(s, c), Trim(h));
      KeepsDone(s, Trim(c));
    }
    Exchange(xs, [c, h], [h], ys);
  }

  lemma KeepsDone(s: Parser, line: string)
    requires IsOther(line) ==> '}' !in line
    ensures ReadLine(s, line).done == s.done
  {
    hide NameIn, Behind, CsvItems, Trim, SkipSpaces;
  }

  lemma {:induction false} NameStops(name: string, rest: string)
    requires forall c :: c in name ==> !IsSpace(c) && c != '{'
    requires rest != [] ==> IsSpace(rest[0]) || rest[0] == '{'
    ensures NameLength(name + rest) == |name|
  {
    if name == [] {
      assert name + rest == rest;
    } else {
      assert (name + rest)[0] == name[0] && name[0] in name && (name + rest)[1..] == name[1..] + rest;
      assert forall c :: c in name[1..] ==> c in name;
      NameStops(name[1..], rest);
    }
  }

  lemma HeaderName(gap: string, name: string, rest: string)
    requires name != [] && forall c :: c in name ==> !IsSpace(c) && c != '{'
    requires (forall c :: c in gap ==> IsSpace(c)) && (rest != [] ==> IsSpace(rest[0]) || rest[0] == '{')
    ensures NameIn(gap + name + rest) == name
  {
    assert name[0] in name && (name + rest)[0] == name[0];
    assert gap + name + rest == gap + (name + rest);
    SkipFront(gap, name + rest);
    NameStops(name, rest);
    assert (name + rest)[..|name|] == name;
  }

  /** The name of a task ends at a space or brace; what follows on the line does not matter. */
  lemma HeaderSpacing(xs: seq<string>, pre: string, gap: string, name: string, rest: string, tail: string, ys: seq<string>)
    requires AllBlank(pre) && AllBlank(tail) && name != [] && forall c :: c in name ==> !IsSpace(c) && c != '{'
    requires (forall c :: c in gap ==> IsSpace(c)) && Trimmed("task " + gap + name + rest)
    requires rest != [] ==> IsSpace(rest[0]) || rest[0] == '{'
    requires var c := pre + ("task " + gap + name + rest) + tail;
             IsLine(c) && |c| <= 4095 && |"task " + name + " {"| <= 4095
    requires AreLines(xs) && AreLines(ys)
    ensures Parse(ShowLines(xs + [pre + ("task " + gap + name + rest) + tail] + ys)) ==
            Parse(ShowLines(xs + ["task " + name + " {"] + ys))
  {
    hide Trim, ReadLine, AllBlank, IsSpace, Parse, ShowLines, NameIn;
    var text := "task " + gap + name + rest;
    var c, d := pre + text + tail, "task " + name + " {";
    TrimAround(pre, text, tail);
    CanonicalHeader(name);
    HeaderName(gap, name, rest);
    assert text[5..] == gap + name + rest && "task " <= text;
    assert IsLine(d);
    forall s
      ensures Read(s, c) == Read(s, d)
    {
      ReadHeader(s, text);
      ReadHeader(s, d);
    }
    Replace(xs, c, d, ys);
  }

  lemma CanonicalHeader(name: string)
    requires name != [] && forall c :: c in name ==> !IsSpace(c) && c != '{'
    ensures var d := "task " + name + " {"; Trim(d) == d && "task " <= d && NameIn(d[5..]) == name
  {
    var d := "task " + name + " {";
    assert d[0] == 't' && d[|d| - 1] == '{';
    TrimTrimmed(d);
    assert d[5..] == "" + name + " {";
    HeaderName("", name, " {");
  }
}
