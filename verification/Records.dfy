/** The two texts the cache rests on: the text hashed into a task key, and the metadata record. */
module Records {
  import opened Text
  import opened Sorting

  // ---- Hash names -----------------------------------------------------------------------

  predicate IsHexDigit(c: char) { '0' <= c <= '9' || 'a' <= c <= 'f' }

  /** A SHA-256 digest in lower-case hexadecimal. */
  predicate IsHashName(h: string) {
    |h| == 64 && forall c :: c in h ==> IsHexDigit(c)
  }

  predicate AllHashNames(hs: seq<string>) {
    forall h :: h in hs ==> IsHashName(h)
  }

  /** The name of 64 times one digit. */
  function PlainName(c: char): (h: string)
    requires IsHexDigit(c)
    ensures IsHashName(h) && forall i :: 0 <= i < 64 ==> h[i] == c
  {
    seq(64, i => c)
  }

  // ---- The task key ---------------------------------------------------------------------

  function Commas(n: nat): (r: string)
    ensures |r| == n && forall c :: c in r ==> c == ','
  {
    if n == 0 then [] else [','] + Commas(n - 1)
  }

  /** What compute_task_hash hashes: the command, the sorted input hashes, and for n dependencies
      n empty placeholders with commas between them. */
  function KeyText(cmd: string, inputHashes: seq<string>, nDeps: nat): string {
    "cmd=" + cmd + "\n" + "inputs=" + Join(Sort(inputHashes), ",") + "\n" +
    "deps=" + Commas(if nDeps == 0 then 0 else nDeps - 1) + "\n"
  }

  /** The text of a task with two inputs, in either order, and three dependencies, and of one without any. */
  lemma KeyTextOfTwo(cmd: string, g: string, h: string)
    requires Le(g, h)
    ensures KeyText(cmd, [g, h], 3) == KeyText(cmd, [h, g], 3)
    ensures KeyText(cmd, [g, h], 3) == "cmd=" + cmd + "\n" + "inputs=" + (g + "," + h) + "\n" + "deps=" + ",," + "\n"
    ensures KeyText(cmd, [], 0) == "cmd=" + cmd + "\n" + "inputs=" + "" + "\n" + "deps=" + "" + "\n"
  {
    hide Le, Sort;
    SortTwo(g, h);
    assert Join([g, h], ",") == g + "," + h;
    assert Commas(2) == ",,";
  }

  lemma FirstNewline(a: string, b: string, c: string, d: string)
    requires '\n' !in a && '\n' !in c
    requires a + ['\n'] + b == c + ['\n'] + d
    ensures a == c && b == d
  {
    var s := a + ['\n'] + b;
    var t := c + ['\n'] + d;
    IndexOfMiddle(a, '\n', b);
    IndexOfMiddle(c, '\n', d);
    assert a == s[..|a|] && c == t[..|c|];
    assert b == s[|a| + 1..] && d == t[|c| + 1..];
  }

  lemma {:induction false} JoinHasNoNewline(hs: seq<string>)
    requires AllHashNames(hs)
    ensures '\n' !in Join(hs, ",")
    ensures |Join(hs, ",")| == if hs == [] then 0 else 65 * |hs| - 1
  {
    if hs != [] {
      assert hs[0] in hs;
      var rest := hs[1..];
      assert forall h :: h in rest ==> h in hs;
      JoinHasNoNewline(rest);
    }
  }

  /** Joined hash names can be taken apart again. */
  lemma {:induction false} JoinInjective(a: seq<string>, b: seq<string>)
    requires AllHashNames(a) && AllHashNames(b)
    requires Join(a, ",") == Join(b, ",")
    ensures a == b
  {
    JoinHasNoNewline(a);
    JoinHasNoNewline(b);
    assert |a| == |b|;
    if a != [] {
      assert a[0] in a && b[0] in b;
      var s, t := Join(a, ","), Join(b, ",");
      assert s[..64] == a[0] && t[..64] == b[0];
      if |a| > 1 {
        var ra, rb := a[1..], b[1..];
        assert forall h :: h in ra ==> h in a;
        assert forall h :: h in rb ==> h in b;
        assert s[65..] == Join(ra, ",") && t[65..] == Join(rb, ",");
        JoinInjective(ra, rb);
        assert a == [a[0]] + ra && b == [b[0]] + rb;
      }
    }
  }

  lemma SortKeepsNames(hs: seq<string>)
    requires AllHashNames(hs)
    ensures AllHashNames(Sort(hs))
  {
    SameMembers(Sort(hs), multiset(hs));
  }

  lemma KeyTextSplit(cmd: string, hs: seq<string>, n: nat)
    ensures KeyText(cmd, hs, n) ==
            "cmd=" + (cmd + ['\n'] + ("inputs=" + (Join(Sort(hs), ",") + ['\n'] +
                                                 ("deps=" + Commas(if n == 0 then 0 else n - 1) + ['\n']))))
  {}

  lemma DropPrefix(p: string, a: string, b: string)
    requires p + a == p + b
    ensures a == b
  {
    assert a == (p + a)[|p|..] && b == (p + b)[|p|..];
  }

  lemma KeyTextIsLong(cmd: string, hs: seq<string>, n: nat)
    ensures |KeyText(cmd, hs, n)| > 4
  {}

  /** Two tasks build the same key text exactly when their commands are equal, their input hashes
      are equal as multisets, and they have the same number of dependencies, none counting as one. */
  lemma KeyTextCanonical(cmd1: string, hs1: seq<string>, n1: nat, cmd2: string, hs2: seq<string>, n2: nat)
    requires '\n' !in cmd1 && '\n' !in cmd2
    requires AllHashNames(hs1) && AllHashNames(hs2)
    ensures KeyText(cmd1, hs1, n1) == KeyText(cmd2, hs2, n2) <==>
            cmd1 == cmd2 && multiset(hs1) == multiset(hs2) &&
            (if n1 == 0 then 1 else n1) == (if n2 == 0 then 1 else n2)
  {
    SortCanonical(hs1, hs2);
    if KeyText(cmd1, hs1, n1) == KeyText(cmd2, hs2, n2) {
      KeyTextParts(cmd1, hs1, n1, cmd2, hs2, n2);
    }
  }

  lemma KeyTextParts(cmd1: string, hs1: seq<string>, n1: nat, cmd2: string, hs2: seq<string>, n2: nat)
    requires '\n' !in cmd1 && '\n' !in cmd2
    requires AllHashNames(hs1) && AllHashNames(hs2)
    requires KeyText(cmd1, hs1, n1) == KeyText(cmd2, hs2, n2)
    ensures cmd1 == cmd2 && Sort(hs1) == Sort(hs2)
    ensures Commas(if n1 == 0 then 0 else n1 - 1) == Commas(if n2 == 0 then 0 else n2 - 1)
  {
    KeyTextSplit(cmd1, hs1, n1);
    KeyTextSplit(cmd2, hs2, n2);
    var d1 := Commas(if n1 == 0 then 0 else n1 - 1);
    var d2 := Commas(if n2 == 0 then 0 else n2 - 1);
    var j1, j2 := Join(Sort(hs1), ","), Join(Sort(hs2), ",");
    var t1, t2 := "deps=" + d1 + ['\n'], "deps=" + d2 + ['\n'];
    var i1, i2 := "inputs=" + (j1 + ['\n'] + t1), "inputs=" + (j2 + ['\n'] + t2);
    DropPrefix("cmd=", cmd1 + ['\n'] + i1, cmd2 + ['\n'] + i2);
    FirstNewline(cmd1, i1, cmd2, i2);
    DropPrefix("inputs=", j1 + ['\n'] + t1, j2 + ['\n'] + t2);
    SortKeepsNames(hs1);
    SortKeepsNames(hs2);
    JoinHasNoNewline(Sort(hs1));
    JoinHasNoNewline(Sort(hs2));
    FirstNewline(j1, t1, j2, t2);
    JoinInjective(Sort(hs1), Sort(hs2));
    DepsPart(d1, d2);
  }

  lemma DepsPart(d1: string, d2: string)
    requires "deps=" + d1 + ['\n'] == "deps=" + d2 + ['\n']
    ensures d1 == d2
  {
    var a, b := "deps=" + d1 + ['\n'], "deps=" + d2 + ['\n'];
    assert d1 == a[5..|a| - 1] && d2 == b[5..|b| - 1];
  }

  // ---- The metadata record --------------------------------------------------------------------

  /** A record as read back: the result hash and the output-to-hash list, in file order. */
  datatype Record = Record(resultHash: string, outputs: seq<(string, string)>)

  function OutputLines(entries: seq<(string, string)>): string {
    if entries == [] then []
    else "output " + entries[0].0 + " " + entries[0].1 + "\n" + OutputLines(entries[1..])
  }

  /** The text written by write_task_record. */
  function RecordText(taskHash: string, resultHash: string, entries: seq<(string, string)>): string {
    "task_hash: " + taskHash + "\n" + "result_hash: " + resultHash + "\n" + OutputLines(entries)
  }

  /** One line of try_load_task_record, after trim. */
  function ReadRecordLine(line: string, r: Record): Record {
    if "result_hash:" <= line then
      var value := SkipSpaces(line[12..]);
      r.(resultHash := if |value| <= 255 then value else value[..255])
    else if "output " <= line then
      var tokens := Tokens(line[7..], ' ');
      if |tokens| >= 2 then r.(outputs := r.outputs + [(tokens[0], tokens[1])]) else r
    else r
  }

  function ReadRecordLines(lines: seq<string>, r: Record): Record {
    if lines == [] then r else ReadRecordLines(lines[1..], ReadRecordLine(Trim(lines[0]), r))
  }

  /** The getline loop over the whole file. */
  function ParseRecord(text: string): Record {
    ReadRecordLines(Split(text, '\n'), Record("", []))
  }

  method ReadRecord(text: string) returns (r: Record)
    ensures r == ParseRecord(text)
  {
    var lines := Split(text, '\n');
    r := Record("", []);
    var i := 0;
    while i < |lines|
      invariant 0 <= i <= |lines|
      invariant ReadRecordLines(lines[i..], r) == ParseRecord(text)
    {
      assert lines[i..][1..] == lines[i + 1..];
      r := ReadRecordLine(Trim(lines[i]), r);
      i := i + 1;
    }
  }

  /** Output names a record can carry: not empty, without spaces or newlines. */
  predicate RecordableName(name: string) {
    name != [] && ' ' !in name && '\n' !in name
  }

  predicate RecordableEntries(entries: seq<(string, string)>) {
    forall e :: e in entries ==> RecordableName(e.0) && IsHashName(e.1)
  }

  lemma HashNameIsPlain(h: string)
    requires IsHashName(h)
    ensures ' ' !in h && '\n' !in h && Trimmed(h) && h != [] && !IsSpace(h[0])
  {
    assert h[0] in h && h[|h| - 1] in h;
  }

  lemma ReadOutputLine(name: string, h: string, r: Record)
    requires RecordableName(name) && IsHashName(h)
    ensures ReadRecordLine(Trim("output " + name + " " + h), r) == r.(outputs := r.outputs + [(name, h)])
  {
    var line := "output " + name + " " + h;
    HashNameIsPlain(h);
    assert line[0] == 'o' && line[|line| - 1] == h[|h| - 1];
    TrimTrimmed(line);
    var rest := name + [' '] + h;
    assert line == "output " + rest;
    assert line[7..] == rest;
    TokensMiddle(name, ' ', h);
    TokensWhole(h, ' ');
    assert line[0] != "result_hash:"[0];
  }

  lemma ReadResultLine(h: string, r: Record)
    requires IsHashName(h)
    ensures ReadRecordLine(Trim("result_hash: " + h), r) == r.(resultHash := h)
  {
    var line := "result_hash: " + h;
    HashNameIsPlain(h);
    assert line[0] == 'r' && line[|line| - 1] == h[|h| - 1];
    TrimTrimmed(line);
    assert line[12..] == [' '] + h;
    assert ([' '] + h)[1..] == h;
    assert SkipSpaces(line[12..]) == h;
    assert line[..12] == "result_hash:";
  }

  lemma ReadTaskHashLine(h: string, r: Record)
    requires IsHashName(h)
    ensures ReadRecordLine(Trim("task_hash: " + h), r) == r
  {
    var line := "task_hash: " + h;
    HashNameIsPlain(h);
    assert line[0] == 't' && line[|line| - 1] == h[|h| - 1];
    TrimTrimmed(line);
    assert line[0] != "result_hash:"[0] && line[0] != "output "[0];
  }

  lemma RecordLineCons(line: string, rest: string, r: Record)
    requires '\n' !in line
    ensures ReadRecordLines(Split(line + ['\n'] + rest, '\n'), r) == ReadRecordLines(Split(rest, '\n'), ReadRecordLine(Trim(line), r))
  {
    SplitMiddle(line, '\n', rest);
    assert ([line] + Split(rest, '\n'))[1..] == Split(rest, '\n');
  }

  lemma {:induction false} ReadOutputs(entries: seq<(string, string)>, r: Record)
    requires RecordableEntries(entries)
    ensures ReadRecordLines(Split(OutputLines(entries), '\n'), r) == r.(outputs := r.outputs + entries)
    decreases entries
  {
    if entries == [] {
      ReadNothing(r);
      assert r.outputs + entries == r.outputs;
    } else {
      var rest := entries[1..];
      assert entries[0] in entries;
      assert forall e :: e in rest ==> e in entries;
      var r' := ReadFirstOutput(entries, r);
      ReadOutputs(rest, r');
      MoveFirst(r.outputs, entries);
    }
  }

  lemma MoveFirst<T>(a: seq<T>, b: seq<T>)
    requires b != []
    ensures a + b == (a + [b[0]]) + b[1..]
  {}

  lemma ReadNothing(r: Record)
    ensures ReadRecordLines(Split([], '\n'), r) == r
  {}

  lemma ReadFirstOutput(entries: seq<(string, string)>, r: Record) returns (r': Record)
    requires entries != [] && RecordableName(entries[0].0) && IsHashName(entries[0].1)
    ensures r' == r.(outputs := r.outputs + [entries[0]])
    ensures ReadRecordLines(Split(OutputLines(entries), '\n'), r) == ReadRecordLines(Split(OutputLines(entries[1..]), '\n'), r')
  {
    var name, h := entries[0].0, entries[0].1;
    HashNameIsPlain(h);
    var line := "output " + name + " " + h;
    assert OutputLines(entries) == line + ['\n'] + OutputLines(entries[1..]);
    assert '\n' !in "output ";
    assert '\n' !in line;
    RecordLineCons(line, OutputLines(entries[1..]), r);
    ReadOutputLine(name, h, r);
    r' := r.(outputs := r.outputs + [entries[0]]);
    assert (name, h) == entries[0];
  }

  /** A written record is read back as the same result hash and the same ordered output list. */
  lemma RecordRoundTrip(taskHash: string, resultHash: string, entries: seq<(string, string)>)
    requires IsHashName(taskHash) && IsHashName(resultHash) && RecordableEntries(entries)
    ensures ParseRecord(RecordText(taskHash, resultHash, entries)) == Record(resultHash, entries)
  {
    var r0 := Record("", []);
    var l1, l2 := "task_hash: " + taskHash, "result_hash: " + resultHash;
    HashNameIsPlain(taskHash);
    HashNameIsPlain(resultHash);
    var tail := OutputLines(entries);
    assert RecordText(taskHash, resultHash, entries) == l1 + ['\n'] + (l2 + ['\n'] + tail);
    RecordLineCons(l1, l2 + ['\n'] + tail, r0);
    ReadTaskHashLine(taskHash, r0);
    RecordLineCons(l2, tail, r0);
    ReadResultLine(resultHash, r0);
    ReadOutputs(entries, r0.(resultHash := resultHash));
    assert [] + entries == entries;
  }

  // ---- Any record file, line by line ----------------------------------------------------------------

  lemma {:induction false} ReadRecordBoth(before: seq<string>, line: string, rest: string, r: Record)
    requires (forall l :: l in before ==> '\n' !in l) && '\n' !in line
    ensures ReadRecordLines(Split(ShowLines(before) + (line + ['\n'] + rest), '\n'), r) ==
            ReadRecordLines(Split(rest, '\n'), ReadRecordLine(Trim(line), ReadRecordLines(before, r)))
  {
    hide ReadRecordLine, Trim, Split;
    if before == [] {
      assert ShowLines(before) + (line + ['\n'] + rest) == line + ['\n'] + rest;
      RecordLineCons(line, rest, r);
    } else {
      var first, more := before[0], before[1..];
      assert first in before && forall l :: l in more ==> l in before;
      var tail := ShowLines(more) + (line + ['\n'] + rest);
      assert ShowLines(before) + (line + ['\n'] + rest) == first + ['\n'] + tail;
      RecordLineCons(first, tail, r);
      ReadRecordBoth(more, line, rest, ReadRecordLine(Trim(first), r));
    }
  }

  /** Lines that read alike may stand for one another. */
  lemma SameRecordLine(before: seq<string>, c: string, d: string, rest: string)
    requires (forall l :: l in before ==> '\n' !in l) && '\n' !in c && '\n' !in d
    requires forall r :: ReadRecordLine(Trim(c), r) == ReadRecordLine(Trim(d), r)
    ensures ParseRecord(ShowLines(before) + (c + ['\n'] + rest)) == ParseRecord(ShowLines(before) + (d + ['\n'] + rest))
  {
    hide ReadRecordLine, Trim, Split;
    ReadRecordBoth(before, c, rest, Record("", []));
    ReadRecordBoth(before, d, rest, Record("", []));
  }

  lemma NothingRead(r: Record)
    ensures ReadRecordLine(Trim(""), r) == r
  {}

  /** A line that is neither a result nor an output means no more than an empty one. */
  lemma OtherRecordLine(before: seq<string>, c: string, rest: string)
    requires (forall l :: l in before ==> '\n' !in l) && '\n' !in c
    requires !("result_hash:" <= Trim(c)) && !("output " <= Trim(c))
    ensures ParseRecord(ShowLines(before) + (c + ['\n'] + rest)) == ParseRecord(ShowLines(before) + ("" + ['\n'] + rest))
  {
    hide Trim;
    forall r
      ensures ReadRecordLine(Trim(c), r) == ReadRecordLine(Trim(""), r)
    {
      NothingRead(r);
    }
    hide ReadRecordLine;
    SameRecordLine(before, c, "", rest);
  }

  /** Of an output line the first two words behind the key count. */
  lemma FurtherWordsSkipped(before: seq<string>, name: string, h: string, more: string, rest: string)
    requires (forall l :: l in before ==> '\n' !in l) && '\n' !in more
    requires RecordableName(name) && IsHashName(h) && more != [] && Trimmed(more)
    ensures ParseRecord(ShowLines(before) + ("output " + name + " " + h + " " + more + ['\n'] + rest)) ==
            ParseRecord(ShowLines(before) + ("output " + name + " " + h + ['\n'] + rest))
  {
    var c, d := "output " + name + " " + h + " " + more, "output " + name + " " + h;
    HashNameIsPlain(h);
    OutputWords(name, h, more);
    forall r
      ensures ReadRecordLine(Trim(c), r) == ReadRecordLine(Trim(d), r)
    {
      ReadOutputLine(name, h, r);
      assert c[0] == 'o';
    }
    assert '\n' !in "output " && '\n' !in c && '\n' !in d;
    hide ReadRecordLine, Trim;
    SameRecordLine(before, c, d, rest);
  }

  lemma OutputWords(name: string, h: string, more: string)
    requires RecordableName(name) && IsHashName(h) && more != [] && Trimmed(more)
    ensures var c := "output " + name + " " + h + " " + more;
            var words := Tokens(c[7..], ' ');
            Trim(c) == c && "output " <= c && |words| >= 2 && words[0] == name && words[1] == h
  {
    var c := "output " + name + " " + h + " " + more;
    HashNameIsPlain(h);
    assert c[0] == 'o' && c[|c| - 1] == more[|more| - 1];
    TrimTrimmed(c);
    var tail := h + [' '] + more;
    assert c == "output " + (name + [' '] + tail);
    assert c[7..] == name + [' '] + tail;
    TokensMiddle(name, ' ', tail);
    TokensMiddle(h, ' ', more);
  }

  /** The buffer keeps 255 characters of a result hash. */
  lemma LongResult(before: seq<string>, value: string, rest: string)
    requires (forall l :: l in before ==> '\n' !in l) && '\n' !in value
    requires |value| > 255 && (forall c :: c in value ==> !IsSpace(c))
    ensures ParseRecord(ShowLines(before) + ("result_hash:" + value + ['\n'] + rest)) ==
            ParseRecord(ShowLines(before) + ("result_hash:" + value[..255] + ['\n'] + rest))
  {
    var c, d := "result_hash:" + value, "result_hash:" + value[..255];
    forall r
      ensures ReadRecordLine(Trim(c), r) == ReadRecordLine(Trim(d), r)
    {
      ReadResult(value, r);
      ReadResult(value[..255], r);
    }
    assert '\n' !in "result_hash:" && '\n' !in c && '\n' !in d;
    hide ReadRecordLine, Trim;
    SameRecordLine(before, c, d, rest);
  }

  lemma ReadResult(value: string, r: Record)
    requires value != [] && forall c :: c in value ==> !IsSpace(c)
    ensures ReadRecordLine(Trim("result_hash:" + value), r) == r.(resultHash := if |value| <= 255 then value else value[..255])
  {
    var line := "result_hash:" + value;
    assert value[0] in value && value[|value| - 1] in value;
    assert line[0] == 'r' && line[|line| - 1] == value[|value| - 1];
    TrimTrimmed(line);
    assert line[12..] == value && line[..12] == "result_hash:";
  }

  // ---- Which names survive ---------------------------------------------------------------------

  predicate PlainRecord(r: Record) {
    forall e :: e in r.outputs ==> RecordableName(e.0)
  }

  lemma {:induction false} RecordLinesPlain(lines: seq<string>, r: Record)
    requires PlainRecord(r)
    requires forall l :: l in lines ==> '\n' !in l
    ensures PlainRecord(ReadRecordLines(lines, r))
  {
    if lines != [] {
      var line := Trim(lines[0]);
      assert lines[0] in lines;
      TrimSubset(lines[0]);
      var r' := ReadRecordLine(line, r);
      if "output " <= line && !("result_hash:" <= line) {
        TokensClean(line[7..], ' ');
        var tokens := Tokens(line[7..], ' ');
        assert forall c :: c in line[7..] ==> c in line;
        if |tokens| >= 2 {
          assert tokens[0] in tokens;
        }
      }
      assert forall l :: l in lines[1..] ==> l in lines;
      RecordLinesPlain(lines[1..], r');
    }
  }

  /** Exactly the recordable names survive: writing and reading returns the same entries if and only
      if no output name is empty or contains a space or a newline. */
  lemma RecordRoundTripIff(taskHash: string, resultHash: string, entries: seq<(string, string)>)
    requires IsHashName(taskHash) && IsHashName(resultHash)
    requires forall e :: e in entries ==> IsHashName(e.1)
    ensures ParseRecord(RecordText(taskHash, resultHash, entries)) == Record(resultHash, entries) <==>
            forall e :: e in entries ==> RecordableName(e.0)
  {
    if forall e :: e in entries ==> RecordableName(e.0) {
      RecordRoundTrip(taskHash, resultHash, entries);
    } else {
      var text := RecordText(taskHash, resultHash, entries);
      SplitPieces(text, '\n');
      RecordLinesPlain(Split(text, '\n'), Record("", []));
    }
  }
}
