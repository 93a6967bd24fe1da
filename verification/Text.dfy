/** The string layer: trimming, splitting and joining, on texts and in place on C strings. */
module Text {

  // ---- Character classes and searching ----------------------------------------------------

  /** The characters `trim` removes. */
  predicate IsBlank(c: char) { c == ' ' || c == '\t' || c == '\r' || c == '\n' }

  /** isspace in the C locale: the blanks, vertical tab and form feed. */
  predicate IsSpace(c: char) { IsBlank(c) || c == '\U{0B}' || c == '\U{0C}' }

  /** strchr: the first position of c, or -1. */
  function IndexOf(s: string, c: char): (r: int)
    ensures -1 <= r < |s|
    ensures r >= 0 ==> s[r] == c
  {
    if s == [] then -1
    else if s[0] == c then 0
    else
      var r := IndexOf(s[1..], c);
      if r < 0 then -1 else r + 1
  }

  lemma {:induction false} IndexOfFirst(s: string, c: char)
    ensures IndexOf(s, c) >= 0 ==> c !in s[..IndexOf(s, c)]
    ensures IndexOf(s, c) == -1 <==> c !in s
  {
    if s != [] {
      IndexOfFirst(s[1..], c);
      var r := IndexOf(s, c);
      assert s == [s[0]] + s[1..];
      if r > 0 {
        assert s[..r] == [s[0]] + s[1..][..r - 1];
      }
    }
  }

  lemma {:induction false} IndexOfMiddle(a: string, c: char, b: string)
    requires c !in a
    ensures IndexOf(a + [c] + b, c) == |a|
  {
    var s := a + [c] + b;
    if a == [] {
      assert s[0] == c;
    } else {
      assert s[1..] == a[1..] + [c] + b;
      IndexOfMiddle(a[1..], c, b);
    }
  }

  // ---- Splitting ------------------------------------------------------------------------------

  /** The pieces between occurrences of c, empty ones included. */
  function Split(s: string, c: char): seq<string>
    decreases |s|
  {
    var i := IndexOf(s, c);
    if i < 0 then [s] else [s[..i]] + Split(s[i + 1..], c)
  }

  lemma SplitMiddle(a: string, c: char, b: string)
    requires c !in a
    ensures Split(a + [c] + b, c) == [a] + Split(b, c)
  {
    var s := a + [c] + b;
    IndexOfMiddle(a, c, b);
    assert s[..|a|] == a && s[|a| + 1..] == b;
  }

  function NonEmpty(parts: seq<string>): seq<string> {
    if parts == [] then []
    else (if parts[0] == [] then [] else [parts[0]]) + NonEmpty(parts[1..])
  }

  lemma NonEmptyCons(x: string, rest: seq<string>)
    ensures NonEmpty([x] + rest) == (if x == [] then [] else [x]) + NonEmpty(rest)
  {}

  lemma NonEmptyOne(x: string)
    ensures NonEmpty([x]) == if x == [] then [] else [x]
  {}

  /** strtok: the non-empty pieces. */
  function Tokens(s: string, c: char): seq<string> {
    NonEmpty(Split(s, c))
  }

  lemma TokensMiddle(a: string, c: char, b: string)
    requires c !in a
    ensures Tokens(a + [c] + b, c) == (if a == [] then [] else [a]) + Tokens(b, c)
  {
    SplitMiddle(a, c, b);
    NonEmptyCons(a, Split(b, c));
  }

  lemma TokensWhole(a: string, c: char)
    requires c !in a
    ensures Tokens(a, c) == if a == [] then [] else [a]
  {
    IndexOfFirst(a, c);
    NonEmptyOne(a);
  }

  lemma {:induction false} SplitPieces(s: string, c: char)
    ensures forall p :: p in Split(s, c) ==> c !in p
    decreases |s|
  {
    IndexOfFirst(s, c);
    var i := IndexOf(s, c);
    if i >= 0 { SplitPieces(s[i + 1..], c); }
  }

  lemma {:induction false} SplitChars(s: string, c: char)
    ensures forall p, x :: p in Split(s, c) && x in p ==> x in s
    decreases |s|
  {
    var i := IndexOf(s, c);
    if i >= 0 {
      SplitChars(s[i + 1..], c);
      assert forall x :: x in s[i + 1..] ==> x in s;
      assert forall x :: x in s[..i] ==> x in s;
    }
  }

  lemma {:induction false} NonEmptyMembers(parts: seq<string>)
    ensures forall p :: p in NonEmpty(parts) <==> p in parts && p != []
  {
    if parts != [] {
      NonEmptyMembers(parts[1..]);
      assert forall p :: p in parts <==> p == parts[0] || p in parts[1..];
    }
  }

  /** Tokens are not empty, contain no separator and are made of characters of the text. */
  lemma TokensClean(s: string, c: char)
    ensures forall t :: t in Tokens(s, c) ==> t != [] && c !in t && forall x :: x in t ==> x in s
  {
    SplitPieces(s, c);
    SplitChars(s, c);
    NonEmptyMembers(Split(s, c));
  }

  /** A text of lines, each with its newline. */
  function ShowLines(lines: seq<string>): string {
    if lines == [] then "" else lines[0] + ['\n'] + ShowLines(lines[1..])
  }

  // ---- Trimming -------------------------------------------------------------------------------

  function TrimLeft(s: string): string {
    if s != [] && IsBlank(s[0]) then TrimLeft(s[1..]) else s
  }

  function TrimRight(s: string): string {
    if s != [] && IsBlank(s[|s| - 1]) then TrimRight(s[..|s| - 1]) else s
  }

  function Trim(s: string): string {
    TrimRight(TrimLeft(s))
  }

  lemma {:induction false} TrimLeftSubset(s: string)
    ensures forall c :: c in TrimLeft(s) ==> c in s
  {
    if s != [] && IsBlank(s[0]) {
      TrimLeftSubset(s[1..]);
      assert forall c :: c in s[1..] ==> c in s;
    }
  }

  lemma {:induction false} TrimRightSubset(s: string)
    ensures forall c :: c in TrimRight(s) ==> c in s
  {
    if s != [] && IsBlank(s[|s| - 1]) {
      TrimRightSubset(s[..|s| - 1]);
      assert forall c :: c in s[..|s| - 1] ==> c in s;
    }
  }

  lemma TrimSubset(s: string)
    ensures forall c :: c in Trim(s) ==> c in s
  {
    TrimLeftSubset(s);
    TrimRightSubset(TrimLeft(s));
  }

  predicate Trimmed(s: string) {
    s != [] ==> !IsBlank(s[0]) && !IsBlank(s[|s| - 1])
  }

  lemma TrimTrimmed(s: string)
    requires Trimmed(s)
    ensures Trim(s) == s
  {}

  lemma {:induction false} TrimLeftBlanks(k: nat, s: string)
    ensures TrimLeft(Blanks(k) + s) == TrimLeft(s)
  {
    if k == 0 {
      assert Blanks(k) + s == s;
    } else {
      var t := Blanks(k) + s;
      assert t[0] == ' ' && t[1..] == Blanks(k - 1) + s;
      TrimLeftBlanks(k - 1, s);
    }
  }

  lemma TrimIndented(k: nat, s: string)
    requires Trimmed(s)
    ensures Trim(Blanks(k) + s) == s
  {
    TrimLeftBlanks(k, s);
    TrimTrimmed(s);
  }

  /** Blanks on both sides are all that trim removes, and it removes all of them. */
  predicate AllBlank(s: string) {
    forall c :: c in s ==> c == ' ' || c == '\t' || c == '\r' || c == '\n'
  }

  lemma {:induction false} TrimLeftParts(s: string) returns (l: string)
    ensures s == l + TrimLeft(s) && AllBlank(l)
    ensures TrimLeft(s) != [] ==> !AllBlank([TrimLeft(s)[0]])
  {
    l := [];
    if s != [] {
      if IsBlank(s[0]) {
        l := TrimLeftParts(s[1..]);
        l := [s[0]] + l;
      } else {
        assert s[0] in [s[0]];
      }
    }
  }

  lemma {:induction false} TrimRightParts(s: string) returns (r: string)
    ensures s == TrimRight(s) + r && AllBlank(r)
    ensures TrimRight(s) != [] ==> !AllBlank([TrimRight(s)[|TrimRight(s)| - 1]])
  {
    r := [];
    if s != [] {
      var x := s[|s| - 1];
      if IsBlank(x) {
        r := TrimRightParts(s[..|s| - 1]);
        r := r + [x];
      } else {
        assert x in [x];
      }
    }
  }

  lemma TrimMeans(s: string) returns (l: string, r: string)
    ensures s == l + Trim(s) + r && AllBlank(l) && AllBlank(r)
    ensures Trim(s) != [] ==> !AllBlank([Trim(s)[0]]) && !AllBlank([Trim(s)[|Trim(s)| - 1]])
  {
    hide AllBlank;
    l := TrimLeftParts(s);
    r := TrimRightParts(TrimLeft(s));
  }

  lemma {:induction false} TrimLeftSkips(l: string, s: string)
    requires AllBlank(l)
    ensures TrimLeft(l + s) == TrimLeft(s)
  {
    if l == [] {
      assert l + s == s;
    } else {
      assert l[0] in l && (l + s)[1..] == l[1..] + s;
      assert forall c :: c in l[1..] ==> c in l;
      TrimLeftSkips(l[1..], s);
    }
  }

  lemma {:induction false} TrimRightSkips(s: string, r: string)
    requires AllBlank(r)
    ensures TrimRight(s + r) == TrimRight(s)
    decreases |r|
  {
    if r == [] {
      assert s + r == s;
    } else {
      var init, x := r[..|r| - 1], r[|r| - 1];
      assert x in r && (s + r)[..|s + r| - 1] == s + init && (s + r)[|s + r| - 1] == x;
      assert forall c :: c in init ==> c in r;
      TrimRightSkips(s, init);
    }
  }

  lemma TrimAround(l: string, s: string, r: string)
    requires AllBlank(l) && AllBlank(r) && Trimmed(s)
    ensures Trim(l + s + r) == s
  {
    assert l + s + r == l + (s + r);
    TrimLeftSkips(l, s + r);
    if s == [] {
      assert s + r == r && r + [] == r;
      TrimLeftSkips(r, []);
    } else {
      assert (s + r)[0] == s[0];
      TrimRightSkips(s, r);
    }
  }

  function Blanks(k: nat): (r: string)
    ensures |r| == k && forall c :: c in r ==> c == ' '
  {
    if k == 0 then [] else [' '] + Blanks(k - 1)
  }

  /** Skips leading isspace characters. */
  function SkipSpaces(s: string): string {
    if s != [] && IsSpace(s[0]) then SkipSpaces(s[1..]) else s
  }

  // ---- Joining --------------------------------------------------------------------------------

  function Join(parts: seq<string>, sep: string): string {
    if parts == [] then []
    else if |parts| == 1 then parts[0]
    else parts[0] + sep + Join(parts[1..], sep)
  }

  lemma {:induction false} JoinAppend(parts: seq<string>, sep: string, x: string)
    requires parts != []
    ensures Join(parts + [x], sep) == Join(parts, sep) + sep + x
  {
    var all := parts + [x];
    assert all[1..] == parts[1..] + [x];
    if |parts| == 1 {
      assert all[1..] == [x];
    } else {
      JoinAppend(parts[1..], sep, x);
      assert Join(all, sep) == parts[0] + sep + (Join(parts[1..], sep) + sep + x);
    }
  }

  /** join_strings: the separator goes between parts only. */
  method JoinStrings(parts: seq<string>, sep: string) returns (r: string)
    ensures r == Join(parts, sep)
  {
    r := "";
    var i := 0;
    while i < |parts|
      invariant 0 <= i <= |parts|
      invariant i < |parts| ==> r == if i == 0 then [] else Join(parts[..i], sep) + sep
      invariant i == |parts| ==> r == Join(parts, sep)
    {
      r := r + parts[i];
      assert parts[..i] + [parts[i]] == parts[..i + 1];
      if i > 0 { JoinAppend(parts[..i], sep, parts[i]); }
      assert r == Join(parts[..i + 1], sep);
      assert parts[..|parts|] == parts;
      if i + 1 < |parts| {
        r := r + sep;
      }
      i := i + 1;
    }
  }

  // ---- Comma-separated lists --------------------------------------------------------------------

  function TrimAll(parts: seq<string>): (r: seq<string>)
    ensures |r| == |parts| && forall i :: 0 <= i < |r| ==> r[i] == Trim(parts[i])
  {
    seq(|parts|, i requires 0 <= i < |parts| => Trim(parts[i]))
  }

  /** The trimmed, non-empty items of a comma-separated list. */
  function CsvItems(line: string): seq<string> {
    NonEmpty(TrimAll(Split(line, ',')))
  }

  lemma CsvMiddle(a: string, b: string)
    requires ',' !in a
    ensures CsvItems(a + [','] + b) == (if Trim(a) == [] then [] else [Trim(a)]) + CsvItems(b)
  {
    SplitMiddle(a, ',', b);
    var rest := Split(b, ',');
    assert TrimAll([a] + rest) == [Trim(a)] + TrimAll(rest);
    NonEmptyCons(Trim(a), TrimAll(rest));
  }

  lemma CsvWhole(a: string)
    requires ',' !in a
    ensures CsvItems(a) == if Trim(a) == [] then [] else [Trim(a)]
  {
    IndexOfFirst(a, ',');
    assert TrimAll([a]) == [Trim(a)];
    NonEmptyOne(Trim(a));
  }

  /** split_csv_array: p advances from comma to comma and stops at the end of the text, so a trailing
      comma opens no further item. */
  method SplitCsvArray(line: string) returns (items: seq<string>)
    ensures items == CsvItems(line)
  {
    items := [];
    var p := 0;
    ghost var all := CsvItems(line);
    ghost var rest := all;
    assert line[0..] == line;
    while p < |line|
      invariant 0 <= p <= |line|
      invariant rest == CsvItems(line[p..])
      invariant items + rest == all
    {
      var item, next := NextToken(line, p);
      ghost var after := if next < 0 then [] else CsvItems(line[next..]);
      if |item| > 0 {
        Regroup(items, item, after);
        items := items + [item];
      } else {
        assert [] + after == after;
      }
      rest := after;
      if next < 0 {
        break;
      }
      p := next;
    }
    if p == |line| {
      CsvEnd(line);
    }
  }

  lemma Regroup(items: seq<string>, item: string, after: seq<string>)
    ensures items + ([item] + after) == (items + [item]) + after
  {}

  lemma CsvEnd(line: string)
    ensures CsvItems(line[|line|..]) == []
  {
    CsvWhole([]);
  }

  /** The trimmed item starting at p and where the next one starts, -1 when there is no comma. */
  method NextToken(line: string, p: nat) returns (item: string, next: int)
    requires p < |line|
    ensures next < 0 || p < next <= |line|
    ensures CsvItems(line[p..]) == (if item == [] then [] else [item]) + (if next < 0 then [] else CsvItems(line[next..]))
  {
    hide Trim, CsvItems, IndexOf;
    var comma := IndexOf(line[p..], ',');
    var len := if comma >= 0 then comma else |line| - p;
    item := Trim(line[p..p + len]);
    NextItem(line, p, len);
    next := if comma >= 0 then p + comma + 1 else -1;
  }

  /** The item starting at p and the rest behind its comma make up the items from p on. */
  lemma NextItem(line: string, p: nat, len: nat)
    requires p < |line| && p + len <= |line|
    requires len == if IndexOf(line[p..], ',') >= 0 then IndexOf(line[p..], ',') else |line| - p
    ensures var item := Trim(line[p..p + len]);
            CsvItems(line[p..]) == (if item == [] then [] else [item]) +
                                   (if p + len < |line| then CsvItems(line[p + len + 1..]) else [])
  {
    var text := line[p..];
    var token := line[p..p + len];
    IndexOfFirst(text, ',');
    assert text[..len] == token;
    if p + len < |line| {
      assert text == token + [','] + line[p + len + 1..];
      CsvMiddle(token, line[p + len + 1..]);
    } else {
      assert text == token;
      CsvWhole(token);
    }
  }

  /** Items a comma-separated list can carry: trimmed, not empty, no comma. */
  predicate CsvClean(items: seq<string>) {
    forall x :: x in items ==> x != [] && Trimmed(x) && ',' !in x
  }

  lemma CsvCleanRest(items: seq<string>)
    requires items != [] && CsvClean(items)
    ensures CsvClean(items[1..])
  {}

  /** Splitting the comma-join of clean items gives the items back. */
  lemma {:induction false} CsvRoundTrip(items: seq<string>)
    requires CsvClean(items)
    ensures CsvItems(Join(items, ",")) == items
  {
    if items == [] {
      CsvWhole([]);
    } else {
      assert items[0] in items;
      TrimTrimmed(items[0]);
      var rest := items[1..];
      if rest == [] {
        CsvWhole(items[0]);
      } else {
        CsvCleanRest(items);
        CsvRoundTrip(rest);
        CsvMiddle(items[0], Join(rest, ","));
      }
    }
  }

  // ---- C strings in place -------------------------------------------------------------------------

  /** The C string at the start of a buffer. */
  function CString(buf: seq<char>): (r: string)
    ensures |r| <= |buf|
  {
    if buf == [] || buf[0] == '\0' then [] else [buf[0]] + CString(buf[1..])
  }

  lemma {:induction false} CStringIs(buf: seq<char>, r: string)
    requires |r| < |buf| && r <= buf && '\0' !in r && buf[|r|] == '\0'
    ensures CString(buf) == r
  {
    if r != [] {
      assert buf[0] == r[0] && r[0] in r;
      assert forall c :: c in r[1..] ==> c in r;
      CStringIs(buf[1..], r[1..]);
    }
  }

  method StrLen(s: array<char>) returns (n: nat)
    requires '\0' in s[..]
    ensures n < s.Length && s[n] == '\0' && '\0' !in s[..n] && CString(s[..]) == s[..n]
  {
    n := 0;
    while s[n] != '\0'
      invariant 0 <= n < s.Length
      invariant '\0' in s[n..]
      invariant forall i :: 0 <= i < n ==> s[i] != '\0'
      decreases s.Length - n
    {
      assert s[n..] == [s[n]] + s[n + 1..];
      n := n + 1;
    }
    CStringIs(s[..], s[..n]);
  }

  /** trim: leading blanks are overwritten by moving the rest down, trailing ones by NULs. */
  method TrimInPlace(s: array<char>)
    requires '\0' in s[..]
    modifies s
    ensures '\0' in s[..] && CString(s[..]) == Trim(CString(old(s[..])))
  {
    var len := TrimFront(s);
    TrimBack(s, len);
  }

  method TrimFront(s: array<char>) returns (len: nat)
    requires '\0' in s[..]
    modifies s
    ensures len < s.Length && s[..len] == TrimLeft(CString(old(s[..]))) && s[len] == '\0'
    ensures '\0' !in s[..len]
  {
    ghost var text := CString(s[..]);
    ghost var left := TrimLeft(text);
    var n := StrLen(s);
    var p := 0;
    while s[p] != '\0' && IsBlank(s[p])
      invariant 0 <= p <= n
      invariant TrimLeft(text[p..]) == left
      decreases n - p
    {
      assert text[p..][1..] == text[p + 1..];
      p := p + 1;
    }
    len := n - p;
    assert left == text[p..];
    MoveDown(s, p, len);
  }

  method TrimBack(s: array<char>, length: nat)
    requires length < s.Length && s[length] == '\0' && '\0' !in s[..length]
    modifies s
    ensures '\0' in s[..] && CString(s[..]) == TrimRight(old(s[..length]))
  {
    ghost var left := s[..length];
    var len := length;
    while len > 0 && IsBlank(s[len - 1])
      invariant 0 <= len <= length
      invariant s[..len] == left[..len] && s[len] == '\0'
      invariant TrimRight(left[..len]) == TrimRight(left)
    {
      assert left[..len][..len - 1] == left[..len - 1];
      s[len - 1] := '\0';
      len := len - 1;
    }
    assert s[..][len] == '\0';
    CStringIs(s[..], left[..len]);
  }

  /** memmove(s, s + p, len + 1) */
  method MoveDown(s: array<char>, p: nat, len: nat)
    requires p + len < s.Length && s[p + len] == '\0'
    modifies s
    ensures s[..len] == old(s[p..p + len]) && s[len] == '\0'
  {
    var k := 0;
    while k <= len
      invariant 0 <= k <= len + 1
      invariant forall i :: 0 <= i < k ==> s[i] == old(s[p + i])
      invariant forall i :: k + p <= i < s.Length ==> s[i] == old(s[i])
    {
      s[k] := s[p + k];
      k := k + 1;
    }
  }
}
