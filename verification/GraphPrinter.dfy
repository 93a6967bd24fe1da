/** Printing the task graph: an indented tree of dependencies in which every task appears once, whatever
    the graph. */
module GraphPrinter {
  import opened Graphs
  import opened Tasks
  import opened Closure
  import opened TopoSort

  datatype Line = Line(indent: nat, index: nat)

  // ---- What is printed, on positions ---------------------------------------------------------------

  /** print_task_recursive: nothing for a visited task, otherwise its line and its dependencies below. */
  function Print(g: Graph, i: nat, indent: nat, visited: set<nat>): (r: (seq<Line>, set<nat>))
    requires DepsInRange(g) && i < g.Size()
    ensures visited <= r.1
    decreases Unvisited(g, visited), 0
  {
    if i in visited then ([], visited)
    else
      MarkOne(g, i, visited);
      var (lines, v) := PrintAll(g, g.deps[i], indent + 1, visited + {i});
      ([Line(indent, i)] + lines, v)
  }

  function PrintAll(g: Graph, ds: seq<nat>, indent: nat, visited: set<nat>): (r: (seq<Line>, set<nat>))
    requires DepsInRange(g) && forall d :: d in ds ==> d < g.Size()
    ensures visited <= r.1
    decreases Unvisited(g, visited), |ds| + 1
  {
    if ds == [] then ([], visited)
    else
      assert ds[0] in ds;
      var (first, v) := Print(g, ds[0], indent, visited);
      MarkMore(g, visited, v);
      assert forall d :: d in ds[1..] ==> d in ds;
      var (rest, v') := PrintAll(g, ds[1..], indent, v);
      (first + rest, v')
  }

  /** The number of tasks not printed yet. */
  ghost function Unvisited(g: Graph, visited: set<nat>): nat {
    |Nodes(g) - visited|
  }

  lemma MarkOne(g: Graph, i: nat, visited: set<nat>)
    requires i < g.Size() && i !in visited
    ensures Unvisited(g, visited + {i}) < Unvisited(g, visited)
  {
    assert Nodes(g) - (visited + {i}) == Nodes(g) - visited - {i};
  }

  lemma MarkMore(g: Graph, visited: set<nat>, v: set<nat>)
    requires visited <= v
    ensures Unvisited(g, v) <= Unvisited(g, visited)
  {
    SubsetCard(Nodes(g) - v, Nodes(g) - visited);
  }

  // ---- Each task once --------------------------------------------------------------------------------

  ghost function Indices(lines: seq<Line>): set<nat> {
    set k | 0 <= k < |lines| :: lines[k].index
  }

  /** The lines show each newly visited task once, and nothing else. */
  ghost predicate Covers(lines: seq<Line>, visited: set<nat>, v: set<nat>) {
    && (forall j, k :: 0 <= j < k < |lines| ==> lines[j].index != lines[k].index)
    && Indices(lines) !! visited && v == visited + Indices(lines)
  }

  lemma CoversJoin(first: seq<Line>, rest: seq<Line>, visited: set<nat>, v: set<nat>, v': set<nat>)
    requires Covers(first, visited, v) && Covers(rest, v, v')
    ensures Covers(first + rest, visited, v')
  {
    assert Indices(first + rest) == Indices(first) + Indices(rest) by {
      forall k | 0 <= k < |rest| ensures rest[k].index in Indices(first + rest) {
        assert (first + rest)[|first| + k] == rest[k];
      }
      forall k | 0 <= k < |first| ensures first[k].index in Indices(first + rest) {
        assert (first + rest)[k] == first[k];
      }
    }
    forall j, k | 0 <= j < k < |first + rest|
      ensures (first + rest)[j].index != (first + rest)[k].index
    {
      if j < |first| <= k {
        assert first[j].index in Indices(first);
        assert rest[k - |first|].index in Indices(rest);
      }
    }
  }

  lemma {:induction false} PrintCovers(g: Graph, i: nat, indent: nat, visited: set<nat>)
    requires DepsInRange(g) && i < g.Size()
    ensures var (lines, v) := Print(g, i, indent, visited); Covers(lines, visited, v) && i in v
    decreases Unvisited(g, visited), 0
  {
    hide Covers;
    if i !in visited {
      MarkOne(g, i, visited);
      PrintAllCovers(g, g.deps[i], indent + 1, visited + {i});
      var (lines, v) := PrintAll(g, g.deps[i], indent + 1, visited + {i});
      OneCovers(indent, i, visited);
      CoversJoin([Line(indent, i)], lines, visited, visited + {i}, v);
    } else {
      NoneCovers(visited);
    }
  }

  lemma OneCovers(indent: nat, i: nat, visited: set<nat>)
    requires i !in visited
    ensures Covers([Line(indent, i)], visited, visited + {i})
  {
    assert [Line(indent, i)][0].index in Indices([Line(indent, i)]);
    assert Indices([Line(indent, i)]) == {i};
  }

  lemma NoneCovers(visited: set<nat>)
    ensures Covers([], visited, visited)
  {}

  lemma {:induction false} PrintAllCovers(g: Graph, ds: seq<nat>, indent: nat, visited: set<nat>)
    requires DepsInRange(g) && forall d :: d in ds ==> d < g.Size()
    ensures var (lines, v) := PrintAll(g, ds, indent, visited);
            Covers(lines, visited, v) && forall d :: d in ds ==> d in v
    decreases Unvisited(g, visited), |ds| + 1
  {
    hide Covers;
    if ds == [] {
      NoneCovers(visited);
    } else {
      assert ds[0] in ds && forall d :: d in ds <==> d == ds[0] || d in ds[1..];
      var (first, v) := Print(g, ds[0], indent, visited);
      MarkMore(g, visited, v);
      PrintCovers(g, ds[0], indent, visited);
      PrintAllCovers(g, ds[1..], indent, v);
      var (rest, v') := PrintAll(g, ds[1..], indent, v);
      CoversJoin(first, rest, visited, v, v');
    }
  }

  // ---- Each line below the task that depends on it ---------------------------------------------------------

  /** Line b is the parent of line a: one step further out, with only deeper lines between, and a task
      that depends on a's. */
  ghost predicate IsParent(g: Graph, lines: seq<Line>, b: nat, a: nat)
    requires b < a < |lines|
  {
    && lines[b].indent + 1 == lines[a].indent
    && lines[b].index < g.Size() && lines[a].index in g.deps[lines[b].index]
    && forall c :: b < c < a ==> lines[c].indent >= lines[a].indent
  }

  ghost predicate HasParent(g: Graph, lines: seq<Line>, a: nat)
    requires a < |lines|
  {
    exists b: nat :: b < a && IsParent(g, lines, b, a)
  }

  /** Trees at the given indent whose roots are among ds. */
  ghost predicate Forest(g: Graph, ds: seq<nat>, lines: seq<Line>, indent: nat) {
    forall a :: 0 <= a < |lines| ==>
      && lines[a].indent >= indent
      && (lines[a].indent == indent ==> lines[a].index in ds)
      && (lines[a].indent > indent ==> HasParent(g, lines, a))
  }

  lemma ParentBehind(g: Graph, first: seq<Line>, rest: seq<Line>, a: nat)
    requires a < |rest| && HasParent(g, rest, a)
    ensures HasParent(g, first + rest, |first| + a)
  {
    var lines := first + rest;
    var b: nat :| b < a && IsParent(g, rest, b, a);
    forall c | |first| + b < c < |first| + a
      ensures lines[c].indent >= lines[|first| + a].indent
    {
      assert lines[c] == rest[c - |first|];
    }
    assert IsParent(g, lines, |first| + b, |first| + a);
  }

  lemma ParentBefore(g: Graph, first: seq<Line>, rest: seq<Line>, a: nat)
    requires a < |first| && HasParent(g, first, a)
    ensures HasParent(g, first + rest, a)
  {
    var b: nat :| b < a && IsParent(g, first, b, a);
    assert IsParent(g, first + rest, b, a);
  }

  lemma ForestJoin(g: Graph, ds: seq<nat>, first: seq<Line>, rest: seq<Line>, indent: nat)
    requires ds != [] && Forest(g, [ds[0]], first, indent) && Forest(g, ds[1..], rest, indent)
    ensures Forest(g, ds, first + rest, indent)
  {
    hide HasParent;
    var lines := first + rest;
    assert ds[0] in ds && forall d :: d in ds[1..] ==> d in ds;
    forall a: nat | a < |lines| && lines[a].indent > indent
      ensures HasParent(g, lines, a)
    {
      if a < |first| {
        ParentBefore(g, first, rest, a);
      } else {
        ParentBehind(g, first, rest, a - |first|);
      }
    }
  }

  /** A line at the top of a forest of i's dependencies has i's line for a parent. */
  lemma ParentAtTop(g: Graph, i: nat, lines: seq<Line>, indent: nat, a: nat)
    requires i < g.Size() && a < |lines| && lines[a].indent == indent + 1 && lines[a].index in g.deps[i]
    requires forall c :: 0 <= c < |lines| ==> lines[c].indent >= indent + 1
    ensures HasParent(g, [Line(indent, i)] + lines, a + 1)
  {
    var all := [Line(indent, i)] + lines;
    forall c | 0 < c < a + 1
      ensures all[c].indent >= all[a + 1].indent
    {
      assert all[c] == lines[c - 1];
    }
    assert IsParent(g, all, 0, a + 1);
  }

  lemma TreeOf(g: Graph, i: nat, lines: seq<Line>, indent: nat)
    requires i < g.Size() && Forest(g, g.deps[i], lines, indent + 1)
    ensures Forest(g, [i], [Line(indent, i)] + lines, indent)
  {
    hide HasParent;
    var all := [Line(indent, i)] + lines;
    forall a: nat | a < |all| && all[a].indent > indent
      ensures HasParent(g, all, a)
    {
      assert all[a] == lines[a - 1];
      if lines[a - 1].indent == indent + 1 {
        ParentAtTop(g, i, lines, indent, a - 1);
      } else {
        ParentBehind(g, [Line(indent, i)], lines, a - 1);
      }
    }
  }

  lemma {:induction false} PrintIsTree(g: Graph, i: nat, indent: nat, visited: set<nat>)
    requires DepsInRange(g) && i < g.Size()
    ensures Forest(g, [i], Print(g, i, indent, visited).0, indent)
    decreases Unvisited(g, visited), 0
  {
    if i !in visited {
      MarkOne(g, i, visited);
      PrintAllIsForest(g, g.deps[i], indent + 1, visited + {i});
      TreeOf(g, i, PrintAll(g, g.deps[i], indent + 1, visited + {i}).0, indent);
    }
  }

  lemma {:induction false} PrintAllIsForest(g: Graph, ds: seq<nat>, indent: nat, visited: set<nat>)
    requires DepsInRange(g) && forall d :: d in ds ==> d < g.Size()
    ensures Forest(g, ds, PrintAll(g, ds, indent, visited).0, indent)
    decreases Unvisited(g, visited), |ds| + 1
  {
    if ds != [] {
      assert ds[0] in ds && forall d :: d in ds[1..] ==> d in ds;
      var (first, v) := Print(g, ds[0], indent, visited);
      MarkMore(g, visited, v);
      PrintIsTree(g, ds[0], indent, visited);
      PrintAllIsForest(g, ds[1..], indent, v);
      ForestJoin(g, ds, first, PrintAll(g, ds[1..], indent, v).0, indent);
    }
  }

  // ---- Dependencies in their turn -----------------------------------------------------------------------

  /** x is in ds, and what stands before it there has been printed before. */
  ghost predicate InTurn(ds: seq<nat>, before: set<nat>, x: nat) {
    exists j :: 0 <= j < |ds| && ds[j] == x && forall c :: 0 <= c < j ==> ds[c] in before
  }

  /** Line a shows the first dependency of its parent that was not printed before. */
  ghost predicate NextOfParent(g: Graph, lines: seq<Line>, visited: set<nat>, a: nat)
    requires a < |lines|
  {
    exists b: nat :: b < a && IsParent(g, lines, b, a) &&
                     InTurn(g.deps[lines[b].index], visited + Indices(lines[..a]), lines[a].index)
  }

  ghost predicate TurnForest(g: Graph, ds: seq<nat>, lines: seq<Line>, indent: nat, visited: set<nat>) {
    forall a :: 0 <= a < |lines| ==>
      && lines[a].indent >= indent
      && (lines[a].indent == indent ==> InTurn(ds, visited + Indices(lines[..a]), lines[a].index))
      && (lines[a].indent > indent ==> NextOfParent(g, lines, visited, a))
  }

  lemma IndicesJoin(first: seq<Line>, rest: seq<Line>)
    ensures Indices(first + rest) == Indices(first) + Indices(rest)
  {
    forall k | 0 <= k < |rest| ensures rest[k].index in Indices(first + rest) {
      assert (first + rest)[|first| + k] == rest[k];
    }
    forall k | 0 <= k < |first| ensures first[k].index in Indices(first + rest) {
      assert (first + rest)[k] == first[k];
    }
  }

  lemma SeenBehind(first: seq<Line>, rest: seq<Line>, visited: set<nat>, a: nat)
    requires a <= |rest|
    ensures visited + Indices((first + rest)[..|first| + a]) == visited + Indices(first) + Indices(rest[..a])
  {
    assert (first + rest)[..|first| + a] == first + rest[..a];
    IndicesJoin(first, rest[..a]);
  }

  lemma NextBehind(g: Graph, first: seq<Line>, rest: seq<Line>, visited: set<nat>, a: nat)
    requires a < |rest| && NextOfParent(g, rest, visited + Indices(first), a)
    ensures NextOfParent(g, first + rest, visited, |first| + a)
  {
    hide InTurn;
    var lines, x := first + rest, |first| + a;
    var b: nat :| b < a && IsParent(g, rest, b, a) &&
                  InTurn(g.deps[rest[b].index], visited + Indices(first) + Indices(rest[..a]), rest[a].index);
    SeenBehind(first, rest, visited, a);
    assert lines[x] == rest[a] && lines[|first| + b] == rest[b];
    forall c | |first| + b < c < x
      ensures lines[c].indent >= lines[x].indent
    {
      assert lines[c] == rest[c - |first|];
    }
    assert IsParent(g, lines, |first| + b, x);
  }

  lemma NextBefore(g: Graph, first: seq<Line>, rest: seq<Line>, visited: set<nat>, a: nat)
    requires a < |first| && NextOfParent(g, first, visited, a)
    ensures NextOfParent(g, first + rest, visited, a)
  {
    hide InTurn;
    var b: nat :| b < a && IsParent(g, first, b, a) &&
                  InTurn(g.deps[first[b].index], visited + Indices(first[..a]), first[a].index);
    assert (first + rest)[..a] == first[..a];
    assert IsParent(g, first + rest, b, a);
  }

  lemma TurnCons(d: nat, ds: seq<nat>, before: set<nat>, x: nat)
    requires d in before && InTurn(ds, before, x)
    ensures InTurn([d] + ds, before, x)
  {
    var j :| 0 <= j < |ds| && ds[j] == x && forall c :: 0 <= c < j ==> ds[c] in before;
    var all := [d] + ds;
    assert all[j + 1] == x;
    forall c | 0 <= c < j + 1
      ensures all[c] in before
    {
      if c > 0 { assert all[c] == ds[c - 1]; }
    }
  }

  lemma FirstTurn(d: nat, ds: seq<nat>, before: set<nat>, x: nat)
    requires InTurn([d], before, x)
    ensures InTurn([d] + ds, before, x)
  {
    assert ([d] + ds)[0] == d == x;
  }

  lemma TurnsJoin(g: Graph, d: nat, ds: seq<nat>, first: seq<Line>, rest: seq<Line>, indent: nat, visited: set<nat>)
    requires TurnForest(g, [d], first, indent, visited) && d in visited + Indices(first)
    requires TurnForest(g, ds, rest, indent, visited + Indices(first))
    ensures TurnForest(g, [d] + ds, first + rest, indent, visited)
  {
    hide InTurn, NextOfParent, Indices;
    var lines := first + rest;
    forall a: nat | a < |lines|
      ensures lines[a].indent >= indent
      ensures lines[a].indent == indent ==> InTurn([d] + ds, visited + Indices(lines[..a]), lines[a].index)
      ensures lines[a].indent > indent ==> NextOfParent(g, lines, visited, a)
    {
      if a < |first| {
        assert lines[a] == first[a] && lines[..a] == first[..a];
        if first[a].indent == indent {
          FirstTurn(d, ds, visited + Indices(first[..a]), first[a].index);
        } else {
          NextBefore(g, first, rest, visited, a);
        }
      } else {
        var k := a - |first|;
        assert lines[a] == rest[k];
        SeenBehind(first, rest, visited, k);
        if rest[k].indent == indent {
          TurnCons(d, ds, visited + Indices(first) + Indices(rest[..k]), rest[k].index);
        } else {
          NextBehind(g, first, rest, visited, k);
        }
      }
    }
  }

  lemma NextAtTop(g: Graph, i: nat, lines: seq<Line>, indent: nat, visited: set<nat>, a: nat)
    requires i < g.Size() && a < |lines| && lines[a].indent == indent + 1
    requires forall c :: 0 <= c < |lines| ==> lines[c].indent >= indent + 1
    requires InTurn(g.deps[i], visited + {i} + Indices(lines[..a]), lines[a].index)
    ensures NextOfParent(g, [Line(indent, i)] + lines, visited, a + 1)
  {
    var head := [Line(indent, i)];
    var all := head + lines;
    SeenBehind(head, lines, visited, a);
    OneIndex(indent, i);
    forall c | 0 < c < a + 1
      ensures all[c].indent >= all[a + 1].indent
    {
      assert all[c] == lines[c - 1];
    }
    assert IsParent(g, all, 0, a + 1);
  }

  lemma OneIndex(indent: nat, i: nat)
    ensures Indices([Line(indent, i)]) == {i}
  {
    assert [Line(indent, i)][0].index in Indices([Line(indent, i)]);
  }

  lemma TurnTree(g: Graph, i: nat, lines: seq<Line>, indent: nat, visited: set<nat>)
    requires i < g.Size() && TurnForest(g, g.deps[i], lines, indent + 1, visited + {i})
    ensures TurnForest(g, [i], [Line(indent, i)] + lines, indent, visited)
  {
    hide InTurn, NextOfParent, Indices;
    var head := [Line(indent, i)];
    var all := head + lines;
    OneIndex(indent, i);
    forall a: nat | a < |all|
      ensures all[a].indent >= indent
      ensures all[a].indent == indent ==> InTurn([i], visited + Indices(all[..a]), all[a].index)
      ensures all[a].indent > indent ==> NextOfParent(g, all, visited, a)
    {
      if a == 0 {
        OwnTurn(i, visited + Indices(all[..a]));
      } else {
        assert all[a] == lines[a - 1];
        if lines[a - 1].indent == indent + 1 {
          NextAtTop(g, i, lines, indent, visited, a - 1);
        } else {
          NextBehind(g, head, lines, visited, a - 1);
        }
      }
    }
  }

  lemma OwnTurn(i: nat, before: set<nat>)
    ensures InTurn([i], before, i)
  {
    assert [i][0] == i;
  }

  lemma {:induction false} PrintTakesTurns(g: Graph, i: nat, indent: nat, visited: set<nat>)
    requires DepsInRange(g) && i < g.Size()
    ensures TurnForest(g, [i], Print(g, i, indent, visited).0, indent, visited)
    decreases Unvisited(g, visited), 0
  {
    hide InTurn, NextOfParent, Indices, TurnForest;
    if i in visited {
      NoTurns(g, [i], indent, visited);
    } else {
      MarkOne(g, i, visited);
      PrintAllTakesTurns(g, g.deps[i], indent + 1, visited + {i});
      TurnTree(g, i, PrintAll(g, g.deps[i], indent + 1, visited + {i}).0, indent, visited);
    }
  }

  lemma NoTurns(g: Graph, ds: seq<nat>, indent: nat, visited: set<nat>)
    ensures TurnForest(g, ds, [], indent, visited)
  {}

  /** Dependencies are printed in their order, those printed before passed over. */
  lemma {:induction false} PrintAllTakesTurns(g: Graph, ds: seq<nat>, indent: nat, visited: set<nat>)
    requires DepsInRange(g) && forall d :: d in ds ==> d < g.Size()
    ensures TurnForest(g, ds, PrintAll(g, ds, indent, visited).0, indent, visited)
    decreases Unvisited(g, visited), |ds| + 1
  {
    hide InTurn, NextOfParent, Indices, HasParent, TurnForest;
    if ds == [] {
      NoTurns(g, ds, indent, visited);
    } else {
      assert ds[0] in ds && forall d :: d in ds[1..] ==> d in ds;
      var (first, v) := Print(g, ds[0], indent, visited);
      MarkMore(g, visited, v);
      PrintCovers(g, ds[0], indent, visited);
      PrintTakesTurns(g, ds[0], indent, visited);
      PrintAllTakesTurns(g, ds[1..], indent, v);
      assert [ds[0]] + ds[1..] == ds;
      TurnsJoin(g, ds[0], ds[1..], first, PrintAll(g, ds[1..], indent, v).0, indent, visited);
    }
  }

  // ---- The whole graph ---------------------------------------------------------------------------------

  /** Roots first, then whatever is left, in list order: what print_task_graph prints. */
  function PrintOrder(roots: seq<nat>, n: nat): seq<nat> {
    roots + AllPositions(n)
  }

  /** On any graph, cyclic ones included, every task is printed exactly once, each below one that
      depends on it unless it stands at the margin. */
  lemma GraphPrintedOnce(g: Graph, roots: seq<nat>)
    requires DepsInRange(g) && forall r :: r in roots ==> r < g.Size()
    ensures var order := PrintOrder(roots, g.Size());
            && (forall d :: d in order ==> d < g.Size())
            && var lines := PrintAll(g, order, 0, {}).0;
               && |lines| == g.Size()
               && (forall i: nat :: i < g.Size() ==> multiset(IndexSeq(lines))[i] == 1)
               && (forall a :: 0 <= a < |lines| && lines[a].indent > 0 ==> HasParent(g, lines, a))
  {
    hide PrintAll, HasParent;
    var order := PrintOrder(roots, g.Size());
    var (lines, v) := PrintAll(g, order, 0, {});
    PrintAllCovers(g, order, 0, {});
    PrintAllIsForest(g, order, 0, {});
    PrintStaysInside(g, order, 0, {});
    forall i: nat | i < g.Size()
      ensures i in v
    {
      assert AllPositions(g.Size())[i] == i;
      assert i in order;
    }
    var ix: seq<nat> := IndexSeq(lines);
    assert Elements(ix) == Nodes(g) by {
      forall i: nat ensures i in Elements(ix) <==> i in Indices(lines) {}
    }
    NoDupCard(ix);
    forall i: nat | i < g.Size()
      ensures multiset(ix)[i] == 1
    {
      assert i in Elements(ix);
      Once(ix, i);
    }
  }

  function IndexSeq(lines: seq<Line>): (r: seq<nat>)
    ensures |r| == |lines| && forall k :: 0 <= k < |r| ==> r[k] == lines[k].index
  {
    seq(|lines|, k requires 0 <= k < |lines| => lines[k].index)
  }

  lemma {:induction false} Once(s: seq<nat>, x: nat)
    requires NoDup(s) && x in s
    ensures multiset(s)[x] == 1
  {
    var k := |s| - 1;
    assert s == s[..k] + [s[k]];
    if s[k] == x {
      assert x !in s[..k];
    } else {
      Once(s[..k], x);
    }
  }

  lemma {:induction false} PrintStaysInside(g: Graph, ds: seq<nat>, indent: nat, visited: set<nat>)
    requires DepsInRange(g) && (forall d :: d in ds ==> d < g.Size()) && visited <= Nodes(g)
    ensures PrintAll(g, ds, indent, visited).1 <= Nodes(g)
    decreases Unvisited(g, visited), |ds|
  {
    if ds != [] {
      assert ds[0] in ds && forall d :: d in ds[1..] ==> d in ds;
      var v := Print(g, ds[0], indent, visited).1;
      MarkMore(g, visited, v);
      if ds[0] !in visited {
        MarkOne(g, ds[0], visited);
        PrintStaysInside(g, g.deps[ds[0]], indent + 1, visited + {ds[0]});
      }
      PrintStaysInside(g, ds[1..], indent, v);
    }
  }

  // ---- The printer on the tasks ---------------------------------------------------------------------------

  function Spaces(n: nat): string {
    seq(n, _ => ' ')
  }

  function Symbol(s: Status): string {
    match s
    case Running => "[~]"
    case Skipped => "[*]"
    case Success => "[\U{2714}]"
    case Failed => "[X]"
    case Pending => "[ ]"
  }

  /** A task's line. */
  function LineText(t: Task, indent: nat): string
    reads t
  {
    Spaces(2 * indent) + Symbol(t.status) + " " + t.decl.name
    + (match t.taskHash case Some(h) => " (hash=" + h + ")" case None => "")
    + (match t.resultHash case Some(h) => " res=" + h case None => "")
  }

  /** The line of a task that has run, one step in. */
  lemma LineOfSuccess(t: Task)
    requires t.status == Success && t.taskHash == Some("k") && t.resultHash == Some("r") && t.decl.name == "app"
    ensures LineText(t, 1) == "  [\U{2714}] app (hash=k) res=r"
  {
    assert Spaces(2) == "  ";
  }

  /** The symbol tells the status. */
  lemma SymbolsDiffer(s: Status, s': Status)
    ensures Symbol(s) == Symbol(s') ==> s == s'
    ensures |Symbol(s)| == 3 && Symbol(s)[0] == '[' && Symbol(s)[2] == ']'
  {
    assert Symbol(s)[1] == Symbol(s')[1] ==> s == s';
  }

  /** Standard output, and whose lines stand there. */
  class Output {
    var lines: seq<string>
    ghost var shown: seq<Line>

    ghost predicate Valid(all: seq<Task>)
      reads this, all
    {
      |lines| == |shown| &&
      forall k :: 0 <= k < |shown| ==> shown[k].index < |all| && lines[k] == LineText(all[shown[k].index], shown[k].indent)
    }

    constructor ()
      ensures lines == [] && shown == []
    {
      lines, shown := [], [];
    }

    method Put(t: Task, indent: nat, all: seq<Task>, ghost i: nat)
      requires Valid(all) && i < |all| && all[i] == t
      modifies this
      ensures Valid(all) && shown == old(shown) + [Line(indent, i)]
    {
      hide LineText;
      lines := lines + [LineText(t, indent)];
      shown := shown + [Line(indent, i)];
    }
  }

  ghost function VisitedSet(visited: array<bool>): set<nat>
    reads visited
  {
    set i: nat | i < visited.Length && visited[i]
  }

  lemma PrintUnfold(g: Graph, i: nat, indent: nat, visited: set<nat>)
    requires DepsInRange(g) && i < g.Size()
    ensures Print(g, i, indent, visited) ==
            if i in visited then ([], visited)
            else var r := PrintAll(g, g.deps[i], indent + 1, visited + {i}); ([Line(indent, i)] + r.0, r.1)
  {}

  lemma PrintAllUnfold(g: Graph, ds: seq<nat>, indent: nat, visited: set<nat>)
    requires DepsInRange(g) && (forall d :: d in ds ==> d < g.Size()) && ds != []
    ensures ds[0] in ds && forall d :: d in ds[1..] ==> d in ds
    ensures var (first, v) := Print(g, ds[0], indent, visited);
            var (rest, v') := PrintAll(g, ds[1..], indent, v);
            PrintAll(g, ds, indent, visited) == (first + rest, v')
  {}

  lemma PrintNothing(g: Graph, indent: nat, visited: set<nat>)
    requires DepsInRange(g)
    ensures PrintAll(g, [], indent, visited) == ([], visited)
  {}

  /** What has been printed since out showed base, and what is marked. */
  ghost predicate Printed(all: seq<Task>, visited: array<bool>, out: Output, base: seq<Line>, r: (seq<Line>, set<nat>))
    reads all, visited, out
  {
    out.Valid(all) && VisitedSet(visited) == r.1 && out.shown == base + r.0
  }

  lemma Distinct(all: seq<Task>, a: int, b: nat)
    requires NoDup(all) && b < |all| && -1 <= a < |all|
    requires (a >= 0 ==> all[a] == all[b]) && (a == -1 ==> all[b] !in all)
    ensures a == b
  {}

  /** Marks task i and prints its line. */
  method PrintLine(t: Task, i: nat, indent: nat, all: seq<Task>, visited: array<bool>, out: Output)
    requires i < |all| == visited.Length && all[i] == t && !visited[i] && out.Valid(all)
    modifies visited, out
    ensures Printed(all, visited, out, old(out.shown), ([Line(indent, i)], old(VisitedSet(visited)) + {i}))
  {
    hide LineText;
    visited[i] := true;
    out.Put(t, indent, all, i);
  }

  /** print_task_recursive: prints what Print says, and ends on every graph because each call that goes
      on marks a task first. */
  method PrintTask(t: Task, ghost i: nat, indent: nat, all: seq<Task>, visited: array<bool>, out: Output)
    requires NoDup(all) && visited.Length == |all| && i < |all| && all[i] == t && out.Valid(all)
    requires DepsInRange(DepGraph(all))
    modifies visited, out
    ensures Printed(all, visited, out, old(out.shown), Print(DepGraph(all), i, indent, old(VisitedSet(visited))))
    decreases Unvisited(DepGraph(all), VisitedSet(visited)), 0
  {
    hide NoDup, DepsInRange, Print, PrintAll, Unvisited, LineText, DepGraph;
    ghost var g := DepGraph(all);
    ghost var before, base := VisitedSet(visited), out.shown;
    PrintUnfold(g, i, indent, before);
    var idx := IndexOfTask(all, t);
    Distinct(all, idx, i);
    if visited[idx] {
      assert base + [] == base;
      return;
    }
    MarkOne(g, i, before);
    PrintLine(t, idx, indent, all, visited, out);
    PrintDeps(t, i, indent, all, visited, out);
    ghost var rest := PrintAll(g, g.deps[i], indent + 1, before + {i});
    assert base + [Line(indent, i)] + rest.0 == base + ([Line(indent, i)] + rest.0);
  }

  /** The loop over the dependencies. */
  method PrintDeps(t: Task, ghost i: nat, indent: nat, all: seq<Task>, visited: array<bool>, out: Output)
    requires NoDup(all) && visited.Length == |all| && i < |all| && all[i] == t && out.Valid(all)
    requires DepsInRange(DepGraph(all))
    modifies visited, out
    ensures Printed(all, visited, out, old(out.shown),
                    PrintAll(DepGraph(all), DepGraph(all).deps[i], indent + 1, old(VisitedSet(visited))))
    decreases Unvisited(DepGraph(all), VisitedSet(visited)), 1
  {
    hide NoDup, Resolve, Print, PrintAll, Unvisited, LineText, DepGraph, DepsInRange, FindIndex;
    ghost var g := DepGraph(all);
    ghost var ds, base, start := g.deps[i], out.shown, VisitedSet(visited);
    ghost var goal := PrintAll(g, ds, indent + 1, start);
    ghost var now: (seq<Line>, set<nat>) := ([], start);
    var deps := t.decl.deps;
    ghost var k := 0;
    ResolveNone(Names(all), deps);
    assert ds[0..] == ds && [] + goal.0 == goal.0 && base + [] == base;
    assert forall d :: d in ds ==> d < g.Size();
    for j := 0 to |deps|
      invariant k == |Resolve(Names(all), deps[..j])| && k <= |ds|
      invariant Printed(all, visited, out, base, now) && start <= now.1
      invariant forall d :: d in ds[k..] ==> d in ds
      invariant goal == Joined(now, PrintAll(g, ds[k..], indent + 1, now.1))
    {
      var index := FindTask(all, deps[j]);
      ResolveStep(Names(all), deps, j);
      if index >= 0 {
        assert ds[k..][0] == index && ds[k..][1..] == ds[k + 1..];
        PrintAllUnfold(g, ds[k..], indent + 1, now.1);
        MarkMore(g, start, now.1);
        ghost var more := Print(g, index, indent + 1, now.1);
        JoinedAssoc(now, more, PrintAll(g, ds[k + 1..], indent + 1, more.1), base);
        PrintTask(all[index], index, indent + 1, all, visited, out);
        now := Joined(now, more);
        k := k + 1;
      }
    }
    assert deps[..|deps|] == deps;
    assert ds[k..] == [];
    PrintNothing(g, indent + 1, now.1);
    assert now.0 + [] == now.0;
  }

  function Joined(a: (seq<Line>, set<nat>), b: (seq<Line>, set<nat>)): (seq<Line>, set<nat>) {
    (a.0 + b.0, b.1)
  }

  lemma JoinedAssoc(a: (seq<Line>, set<nat>), b: (seq<Line>, set<nat>), c: (seq<Line>, set<nat>), base: seq<Line>)
    ensures Joined(a, (b.0 + c.0, c.1)) == Joined(Joined(a, b), c)
    ensures base + a.0 + b.0 == base + (a.0 + b.0)
  {
    assert a.0 + (b.0 + c.0) == a.0 + b.0 + c.0;
  }

  // ---- print_task_graph ------------------------------------------------------------------------------------

  /** Some other task depends on the name of task i. */
  predicate IsDependency(all: seq<Task>, i: nat)
    requires i < |all|
  {
    exists j :: 0 <= j < |all| && j != i && all[i].decl.name in all[j].decl.deps
  }

  /** The first k tasks that no other task depends on. */
  function GraphRoots(all: seq<Task>, k: nat): (r: seq<nat>)
    requires k <= |all|
    ensures forall x :: x in r ==> x < k
  {
    if k == 0 then []
    else if IsDependency(all, k - 1) then GraphRoots(all, k - 1)
    else GraphRoots(all, k - 1) + [k - 1]
  }

  lemma {:induction false} RootsAreUnnamed(all: seq<Task>, k: nat)
    requires k <= |all|
    ensures forall x: nat :: x in GraphRoots(all, k) <==> x < k && !IsDependency(all, x)
    ensures forall a, b :: 0 <= a < b < |GraphRoots(all, k)| ==> GraphRoots(all, k)[a] < GraphRoots(all, k)[b]
  {
    hide IsDependency;
    if k > 0 {
      RootsAreUnnamed(all, k - 1);
      var before := GraphRoots(all, k - 1);
      assert forall b :: 0 <= b < |before| ==> before[b] in before;
    }
  }

  /** A task is a root exactly when no other task names it as a dependency; the roots are in list order. */
  lemma GraphRootsIff(all: seq<Task>)
    ensures forall x: nat :: x in GraphRoots(all, |all|) <==>
                             x < |all| && forall j :: 0 <= j < |all| && j != x ==> all[x].decl.name !in all[j].decl.deps
    ensures forall a, b :: 0 <= a < b < |GraphRoots(all, |all|)| ==> GraphRoots(all, |all|)[a] < GraphRoots(all, |all|)[b]
  {
    hide GraphRoots;
    RootsAreUnnamed(all, |all|);
  }

  method DependedOn(all: seq<Task>, i: nat) returns (isDep: bool)
    requires i < |all|
    ensures isDep <==> IsDependency(all, i)
  {
    for j := 0 to |all|
      invariant forall k :: 0 <= k < j && k != i ==> all[i].decl.name !in all[k].decl.deps
    {
      if j != i {
        var deps := all[j].decl.deps;
        for d := 0 to |deps|
          invariant all[i].decl.name !in deps[..d]
        {
          if deps[d] == all[i].decl.name {
            return true;
          }
          assert deps[..d + 1] == deps[..d] + [deps[d]];
        }
        assert deps[..|deps|] == deps;
      }
    }
    return false;
  }

  lemma {:induction false} PrintAllSnoc(g: Graph, ds: seq<nat>, i: nat, visited: set<nat>)
    requires DepsInRange(g) && (forall d :: d in ds ==> d < g.Size()) && i < g.Size()
    ensures forall d :: d in ds + [i] ==> d < g.Size()
    ensures var r := PrintAll(g, ds, 0, visited);
            PrintAll(g, ds + [i], 0, visited) == Joined(r, Print(g, i, 0, r.1))
    decreases |ds|
  {
    if ds == [] {
      assert ds + [i] == [i];
      PrintAllUnfold(g, [i], 0, visited);
      PrintNothing(g, 0, Print(g, i, 0, visited).1);
      assert [i][1..] == [];
      var p := Print(g, i, 0, visited);
      assert p.0 + [] == p.0 == [] + p.0;
    } else {
      PrintAllUnfold(g, ds, 0, visited);
      PrintAllUnfold(g, ds + [i], 0, visited);
      assert (ds + [i])[1..] == ds[1..] + [i];
      var (first, v) := Print(g, ds[0], 0, visited);
      PrintAllSnoc(g, ds[1..], i, v);
      var rest := PrintAll(g, ds[1..], 0, v);
      JoinedAssoc((first, v), rest, Print(g, i, 0, rest.1), []);
    }
  }

  /** One more tree at the margin. */
  method PrintRoot(i: nat, all: seq<Task>, visited: array<bool>, out: Output, ghost ds: seq<nat>)
    requires NoDup(all) && visited.Length == |all| && i < |all| && DepsInRange(DepGraph(all))
    requires (forall d :: d in ds ==> d < |all|) && Printed(all, visited, out, [], PrintAll(DepGraph(all), ds, 0, {}))
    modifies visited, out
    ensures forall d :: d in ds + [i] ==> d < |all|
    ensures Printed(all, visited, out, [], PrintAll(DepGraph(all), ds + [i], 0, {}))
  {
    hide NoDup, DepsInRange, Print, PrintAll, DepGraph, LineText, Printed;
    PrintAllSnoc(DepGraph(all), ds, i, {});
    ghost var r := PrintAll(DepGraph(all), ds, 0, {});
    PrintedMeans(all, visited, out, r);
    PrintTask(all[i], i, 0, all, visited, out);
    PrintedMore(all, visited, out, r, Print(DepGraph(all), i, 0, r.1));
  }

  lemma PrintedMeans(all: seq<Task>, visited: array<bool>, out: Output, r: (seq<Line>, set<nat>))
    requires Printed(all, visited, out, [], r)
    ensures out.Valid(all) && VisitedSet(visited) == r.1 && out.shown == r.0
  {}

  lemma PrintedMore(all: seq<Task>, visited: array<bool>, out: Output, r: (seq<Line>, set<nat>), more: (seq<Line>, set<nat>))
    requires Printed(all, visited, out, r.0, more)
    ensures Printed(all, visited, out, [], Joined(r, more))
  {}

  // ---- The roots stand first -----------------------------------------------------------------------------

  /** The tasks whose lines stand at the margin, from the top. */
  function Margin(lines: seq<Line>): seq<nat> {
    if lines == [] then []
    else Margin(lines[..|lines| - 1]) + if lines[|lines| - 1].indent == 0 then [lines[|lines| - 1].index] else []
  }

  lemma {:induction false} MarginJoin(a: seq<Line>, b: seq<Line>)
    ensures Margin(a + b) == Margin(a) + Margin(b)
    decreases |b|
  {
    if b == [] {
      assert a + b == a;
    } else {
      assert (a + b)[..|a + b| - 1] == a + b[..|b| - 1];
      MarginJoin(a, b[..|b| - 1]);
    }
  }

  lemma {:induction false} NothingAtMargin(lines: seq<Line>)
    requires forall a :: 0 <= a < |lines| ==> lines[a].indent > 0
    ensures Margin(lines) == []
  {
    if lines != [] { NothingAtMargin(lines[..|lines| - 1]); }
  }

  lemma OneAtMargin(g: Graph, i: nat, visited: set<nat>)
    requires DepsInRange(g) && i < g.Size()
    ensures Margin(Print(g, i, 0, visited).0) == if i in visited then [] else [i]
  {
    if i !in visited {
      MarkOne(g, i, visited);
      var lines := PrintAll(g, g.deps[i], 1, visited + {i}).0;
      PrintAllIsForest(g, g.deps[i], 1, visited + {i});
      NothingAtMargin(lines);
      MarginJoin([Line(0, i)], lines);
      assert [Line(0, i)][..0] == [];
      assert Margin([Line(0, i)]) == [i];
    }
  }

  /** No other task depends on r. */
  ghost predicate Free(g: Graph, r: nat) {
    r < g.Size() && forall j :: 0 <= j < g.Size() && j != r ==> r !in g.deps[j]
  }

  /** Such a task is printed for its own sake only. */
  lemma FreeUnseen(g: Graph, ds: seq<nat>, r: nat)
    requires DepsInRange(g) && (forall d :: d in ds ==> d < g.Size()) && Free(g, r) && r !in ds
    ensures r !in PrintAll(g, ds, 0, {}).1
  {
    var (lines, v) := PrintAll(g, ds, 0, {});
    PrintAllCovers(g, ds, 0, {});
    PrintAllIsForest(g, ds, 0, {});
    forall a: nat | a < |lines|
      ensures lines[a].index != r
    {
      if lines[a].indent > 0 {
        var b: nat :| b < a && IsParent(g, lines, b, a);
        assert lines[b].index != lines[a].index;
      }
    }
  }

  lemma {:induction false} RootsAtMargin(g: Graph, roots: seq<nat>, rest: seq<nat>)
    requires DepsInRange(g) && NoDup(roots) && (forall r :: r in roots ==> Free(g, r)) && forall d :: d in rest ==> d < g.Size()
    ensures (forall d :: d in roots + rest ==> d < g.Size()) && roots <= Margin(PrintAll(g, roots + rest, 0, {}).0)
    ensures rest == [] ==> roots == Margin(PrintAll(g, roots + rest, 0, {}).0)
    decreases |roots| + |rest|
  {
    hide Print, Free, DepsInRange;
    FreeInside(g, roots);
    if rest != [] {
      var init, i := rest[..|rest| - 1], rest[|rest| - 1];
      assert roots + rest == (roots + init) + [i] && i in rest && forall d :: d in init ==> d in rest;
      RootsAtMargin(g, roots, init);
      SnocMargin(g, roots + init, i);
    } else if roots != [] {
      var init, r := roots[..|roots| - 1], roots[|roots| - 1];
      assert roots + rest == init + [r] && init + [] == init && r in roots && r !in init;
      RootsAtMargin(g, init, []);
      FreeUnseen(g, init, r);
      SnocMargin(g, init, r);
    } else {
      assert roots + rest == [];
      PrintNothing(g, 0, {});
    }
  }

  lemma FreeInside(g: Graph, roots: seq<nat>)
    requires forall r :: r in roots ==> Free(g, r)
    ensures forall r :: r in roots ==> r < g.Size()
  {}

  lemma SnocMargin(g: Graph, ds: seq<nat>, i: nat)
    requires DepsInRange(g) && (forall d :: d in ds ==> d < g.Size()) && i < g.Size()
    ensures forall d :: d in ds + [i] ==> d < g.Size()
    ensures var r := PrintAll(g, ds, 0, {});
            Margin(PrintAll(g, ds + [i], 0, {}).0) == Margin(r.0) + if i in r.1 then [] else [i]
  {
    hide Print, PrintAll, DepsInRange, Margin;
    PrintAllSnoc(g, ds, i, {});
    var r := PrintAll(g, ds, 0, {});
    OneAtMargin(g, i, r.1);
    MarginJoin(r.0, Print(g, i, 0, r.1).0);
  }

  lemma {:induction false} RootsAreFree(all: seq<Task>, k: nat)
    requires k <= |all|
    ensures NoDup(GraphRoots(all, k)) && forall r :: r in GraphRoots(all, k) ==> Free(DepGraph(all), r)
  {
    hide IsDependency, DepGraph;
    if k > 0 {
      RootsAreFree(all, k - 1);
      if !IsDependency(all, k - 1) {
        NotNamedIsFree(all, k - 1);
        OneMoreRoot(GraphRoots(all, k - 1), k - 1);
      }
    }
  }

  lemma OneMoreRoot(roots: seq<nat>, r: nat)
    requires NoDup(roots) && r !in roots
    ensures NoDup(roots + [r])
  {}

  lemma NotNamedIsFree(all: seq<Task>, r: nat)
    requires r < |all| && !IsDependency(all, r)
    ensures Free(DepGraph(all), r)
  {
    var g := DepGraph(all);
    forall j | 0 <= j < g.Size() && j != r
      ensures r !in g.deps[j]
    {
      if r in g.deps[j] { ResolvedName(Names(all), all[j].decl.deps, r); }
    }
  }

  /** The first loop: a tree for every task that no other depends on. */
  method PrintRoots(all: seq<Task>, visited: array<bool>, out: Output)
    requires NoDup(all) && visited.Length == |all| && DepsInRange(DepGraph(all))
    requires Printed(all, visited, out, [], PrintAll(DepGraph(all), [], 0, {}))
    modifies visited, out
    ensures forall d :: d in GraphRoots(all, |all|) ==> d < |all|
    ensures Printed(all, visited, out, [], PrintAll(DepGraph(all), GraphRoots(all, |all|), 0, {}))
  {
    hide NoDup, Print, PrintAll, DepGraph, LineText, IsDependency, DepsInRange, Printed;
    for i := 0 to |all|
      invariant forall d :: d in GraphRoots(all, i) ==> d < |all|
      invariant Printed(all, visited, out, [], PrintAll(DepGraph(all), GraphRoots(all, i), 0, {}))
    {
      var isDep := DependedOn(all, i);
      if !isDep {
        PrintRoot(i, all, visited, out, GraphRoots(all, i));
      }
    }
  }

  /** The second loop: a tree for every task not printed yet. */
  method PrintRest(all: seq<Task>, visited: array<bool>, out: Output, ghost roots: seq<nat>)
    requires NoDup(all) && visited.Length == |all| && DepsInRange(DepGraph(all)) && forall d :: d in roots ==> d < |all|
    requires Printed(all, visited, out, [], PrintAll(DepGraph(all), roots, 0, {}))
    modifies visited, out
    ensures forall d :: d in PrintOrder(roots, |all|) ==> d < |all|
    ensures Printed(all, visited, out, [], PrintAll(DepGraph(all), PrintOrder(roots, |all|), 0, {}))
  {
    hide NoDup, Print, PrintAll, DepGraph, LineText, DepsInRange;
    ghost var ds := roots;
    assert ds == roots + AllPositions(0);
    for i := 0 to |all|
      invariant ds == roots + AllPositions(i) && forall d :: d in ds ==> d < |all|
      invariant Printed(all, visited, out, [], PrintAll(DepGraph(all), ds, 0, {}))
    {
      assert AllPositions(i + 1) == AllPositions(i) + [i];
      if !visited[i] {
        PrintRoot(i, all, visited, out, ds);
      } else {
        SkipPrinted(DepGraph(all), ds, i, VisitedSet(visited));
      }
      ds := ds + [i];
    }
  }

  lemma NothingPrinted(all: seq<Task>, visited: array<bool>, out: Output)
    requires (forall i :: 0 <= i < visited.Length ==> !visited[i]) && out.lines == [] && out.shown == []
    ensures Printed(all, visited, out, [], ([], {}))
  {
    assert VisitedSet(visited) == {};
  }

  /** print_task_graph: the roots, then whatever is left. Every task's line is printed exactly once,
      below one that depends on it or at the margin, on any graph, and the margin begins with the tasks
      that no other depends on, in list order. */
  method PrintGraph(all: seq<Task>) returns (out: Output)
    requires NoDup(all)
    ensures fresh(out) && out.Valid(all) && |out.shown| == |all|
    ensures forall i: nat :: i < |all| ==> multiset(IndexSeq(out.shown))[i] == 1
    ensures forall a :: 0 <= a < |out.shown| && out.shown[a].indent > 0 ==> HasParent(DepGraph(all), out.shown, a)
    ensures forall a :: 0 <= a < |out.shown| && out.shown[a].indent > 0 ==> NextOfParent(DepGraph(all), out.shown, {}, a)
    ensures GraphRoots(all, |all|) <= Margin(out.shown)
    ensures forall x: nat :: x in GraphRoots(all, |all|) <==>
                             x < |all| && forall j :: 0 <= j < |all| && j != x ==> all[x].decl.name !in all[j].decl.deps
    ensures forall a, b :: 0 <= a < b < |GraphRoots(all, |all|)| ==> GraphRoots(all, |all|)[a] < GraphRoots(all, |all|)[b]
  {
    hide InTurn, NextOfParent, NoDup, Print, PrintAll, DepGraph, LineText, HasParent, IsDependency, DepsInRange, Margin, GraphRoots, Output.Valid, IndexSeq;
    InRange(all);
    var visited := new bool[|all|](_ => false);
    out := new Output();
    PrintNothing(DepGraph(all), 0, {});
    NothingPrinted(all, visited, out);
    PrintRoots(all, visited, out);
    ghost var roots := GraphRoots(all, |all|);
    PrintRest(all, visited, out, roots);
    PrintedMeans(all, visited, out, PrintAll(DepGraph(all), PrintOrder(roots, |all|), 0, {}));
    GraphPrintedOnce(DepGraph(all), roots);
    RootsAreFree(all, |all|);
    RootsAtMargin(DepGraph(all), roots, AllPositions(|all|));
    GraphRootsIff(all);
    PrintAllTakesTurns(DepGraph(all), PrintOrder(roots, |all|), 0, {});
  }

  lemma SkipPrinted(g: Graph, ds: seq<nat>, i: nat, visited: set<nat>)
    requires DepsInRange(g) && (forall d :: d in ds ==> d < g.Size()) && i < g.Size()
    requires visited == PrintAll(g, ds, 0, {}).1 && i in visited
    ensures forall d :: d in ds + [i] ==> d < g.Size()
    ensures PrintAll(g, ds + [i], 0, {}) == PrintAll(g, ds, 0, {})
  {
    PrintAllSnoc(g, ds, i, {});
    var r := PrintAll(g, ds, 0, {});
    assert r.0 + [] == r.0;
  }
}
