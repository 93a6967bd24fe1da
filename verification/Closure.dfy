/** Collecting the targets and everything they depend on, dependencies first. */
module Closure {
  import opened Graphs
  import opened Tasks

  /** The growing output array of the collection. */
  class TaskBuffer {
    var items: array<Task?>
    var n: nat

    ghost predicate Valid()
      reads this, items
    {
      0 < items.Length && n <= items.Length && forall k :: 0 <= k < n ==> items[k] != null
    }

    ghost function Contents(): (r: seq<Task>)
      requires Valid()
      reads this, items
      ensures |r| == n && forall k :: 0 <= k < n ==> r[k] == items[k]
    {
      items[..n]
    }

    constructor ()
      ensures Valid() && Contents() == [] && fresh(items)
    {
      items := new Task?[16](_ => null);
      n := 0;
    }

    /** Appends, doubling the capacity when it is used up. */
    method Append(t: Task)
      requires Valid()
      modifies this, items
      ensures Valid() && Contents() == old(Contents()) + [t]
      ensures items == old(items) || fresh(items)
    {
      if n >= items.Length {
        items := Enlarged(items);
      }
      items[n] := t;
      n := n + 1;
    }

    /** realloc to twice the length */
    static method Enlarged(a: array<Task?>) returns (b: array<Task?>)
      ensures fresh(b) && b.Length == 2 * a.Length && b[..a.Length] == a[..]
    {
      b := new Task?[2 * a.Length](_ => null);
      for k := 0 to a.Length
        invariant b[..k] == a[..k]
      {
        b[k] := a[k];
      }
    }

    method Take() returns (r: seq<Task>)
      requires Valid()
      ensures r == Contents()
    {
      r := items[..n];
    }

    method Has(t: Task) returns (r: bool)
      requires Valid()
      ensures r <==> t in Contents()
    {
      for i := 0 to n
        invariant forall k :: 0 <= k < i ==> items[k] != t
      {
        if items[i] == t {
          assert Contents()[i] == t;
          return true;
        }
      }
      return false;
    }
  }

  // ---- The search, on positions ---------------------------------------------------------------------

  function DeclNames(decls: seq<TaskDecl>): (r: seq<string>)
    ensures |r| == |decls| && forall i :: 0 <= i < |decls| ==> r[i] == decls[i].name
  {
    seq(|decls|, i requires 0 <= i < |decls| => decls[i].name)
  }

  /** The dependencies of declared tasks by position; a name stands for its first bearer. */
  function DeclGraph(decls: seq<TaskDecl>): (g: Graph)
    ensures g.Size() == |decls|
    ensures forall i :: 0 <= i < |decls| ==> g.deps[i] == Resolve(DeclNames(decls), decls[i].deps)
  {
    Graph(seq(|decls|, i requires 0 <= i < |decls| => Resolve(DeclNames(decls), decls[i].deps)), [])
  }

  /** The same of a list of task objects, as find_task sees it. */
  function DepGraph(list: seq<Task>): (g: Graph)
    ensures g.Size() == |list|
    ensures forall i :: 0 <= i < |list| ==> g.deps[i] == Resolve(Names(list), list[i].decl.deps)
  {
    assert DeclNames(Decls(list)) == Names(list);
    DeclGraph(Decls(list))
  }

  /** collect_dfs within a recursion depth: dependencies first, then i, unless it is there already. */
  function Dfs(g: Graph, i: nat, ps: seq<nat>, depth: nat): Option<seq<nat>>
    decreases depth, 0
  {
    if i in ps || i >= g.Size() then Some(ps)
    else if depth == 0 then None
    else
      match DfsAll(g, g.deps[i], ps, depth - 1)
      case None => None
      case Some(now) => Some(now + [i])
  }

  function DfsAll(g: Graph, ds: seq<nat>, ps: seq<nat>, depth: nat): Option<seq<nat>>
    decreases depth, |ds| + 1
  {
    if ds == [] then Some(ps)
    else
      match Dfs(g, ds[0], ps, depth)
      case None => None
      case Some(now) => DfsAll(g, ds[1..], now, depth)
  }

  ghost predicate DepsInRange(g: Graph) {
    forall i, d :: 0 <= i < g.Size() && d in g.deps[i] ==> d < g.Size()
  }

  /** ps are positions collected so far: each once, dependencies first. */
  ghost predicate Collected(g: Graph, ps: seq<nat>) {
    && (forall k :: 0 <= k < |ps| ==> ps[k] < g.Size())
    && NoDup(ps) && DepsEarlier(g, ps)
  }

  ghost predicate NeededFrom(g: Graph, roots: seq<nat>, x: nat) {
    exists r :: r in roots && Reaches(g, r, x)
  }

  /** What visiting ds adds: ds themselves, and otherwise only what they reach. */
  ghost predicate Gathered(g: Graph, ds: seq<nat>, ps: seq<nat>, ps': seq<nat>) {
    && ps <= ps' && Collected(g, ps')
    && (forall d :: d in ds ==> d in ps')
    && (forall x {:trigger NeededFrom(g, ds, x)} :: x in ps' && x !in ps ==> NeededFrom(g, ds, x))
  }

  ghost predicate NoCycleFrom(g: Graph, ds: seq<nat>) {
    forall d :: d in ds ==> d < g.Size() && !CycleFrom(g, d)
  }

  lemma GatherCons(g: Graph, ds: seq<nat>, ps: seq<nat>, now: seq<nat>, ps': seq<nat>)
    requires ds != [] && Gathered(g, [ds[0]], ps, now) && Gathered(g, ds[1..], now, ps')
    ensures Gathered(g, ds, ps, ps')
  {
    forall d | d in ds
      ensures d in ps'
    {
      if d == ds[0] { assert d in now; } else { assert d in ds[1..]; }
    }
    forall x | x in ps' && x !in ps
      ensures NeededFrom(g, ds, x)
    {
      if x in now {
        assert NeededFrom(g, [ds[0]], x);
        assert Reaches(g, ds[0], x) && ds[0] in ds;
      } else {
        assert NeededFrom(g, ds[1..], x);
        var r :| r in ds[1..] && Reaches(g, r, x);
        assert r in ds;
      }
    }
  }

  /** The task itself goes behind its dependencies; it was not among what they reach. */
  lemma GatherSelf(g: Graph, i: nat, ps: seq<nat>, now: seq<nat>)
    requires i < g.Size() && i !in ps && !CycleFrom(g, i) && Gathered(g, g.deps[i], ps, now)
    ensures Gathered(g, [i], ps, now + [i])
  {
    var ps' := now + [i];
    forall x | x in now && x !in ps
      ensures Reaches(g, i, x) && x != i
    {
      assert NeededFrom(g, g.deps[i], x);
      var d :| d in g.deps[i] && Reaches(g, d, x);
      ReachesThrough(g, i, d, x);
    }
    ReachesSelf(g, i);
    assert i !in now;
    forall x | x in ps' && x !in ps
      ensures NeededFrom(g, [i], x)
    {
      assert i in [i] && Reaches(g, i, x);
    }
    forall a, d | 0 <= a < |ps'| && ps'[a] < g.Size() && d in g.deps[ps'[a]]
      ensures d in ps'[..a]
    {
      if a < |now| {
        assert ps'[..a] == now[..a];
      } else {
        assert ps'[..a] == now;
      }
    }
  }

  lemma GatherNone(g: Graph, i: nat, ps: seq<nat>)
    requires Collected(g, ps) && i in ps
    ensures Gathered(g, [i], ps, ps)
  {}

  /** Where no cycle is reached, what the search returns is right. */
  lemma {:induction false} DfsSound(g: Graph, i: nat, ps: seq<nat>, depth: nat)
    requires DepsInRange(g) && i < g.Size() && Collected(g, ps) && !CycleFrom(g, i)
    requires Dfs(g, i, ps, depth).Some?
    ensures Gathered(g, [i], ps, Dfs(g, i, ps, depth).value)
    decreases depth, 0
  {
    hide Collected, CycleFrom, Gathered;
    if i in ps {
      GatherNone(g, i, ps);
    } else {
      CycleThrough(g, i);
      DfsAllSound(g, g.deps[i], ps, depth - 1);
      GatherSelf(g, i, ps, DfsAll(g, g.deps[i], ps, depth - 1).value);
    }
  }

  lemma {:induction false} DfsAllSound(g: Graph, ds: seq<nat>, ps: seq<nat>, depth: nat)
    requires DepsInRange(g) && Collected(g, ps) && NoCycleFrom(g, ds)
    requires DfsAll(g, ds, ps, depth).Some?
    ensures Gathered(g, ds, ps, DfsAll(g, ds, ps, depth).value)
    decreases depth, |ds| + 1
  {
    hide Collected, CycleFrom, Gathered;
    if ds == [] {
      GatherEmpty(g, ps);
    } else {
      assert ds[0] in ds && forall d :: d in ds[1..] ==> d in ds;
      DfsSound(g, ds[0], ps, depth);
      var now := Dfs(g, ds[0], ps, depth).value;
      GatheredCollected(g, [ds[0]], ps, now);
      DfsAllSound(g, ds[1..], now, depth);
      GatherCons(g, ds, ps, now, DfsAll(g, ds[1..], now, depth).value);
    }
  }

  lemma GatherEmpty(g: Graph, ps: seq<nat>)
    requires Collected(g, ps)
    ensures Gathered(g, [], ps, ps)
  {}

  lemma GatheredCollected(g: Graph, ds: seq<nat>, ps: seq<nat>, ps': seq<nat>)
    requires Gathered(g, ds, ps, ps')
    ensures Collected(g, ps')
  {}

  // ---- Termination ------------------------------------------------------------------------------------

  /** Without a reachable cycle the depth of the list is enough. */
  lemma {:induction false} DfsEnough(g: Graph, path: seq<nat>, ps: seq<nat>, depth: nat)
    requires DepsInRange(g) && IsPath(g, path) && !CycleFrom(g, path[0])
    requires depth + |path| == g.Size() + 1
    ensures Dfs(g, path[|path| - 1], ps, depth).Some?
    decreases depth, 0
  {
    hide CycleFrom;
    PathIsShort(g, path);
    var i := path[|path| - 1];
    if i !in ps {
      DfsAllEnough(g, path, g.deps[i], ps, depth - 1);
    }
  }

  lemma {:induction false} DfsAllEnough(g: Graph, path: seq<nat>, ds: seq<nat>, ps: seq<nat>, depth: nat)
    requires DepsInRange(g) && IsPath(g, path) && !CycleFrom(g, path[0])
    requires depth + |path| == g.Size() && forall d :: d in ds ==> d in g.deps[path[|path| - 1]]
    ensures DfsAll(g, ds, ps, depth).Some?
    decreases depth, |ds| + 1
  {
    hide CycleFrom;
    if ds != [] {
      assert ds[0] in ds && forall d :: d in ds[1..] ==> d in ds;
      PathGrows(g, path, ds[0]);
      DfsEnough(g, path + [ds[0]], ps, depth);
      DfsAllEnough(g, path, ds[1..], Dfs(g, ds[0], ps, depth).value, depth);
    }
  }

  /** Positions listed after their dependencies reach no cycle. */
  lemma {:induction false} CollectedNoCycle(g: Graph, ps: seq<nat>, k: nat)
    requires DepsInRange(g) && Collected(g, ps) && k < |ps|
    ensures !CycleFrom(g, ps[k])
  {
    CycleThrough(g, ps[k]);
    forall d | d in g.deps[ps[k]]
      ensures !CycleFrom(g, d)
    {
      assert d in ps[..k];
      var a :| 0 <= a < k && ps[a] == d;
      CollectedNoCycle(g, ps, a);
    }
  }

  /** With a reachable cycle no depth is enough: the recursion never ends. */
  lemma {:induction false} DfsEndless(g: Graph, i: nat, ps: seq<nat>, depth: nat)
    requires DepsInRange(g) && i < g.Size() && Collected(g, ps) && CycleFrom(g, i)
    ensures Dfs(g, i, ps, depth).None?
    decreases depth, 0
  {
    if i in ps {
      var k :| 0 <= k < |ps| && ps[k] == i;
      CollectedNoCycle(g, ps, k);
      assert false;
    }
    if depth > 0 {
      CycleThrough(g, i);
      DfsAllEndless(g, g.deps[i], ps, depth - 1);
    }
  }

  lemma {:induction false} DfsAllEndless(g: Graph, ds: seq<nat>, ps: seq<nat>, depth: nat)
    requires DepsInRange(g) && Collected(g, ps) && (forall d :: d in ds ==> d < g.Size())
    requires exists d :: d in ds && CycleFrom(g, d)
    ensures DfsAll(g, ds, ps, depth).None?
    decreases depth, |ds| + 1
  {
    hide Collected, Gathered;
    assert ds[0] in ds && forall d :: d in ds <==> d == ds[0] || d in ds[1..];
    if CycleFrom(g, ds[0]) {
      DfsEndless(g, ds[0], ps, depth);
    } else if Dfs(g, ds[0], ps, depth).Some? {
      DfsSound(g, ds[0], ps, depth);
      var now := Dfs(g, ds[0], ps, depth).value;
      GatheredCollected(g, [ds[0]], ps, now);
      DfsAllEndless(g, ds[1..], now, depth);
    }
  }

  /** The collection ends exactly when no cycle can be reached from where it starts. */
  lemma CollectEndsIff(g: Graph, roots: seq<nat>)
    requires DepsInRange(g) && forall r :: r in roots ==> r < g.Size()
    ensures (exists depth :: DfsAll(g, roots, [], depth).Some?) <==> NoCycleFrom(g, roots)
    ensures NoCycleFrom(g, roots) ==> DfsAll(g, roots, [], g.Size()).Some?
  {
    if NoCycleFrom(g, roots) {
      RootsEnough(g, roots, []);
    } else {
      forall depth: nat
        ensures DfsAll(g, roots, [], depth).None?
      {
        DfsAllEndless(g, roots, [], depth);
      }
    }
  }

  lemma {:induction false} RootsEnough(g: Graph, roots: seq<nat>, ps: seq<nat>)
    requires DepsInRange(g) && NoCycleFrom(g, roots)
    ensures DfsAll(g, roots, ps, g.Size()).Some?
    decreases |roots|
  {
    if roots != [] {
      assert roots[0] in roots && forall d :: d in roots[1..] ==> d in roots;
      assert IsPath(g, [roots[0]]);
      DfsEnough(g, [roots[0]], ps, g.Size());
      RootsEnough(g, roots[1..], Dfs(g, roots[0], ps, g.Size()).value);
    }
  }

  /** And then it is the closure of its roots, each position once, dependencies first. */
  lemma CollectIsClosure(g: Graph, roots: seq<nat>) returns (ps: seq<nat>)
    requires DepsInRange(g) && NoCycleFrom(g, roots)
    ensures DfsAll(g, roots, [], g.Size()) == Some(ps) && Collected(g, ps)
    ensures forall x: nat :: x in ps <==> NeededFrom(g, roots, x)
  {
    RootsEnough(g, roots, []);
    ps := DfsAll(g, roots, [], g.Size()).value;
    DfsAllSound(g, roots, [], g.Size());
    forall x: nat | NeededFrom(g, roots, x)
      ensures x in ps
    {
      GatheredIsClosed(g, roots, ps, x);
    }
  }

  lemma GatheredIsClosed(g: Graph, roots: seq<nat>, ps: seq<nat>, x: nat)
    requires Gathered(g, roots, [], ps) && NeededFrom(g, roots, x)
    ensures x in ps
  {
    var r :| r in roots && Reaches(g, r, x);
    var p :| IsPath(g, p) && p[0] == r && p[|p| - 1] == x;
    forall i, d | i in ps && i < g.Size() && d in g.deps[i]
      ensures d in ps
    {
      var a :| 0 <= a < |ps| && ps[a] == i;
      assert d in ps[..a];
    }
    ClosedUnderPaths(g, ps, p);
  }

  // ---- The order of a collection --------------------------------------------------------------------

  /** The elements of s that are not in ps, in order. */
  function Minus(s: seq<nat>, ps: seq<nat>): seq<nat> {
    if s == [] then []
    else Minus(s[..|s| - 1], ps) + if s[|s| - 1] in ps then [] else [s[|s| - 1]]
  }

  lemma {:induction false} MinusMore(s: seq<nat>, more: seq<nat>, ps: seq<nat>)
    requires forall x :: x in more ==> x in ps
    ensures Minus(s + more, ps) == Minus(s, ps)
    decreases |more|
  {
    if more == [] {
      assert s + more == s;
    } else {
      var init, x := more[..|more| - 1], more[|more| - 1];
      assert x in more && forall y :: y in init ==> y in more;
      assert (s + more)[..|s + more| - 1] == s + init;
      MinusMore(s, init, ps);
    }
  }

  lemma MinusSnoc(s: seq<nat>, x: nat, ps: seq<nat>)
    ensures Minus(s + [x], ps) == Minus(s, ps) + if x in ps then [] else [x]
  {
    assert (s + [x])[..|s|] == s;
  }

  lemma {:induction false} MinusMembers(s: seq<nat>, ps: seq<nat>)
    ensures forall x :: x in Minus(s, ps) <==> x in s && x !in ps
  {
    if s != [] {
      MinusMembers(s[..|s| - 1], ps);
      assert s == s[..|s| - 1] + [s[|s| - 1]];
    }
  }

  lemma {:induction false} DfsGrows(g: Graph, i: nat, ps: seq<nat>, depth: nat)
    requires Dfs(g, i, ps, depth).Some?
    ensures ps <= Dfs(g, i, ps, depth).value
    decreases depth, 0
  {
    if i !in ps && i < g.Size() { DfsAllGrows(g, g.deps[i], ps, depth - 1); }
  }

  lemma {:induction false} DfsAllGrows(g: Graph, ds: seq<nat>, ps: seq<nat>, depth: nat)
    requires DfsAll(g, ds, ps, depth).Some?
    ensures ps <= DfsAll(g, ds, ps, depth).value
    decreases depth, |ds| + 1
  {
    if ds != [] {
      DfsGrows(g, ds[0], ps, depth);
      DfsAllGrows(g, ds[1..], Dfs(g, ds[0], ps, depth).value, depth);
    }
  }

  ghost predicate Closed(g: Graph, s: seq<nat>) {
    forall i, d :: i in s && i < g.Size() && d in g.deps[i] ==> d in s
  }

  /** A visit inside a closed list stays there. */
  lemma {:induction false} DfsStays(g: Graph, s: seq<nat>, i: nat, b: seq<nat>, depth: nat)
    requires Closed(g, s) && i in s && Dfs(g, i, b, depth).Some?
    ensures forall x :: x in Dfs(g, i, b, depth).value ==> x in b || x in s
    decreases depth, 0
  {
    if i !in b && i < g.Size() { DfsAllStays(g, s, g.deps[i], b, depth - 1); }
  }

  lemma {:induction false} DfsAllStays(g: Graph, s: seq<nat>, ds: seq<nat>, b: seq<nat>, depth: nat)
    requires Closed(g, s) && (forall d :: d in ds ==> d in s) && DfsAll(g, ds, b, depth).Some?
    ensures forall x :: x in DfsAll(g, ds, b, depth).value ==> x in b || x in s
    decreases depth, |ds| + 1
  {
    if ds != [] {
      assert ds[0] in ds && forall d :: d in ds[1..] ==> d in ds;
      DfsStays(g, s, ds[0], b, depth);
      DfsAllStays(g, s, ds[1..], Dfs(g, ds[0], b, depth).value, depth);
    }
  }

  /** What b holds, behind ps and without what is there. */
  function Appended(ps: seq<nat>, b: seq<nat>): seq<nat> {
    ps + Minus(b, ps)
  }

  lemma AppendedMembers(ps: seq<nat>, b: seq<nat>)
    ensures forall x :: x in Appended(ps, b) <==> x in ps || x in b
  {
    MinusMembers(b, ps);
  }

  lemma AppendedStays(ps: seq<nat>, b: seq<nat>, b': seq<nat>)
    requires b <= b' && forall x :: x in b' ==> x in b || x in ps
    requires NoDup(b')
    ensures Appended(ps, b') == Appended(ps, b)
  {
    var more := b'[|b|..];
    assert b' == b + more;
    forall x | x in more
      ensures x in ps
    {
      var k :| 0 <= k < |more| && more[k] == x;
      assert b'[|b| + k] == x && x in b';
      assert forall a :: 0 <= a < |b| ==> b[a] == b'[a];
    }
    MinusMore(b, more, ps);
  }

  /** A visit that starts behind a closed list adds what it adds from b, without what the list holds. */
  lemma {:induction false} DfsJoin(g: Graph, ps: seq<nat>, i: nat, b: seq<nat>, depth: nat)
    requires DepsInRange(g) && Closed(g, ps) && i < g.Size() && Collected(g, b) && !CycleFrom(g, i)
    requires Dfs(g, i, b, depth).Some?
    ensures Dfs(g, i, Appended(ps, b), depth) == Some(Appended(ps, Dfs(g, i, b, depth).value))
    decreases depth, 0
  {
    hide Collected, CycleFrom, Closed, Appended;
    AppendedMembers(ps, b);
    if i in b {
    } else if i in ps {
      var b' := Dfs(g, i, b, depth).value;
      DfsStays(g, ps, i, b, depth);
      DfsGrows(g, i, b, depth);
      DfsSound(g, i, b, depth);
      GatheredCollected(g, [i], b, b');
      CollectedOnce(g, b');
      AppendedStays(ps, b, b');
    } else {
      CycleThrough(g, i);
      DfsAllJoin(g, ps, g.deps[i], b, depth - 1);
      AppendedSnoc(ps, DfsAll(g, g.deps[i], b, depth - 1).value, i);
    }
  }

  lemma CollectedOnce(g: Graph, b: seq<nat>)
    requires Collected(g, b)
    ensures NoDup(b)
  {}

  lemma AppendedSnoc(ps: seq<nat>, b: seq<nat>, i: nat)
    requires i !in ps
    ensures Appended(ps, b + [i]) == Appended(ps, b) + [i]
  {
    MinusSnoc(b, i, ps);
  }

  lemma {:induction false} DfsAllJoin(g: Graph, ps: seq<nat>, ds: seq<nat>, b: seq<nat>, depth: nat)
    requires DepsInRange(g) && Closed(g, ps) && Collected(g, b) && NoCycleFrom(g, ds)
    requires DfsAll(g, ds, b, depth).Some?
    ensures DfsAll(g, ds, Appended(ps, b), depth) == Some(Appended(ps, DfsAll(g, ds, b, depth).value))
    decreases depth, |ds| + 1
  {
    hide Collected, CycleFrom, Closed, Appended;
    if ds != [] {
      assert ds[0] in ds && forall d :: d in ds[1..] ==> d in ds;
      var now := Dfs(g, ds[0], b, depth).value;
      DfsJoin(g, ps, ds[0], b, depth);
      DfsSound(g, ds[0], b, depth);
      GatheredCollected(g, [ds[0]], b, now);
      DfsAllJoin(g, ps, ds[1..], now, depth);
    }
  }

  lemma {:induction false} DfsAllConcat(g: Graph, xs: seq<nat>, ys: seq<nat>, ps: seq<nat>, depth: nat)
    requires DfsAll(g, xs, ps, depth).Some?
    ensures DfsAll(g, xs + ys, ps, depth) == DfsAll(g, ys, DfsAll(g, xs, ps, depth).value, depth)
    decreases |xs|
  {
    if xs == [] {
      assert xs + ys == ys;
    } else {
      assert (xs + ys)[0] == xs[0] && (xs + ys)[1..] == xs[1..] + ys;
      DfsAllConcat(g, xs[1..], ys, Dfs(g, xs[0], ps, depth).value, depth);
    }
  }

  /** More depth changes nothing. */
  lemma {:induction false} DfsDeeper(g: Graph, i: nat, ps: seq<nat>, depth: nat)
    requires Dfs(g, i, ps, depth).Some?
    ensures Dfs(g, i, ps, depth + 1) == Dfs(g, i, ps, depth)
    decreases depth, 0
  {
    if i !in ps && i < g.Size() { DfsAllDeeper(g, g.deps[i], ps, depth - 1); }
  }

  lemma {:induction false} DfsAllDeeper(g: Graph, ds: seq<nat>, ps: seq<nat>, depth: nat)
    requires DfsAll(g, ds, ps, depth).Some?
    ensures DfsAll(g, ds, ps, depth + 1) == DfsAll(g, ds, ps, depth)
    decreases depth, |ds| + 1
  {
    if ds != [] {
      DfsDeeper(g, ds[0], ps, depth);
      DfsAllDeeper(g, ds[1..], Dfs(g, ds[0], ps, depth).value, depth);
    }
  }

  /** What starting from the roots collects. */
  ghost predicate Collects(g: Graph, roots: seq<nat>, ps: seq<nat>) {
    DfsAll(g, roots, [], g.Size()) == Some(ps)
  }

  lemma CollectedIsClosed(g: Graph, ps: seq<nat>)
    requires Collected(g, ps)
    ensures Closed(g, ps)
  {
    forall i, d | i in ps && i < g.Size() && d in g.deps[i]
      ensures d in ps
    {
      var a :| 0 <= a < |ps| && ps[a] == i;
      assert d in ps[..a];
    }
  }

  lemma NothingCollected(g: Graph, ps: seq<nat>)
    ensures Collected(g, []) && Appended(ps, []) == ps
  {}

  /** Roots are served in order: those of ys add, behind what xs need, what they need themselves and is not
      there yet, in their own order. */
  lemma CollectInOrder(g: Graph, xs: seq<nat>, ys: seq<nat>, ps: seq<nat>, qs: seq<nat>)
    requires DepsInRange(g) && NoCycleFrom(g, xs) && NoCycleFrom(g, ys) && Collects(g, xs, ps) && Collects(g, ys, qs)
    ensures Collects(g, xs + ys, ps + Minus(qs, ps))
  {
    hide Collected, CycleFrom, DfsAll, Dfs;
    var ps' := CollectIsClosure(g, xs);
    DfsAllConcat(g, xs, ys, [], g.Size());
    CollectedIsClosed(g, ps);
    NothingCollected(g, ps);
    DfsAllJoin(g, ps, ys, [], g.Size());
  }

  /** A task comes directly behind what its dependencies need, in the order they are declared. */
  lemma CollectOne(g: Graph, i: nat, ps: seq<nat>)
    requires DepsInRange(g) && i < g.Size() && NoCycleFrom(g, [i]) && Collects(g, g.deps[i], ps)
    ensures Collects(g, [i], ps + [i])
  {
    hide CycleFrom;
    var n := g.Size();
    assert i in [i] && IsPath(g, [i]);
    RootsEnough(g, [i], []);
    var all := DfsAll(g, [i], [], n).value;
    assert [i][1..] == [];
    assert DfsAll(g, [i], [], n) == Dfs(g, i, [], n);
    DfsAllDeeper(g, g.deps[i], [], n - 1);
  }

  // ---- The search on the tasks ----------------------------------------------------------------------

  /** The buffer holds the tasks at ps. */
  ghost predicate Holds(list: seq<Task>, out: TaskBuffer, ps: seq<nat>)
    reads out, out.items
  {
    && out.Valid() && |ps| == out.n
    && (forall k :: 0 <= k < |ps| ==> ps[k] < |list| && out.items[k] == list[ps[k]])
  }

  lemma HoldsTask(list: seq<Task>, out: TaskBuffer, ps: seq<nat>, i: nat)
    requires NoDup(list) && i < |list| && Holds(list, out, ps)
    ensures list[i] in out.Contents() <==> i in ps
  {}

  lemma PathInside(g: Graph, path: seq<nat>)
    requires IsPath(g, path)
    ensures |path| > 0 && path[|path| - 1] < g.Size()
  {}

  /** collect_dfs. The path from a root to the task bounds the recursion. */
  method CollectDfs(t: Task, out: TaskBuffer, list: seq<Task>, ghost path: seq<nat>, ghost ps: seq<nat>)
    returns (ghost ps': seq<nat>)
    requires NoDup(list) && IsPath(DepGraph(list), path) && !CycleFrom(DepGraph(list), path[0])
    requires t == list[path[|path| - 1]] && Holds(list, out, ps)
    modifies out, out.items
    ensures Holds(list, out, ps') && |path| <= |list|
    ensures Dfs(DepGraph(list), path[|path| - 1], ps, |list| + 1 - |path|) == Some(ps')
    ensures out.items == old(out.items) || fresh(out.items)
    decreases |list| - |path|
  {
    hide CycleFrom, NoDup, Resolve, DepGraph, IsPath, FindIndex;
    ghost var g := DepGraph(list);
    PathInside(g, path);
    ghost var i := path[|path| - 1];
    PathIsShort(g, path);
    ghost var depth: nat := |list| - |path|;
    HoldsTask(list, out, ps, i);
    var seen := out.Has(t);
    if seen {
      return ps;
    }
    ps' := ps;
    var deps := t.decl.deps;
    ghost var goal := DfsAll(g, g.deps[i], ps, depth);
    ResolveNone(Names(list), deps);
    ghost var k := 0;
    for j := 0 to |deps|
      invariant Holds(list, out, ps')
      invariant k == |Resolve(Names(list), deps[..j])| && k <= |g.deps[i]|
      invariant DfsAll(g, g.deps[i][k..], ps', depth) == goal
      invariant out.items == old(out.items) || fresh(out.items)
    {
      var index := FindTask(list, deps[j]);
      ResolveStep(Names(list), deps, j);
      if index >= 0 {
        assert g.deps[i][k] == index;
        PathGrows(g, path, index);
        PathIsShort(g, path + [index as nat]);
        assert g.deps[i][k..][1..] == g.deps[i][k + 1..];
        ps' := CollectDfs(list[index], out, list, path + [index as nat], ps');
        k := k + 1;
      }
    }
    assert deps[..|deps|] == deps;
    assert goal == Some(ps');
    out.Append(t);
    ps' := ps' + [i];
  }

  lemma ResolveNone(names: seq<string>, xs: seq<string>)
    ensures Resolve(names, xs[..0]) == []
  {}

  /** Where the j-th name stands in the resolved list. */
  lemma ResolveStep(names: seq<string>, xs: seq<string>, j: nat)
    requires j < |xs|
    ensures var k, index := |Resolve(names, xs[..j])|, FindIndex(names, xs[j]);
            && |Resolve(names, xs[..j + 1])| == (if index < 0 then k else k + 1)
            && (if index < 0 then k <= |Resolve(names, xs)| else k < |Resolve(names, xs)| && Resolve(names, xs)[k] == index)
  {
    assert xs[..j + 1] == xs[..j] + [xs[j]];
    ResolveAppend(names, xs[..j], xs[j]);
    assert xs == xs[..j + 1] + xs[j + 1..];
    ResolveConcat(names, xs[..j + 1], xs[j + 1..]);
  }

  lemma {:induction false} ResolveConcat(names: seq<string>, xs: seq<string>, ys: seq<string>)
    ensures Resolve(names, xs + ys) == Resolve(names, xs) + Resolve(names, ys)
  {
    if xs == [] {
      assert xs + ys == ys;
    } else {
      hide FindIndex;
      var all := xs + ys;
      assert all[0] == xs[0] && all[1..] == xs[1..] + ys;
      ResolveConcat(names, xs[1..], ys);
      var i := FindIndex(names, xs[0]);
      var first: seq<nat> := if i < 0 then [] else [i as nat];
      assert Resolve(names, all) == first + Resolve(names, all[1..]);
      assert first + (Resolve(names, xs[1..]) + Resolve(names, ys)) == (first + Resolve(names, xs[1..])) + Resolve(names, ys);
    }
  }

  // ---- The whole collection ------------------------------------------------------------------------

  function AllPositions(n: nat): (r: seq<nat>)
    ensures |r| == n && forall k :: 0 <= k < n ==> r[k] == k
  {
    seq(n, k requires 0 <= k < n => k)
  }

  /** The positions the collection starts from: the known targets, or everything. */
  function Roots(names: seq<string>, targets: seq<string>): (r: seq<nat>)
    ensures forall i :: i in r ==> i < |names|
  {
    if targets == [] then AllPositions(|names|) else Resolve(names, targets)
  }

  /** The positions collected for the targets, with the recursion as deep as the list is long. */
  function Needed(list: seq<Task>, targets: seq<string>): Option<seq<nat>> {
    DfsAll(DepGraph(list), Roots(Names(list), targets), [], |list|)
  }

  lemma {:induction false} DfsAllAppend(g: Graph, ds: seq<nat>, i: nat, ps: seq<nat>, depth: nat)
    requires DfsAll(g, ds, ps, depth).Some?
    ensures DfsAll(g, ds + [i], ps, depth) == Dfs(g, i, DfsAll(g, ds, ps, depth).value, depth)
    decreases |ds|
  {
    if ds == [] {
      assert ds + [i] == [i];
    } else {
      assert (ds + [i])[1..] == ds[1..] + [i];
      DfsAllAppend(g, ds[1..], i, Dfs(g, ds[0], ps, depth).value, depth);
    }
  }

  // ---- What is collected, in terms of names -----------------------------------------------------------

  /** Task i is the first of its name, the one find_task gives. */
  predicate FirstOfName(decls: seq<TaskDecl>, i: nat) {
    i < |decls| && forall j :: 0 <= j < i ==> decls[j].name != decls[i].name
  }

  /** Each task is named among the dependencies of the one before it. */
  predicate NameChain(decls: seq<TaskDecl>, p: seq<nat>) {
    && |p| > 0 && (forall k :: 0 <= k < |p| ==> FirstOfName(decls, p[k]))
    && forall k, l :: 0 <= k < |p| && 0 <= l < |p| && l == k + 1 ==> decls[p[l]].name in decls[p[k]].deps
  }

  /** A chain of names leads from a target to task x. */
  ghost predicate CalledFor(decls: seq<TaskDecl>, targets: seq<string>, x: nat) {
    exists p :: NameChain(decls, p) && decls[p[0]].name in targets && p[|p| - 1] == x
  }

  /** Named dependencies come first. */
  ghost predicate NamesEarlier(decls: seq<TaskDecl>, order: seq<nat>)
    requires forall k :: 0 <= k < |order| ==> order[k] < |decls|
  {
    forall k, i: nat :: 0 <= k < |order| && FirstOfName(decls, i) && decls[i].name in decls[order[k]].deps ==> i in order[..k]
  }

  /** order lists tasks, each once and behind all its dependencies: all of them when no target is named, and
      otherwise every known target, and nothing that no target calls for. */
  ghost predicate Serves(decls: seq<TaskDecl>, targets: seq<string>, order: seq<nat>) {
    && (forall k :: 0 <= k < |order| ==> order[k] < |decls|) && NoDup(order)
    && NamesEarlier(decls, order)
    && (targets == [] ==> forall x: nat :: x < |decls| ==> x in order)
    && (forall i: nat :: FirstOfName(decls, i) && decls[i].name in targets ==> i in order)
    && (targets != [] ==> forall x :: x in order ==> CalledFor(decls, targets, x))
  }

  lemma NamedIff(decls: seq<TaskDecl>, xs: seq<string>, x: nat)
    ensures x in Resolve(DeclNames(decls), xs) <==> FirstOfName(decls, x) && decls[x].name in xs
  {
    hide Resolve, DeclNames, FindIndex;
    var names := DeclNames(decls);
    if x in Resolve(names, xs) {
      ResolvedName(names, xs, x);
    }
    if FirstOfName(decls, x) && decls[x].name in xs {
      assert names[x] in names;
      NameResolved(names, xs, names[x]);
    }
  }

  lemma RootIff(decls: seq<TaskDecl>, targets: seq<string>, x: nat)
    requires targets != []
    ensures x in Roots(DeclNames(decls), targets) <==> FirstOfName(decls, x) && decls[x].name in targets
  {
    hide Resolve, FirstOfName;
    NamedIff(decls, targets, x);
  }

  lemma DepIff(decls: seq<TaskDecl>, d: nat, x: nat)
    requires d < |decls|
    ensures x in DeclGraph(decls).deps[d] <==> FirstOfName(decls, x) && decls[x].name in decls[d].deps
  {
    hide Resolve, FirstOfName;
    NamedIff(decls, decls[d].deps, x);
  }

  lemma PathFromFirst(decls: seq<TaskDecl>, p: seq<nat>)
    requires IsPath(DeclGraph(decls), p) && FirstOfName(decls, p[0])
    ensures NameChain(decls, p)
  {
    hide FirstOfName, DeclGraph;
    forall k | 0 <= k < |p|
      ensures FirstOfName(decls, p[k])
    {
      if k > 0 { DepIff(decls, p[k - 1], p[k]); }
    }
    forall k, l | 0 <= k < |p| && 0 <= l < |p| && l == k + 1
      ensures decls[p[l]].name in decls[p[k]].deps
    {
      DepIff(decls, p[k], p[l]);
    }
  }

  lemma ChainIsPath(decls: seq<TaskDecl>, p: seq<nat>)
    requires NameChain(decls, p)
    ensures IsPath(DeclGraph(decls), p)
  {
    hide DeclGraph;
    assert forall k :: 0 <= k < |p| ==> FirstOfName(decls, p[k]);
    forall k, l | 0 <= k < |p| && 0 <= l < |p| && l == k + 1
      ensures p[l] in DeclGraph(decls).deps[p[k]]
    {
      DepIff(decls, p[k], p[l]);
    }
  }

  lemma CalledForIff(decls: seq<TaskDecl>, targets: seq<string>, x: nat)
    requires targets != []
    ensures CalledFor(decls, targets, x) <==> NeededFrom(DeclGraph(decls), Roots(DeclNames(decls), targets), x)
  {
    hide DeclGraph, Roots;
    var g, roots := DeclGraph(decls), Roots(DeclNames(decls), targets);
    if CalledFor(decls, targets, x) {
      var p :| NameChain(decls, p) && decls[p[0]].name in targets && p[|p| - 1] == x;
      RootIff(decls, targets, p[0]);
      ChainIsPath(decls, p);
      assert Reaches(g, p[0], x);
    }
    if NeededFrom(g, roots, x) {
      var r :| r in roots && Reaches(g, r, x);
      var p :| IsPath(g, p) && p[0] == r && p[|p| - 1] == x;
      RootIff(decls, targets, r);
      PathFromFirst(decls, p);
    }
  }

  lemma DepsEarlierIff(decls: seq<TaskDecl>, order: seq<nat>)
    requires forall k :: 0 <= k < |order| ==> order[k] < |decls|
    ensures DepsEarlier(DeclGraph(decls), order) <==> NamesEarlier(decls, order)
  {
    hide DeclGraph;
    if DepsEarlier(DeclGraph(decls), order) {
      forall k, i: nat | 0 <= k < |order| && FirstOfName(decls, i) && decls[i].name in decls[order[k]].deps
        ensures i in order[..k]
      {
        DepIff(decls, order[k], i);
      }
    }
    if NamesEarlier(decls, order) {
      forall a, d | 0 <= a < |order| && d in DeclGraph(decls).deps[order[a]]
        ensures d in order[..a]
      {
        DepIff(decls, order[a], d);
      }
    }
  }

  /** A collection contains what its members reach. */
  lemma CollectionIsClosed(g: Graph, order: seq<nat>, r: nat, x: nat)
    requires Collected(g, order) && r in order && Reaches(g, r, x)
    ensures x in order
  {
    var p :| IsPath(g, p) && p[0] == r && p[|p| - 1] == x;
    forall i, d | i in order && i < g.Size() && d in g.deps[i]
      ensures d in order
    {
      var a :| 0 <= a < |order| && order[a] == i;
      assert d in order[..a];
    }
    ClosedUnderPaths(g, order, p);
  }

  lemma NeededSelf(decls: seq<TaskDecl>, roots: seq<nat>, x: nat)
    requires x in roots && x < |decls|
    ensures NeededFrom(DeclGraph(decls), roots, x)
  {
    ReachesSelf(DeclGraph(decls), x);
  }

  lemma ServesIsClosure(decls: seq<TaskDecl>, targets: seq<string>, order: seq<nat>, x: nat)
    requires Serves(decls, targets, order)
    ensures Collected(DeclGraph(decls), order)
    ensures x in order <==> NeededFrom(DeclGraph(decls), Roots(DeclNames(decls), targets), x)
  {
    hide DeclGraph, CalledFor, FirstOfName, Resolve;
    var g, roots := DeclGraph(decls), Roots(DeclNames(decls), targets);
    DepsEarlierIff(decls, order);
    if x in order {
      if targets == [] {
        assert roots[x] == x;
        NeededSelf(decls, roots, x);
      } else {
        CalledForIff(decls, targets, x);
      }
    }
    if NeededFrom(g, roots, x) {
      var r :| r in roots && Reaches(g, r, x);
      if targets != [] { RootIff(decls, targets, r); }
      CollectionIsClosed(g, order, r, x);
    }
  }

  lemma ClosureServes(decls: seq<TaskDecl>, targets: seq<string>, order: seq<nat>)
    requires Collected(DeclGraph(decls), order)
    requires forall x: nat :: x in order <==> NeededFrom(DeclGraph(decls), Roots(DeclNames(decls), targets), x)
    ensures Serves(decls, targets, order)
  {
    hide DeclGraph, CalledFor, Resolve, NeededFrom;
    var roots := Roots(DeclNames(decls), targets);
    DepsEarlierIff(decls, order);
    if targets == [] {
      forall x: nat | x < |decls|
        ensures x in order
      {
        assert roots[x] == x;
        NeededSelf(decls, roots, x);
      }
    } else {
      forall i: nat | FirstOfName(decls, i) && decls[i].name in targets
        ensures i in order
      {
        RootIff(decls, targets, i);
        NeededSelf(decls, roots, i);
      }
      forall x: nat | x in order
        ensures CalledFor(decls, targets, x)
      {
        CalledForIff(decls, targets, x);
      }
    }
  }

  /** The closure of the roots is exactly what serves the targets. */
  lemma ServesIff(decls: seq<TaskDecl>, targets: seq<string>, order: seq<nat>)
    ensures Serves(decls, targets, order) <==>
            Collected(DeclGraph(decls), order) &&
            forall x: nat :: x in order <==> NeededFrom(DeclGraph(decls), Roots(DeclNames(decls), targets), x)
  {
    hide *;
    if Serves(decls, targets, order) {
      ServesIsClosure(decls, targets, order, 0);
      forall x: nat
        ensures x in order <==> NeededFrom(DeclGraph(decls), Roots(DeclNames(decls), targets), x)
      {
        ServesIsClosure(decls, targets, order, x);
      }
    }
    if Collected(DeclGraph(decls), order) &&
       forall x: nat :: x in order <==> NeededFrom(DeclGraph(decls), Roots(DeclNames(decls), targets), x) {
      ClosureServes(decls, targets, order);
    }
  }

  /** One more root. */
  method Visit(list: seq<Task>, i: nat, out: TaskBuffer, ghost roots: seq<nat>, ghost ps: seq<nat>) returns (ghost ps': seq<nat>)
    requires NoDup(list) && i < |list| && !CycleFrom(DepGraph(list), i)
    requires Holds(list, out, ps) && DfsAll(DepGraph(list), roots, [], |list|) == Some(ps)
    modifies out, out.items
    ensures Holds(list, out, ps') && DfsAll(DepGraph(list), roots + [i], [], |list|) == Some(ps')
    ensures out.items == old(out.items) || fresh(out.items)
  {
    hide CycleFrom, NoDup, DfsAll;
    ps' := CollectDfs(list[i], out, list, [i], ps);
    DfsAllAppend(DepGraph(list), roots, i, [], |list|);
  }

  /** collect_needed_tasks, where no cycle can be reached: each task once, dependencies before their
      dependents, and exactly the tasks reachable from the known targets, or all when none is named. */
  method CollectNeeded(list: seq<Task>, targets: seq<string>) returns (needed: seq<Task>)
    requires NoDup(list) && NoCycleFrom(DepGraph(list), Roots(Names(list), targets))
    ensures Needed(list, targets).Some? && Collected(DepGraph(list), Needed(list, targets).value)
    ensures needed == Select(list, Needed(list, targets).value)
    ensures forall x: nat :: x in Needed(list, targets).value <==>
                             NeededFrom(DepGraph(list), Roots(Names(list), targets), x)
    ensures Serves(Decls(list), targets, Needed(list, targets).value)
  {
    hide NoDup, Serves, Collected, NeededFrom, Resolve, DepGraph, CycleFrom, DfsAll, Dfs;
    ghost var ps: seq<nat>;
    ghost var g := DepGraph(list);
    ghost var all := Roots(Names(list), targets);
    var out := new TaskBuffer();
    ghost var roots: seq<nat> := [];
    ps := [];
    NoRoots(g, |list|);
    if targets == [] {
      for i := 0 to |list|
        invariant fresh(out) && fresh(out.items)
        invariant Holds(list, out, ps) && roots == all[..i] && DfsAll(g, roots, [], |list|) == Some(ps)
      {
        assert all[i] in all;
        ps := Visit(list, i, out, roots, ps);
        roots := roots + [i];
      }
    } else {
      ResolveNone(Names(list), targets);
      for j := 0 to |targets|
        invariant fresh(out) && fresh(out.items)
        invariant Holds(list, out, ps) && roots == Resolve(Names(list), targets[..j])
        invariant DfsAll(g, roots, [], |list|) == Some(ps)
      {
        var index := FindTask(list, targets[j]);
        assert targets[..j + 1] == targets[..j] + [targets[j]];
        ResolveAppend(Names(list), targets[..j], targets[j]);
        ResolveStep(Names(list), targets, j);
        if index >= 0 {
          assert index as nat in all;
          ps := Visit(list, index, out, roots, ps);
          roots := roots + [index as nat];
        } else {
          assert roots + [] == roots;
        }
      }
      assert targets[..|targets|] == targets;
    }
    assert roots == all;
    InRange(list);
    ghost var closure := CollectIsClosure(g, all);
    CollectionServes(list, targets, closure);
    needed := out.Take();
  }

  lemma CollectionServes(list: seq<Task>, targets: seq<string>, ps: seq<nat>)
    requires Collected(DepGraph(list), ps)
    requires forall x: nat :: x in ps <==> NeededFrom(DepGraph(list), Roots(Names(list), targets), x)
    ensures Serves(Decls(list), targets, ps)
  {
    hide Collected, NeededFrom, Serves, Roots, DeclGraph;
    assert DeclNames(Decls(list)) == Names(list);
    ServesIff(Decls(list), targets, ps);
  }

  lemma NoRoots(g: Graph, depth: nat)
    ensures DfsAll(g, [], [], depth) == Some([])
  {}

  lemma InRange(list: seq<Task>)
    ensures DepsInRange(DepGraph(list))
  {}
}
