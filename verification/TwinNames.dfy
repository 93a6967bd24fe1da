/** A manifest without a cycle in which the sort reports one. */
module TwinNames {
  import opened Closure
  import opened Engine
  import opened Graphs
  import opened Manifest
  import opened Tasks
  import opened Text
  import TopoSort

  const FIRST := TaskDecl("a", None, [], [], [])
  const LAST := TaskDecl("b", None, [], [], ["a"])
  /** Two tasks of one name and one that depends on that name. */
  const TWINS := [FIRST, FIRST, LAST]
  const IN_ORDER: seq<nat> := [0, 1, 2]

  lemma TwinsPrintable()
    ensures forall t :: t in TWINS ==> Printable(t)
  {
    ShortIsPrintable(FIRST);
    ShortIsPrintable(LAST);
  }

  lemma ShortIsPrintable(t: TaskDecl)
    requires t == FIRST || t == LAST
    ensures Printable(t)
  {
    assert Readable(t);
    assert |Join(t.deps, ",")| <= 1 && Join(t.inputs, ",") == Join(t.outputs, ",") == "";
    hide Readable, Join;
    ReadableIsPrintable(t);
  }

  lemma TwinsGraph()
    ensures DeclGraph(TWINS).deps == [[], [], [0]]
  {
    assert DeclNames(TWINS) == ["a", "a", "b"];
    assert Resolve(["a", "a", "b"], ["a"]) == [0];
  }

  lemma TwinsCollected(g: Graph)
    requires g.deps == [[], [], [0]]
    ensures Collected(g, IN_ORDER) && DepsInRange(g)
  {
    assert IN_ORDER[..2][0] == 0;
  }

  lemma TwinsAmbiguous()
    ensures Ambiguous(TWINS, IN_ORDER)
  {
    assert TWINS[IN_ORDER[0]].name == TWINS[IN_ORDER[1]].name && TWINS[IN_ORDER[0]].name in TWINS[IN_ORDER[2]].deps;
    assert DependsOnTwo(TWINS, IN_ORDER, 2);
  }

  /** The sort reports a cycle where there is none: the manifest of these tasks has no cycle to reach, all
      three are a plan in the order given, and the collection is ambiguous, so the build ends with 1. */
  lemma FalseCycle()
    ensures Parse(Show(TWINS)) == TWINS
    ensures NoCycleFrom(DeclGraph(TWINS), Roots(DeclNames(TWINS), []))
    ensures IsPlan(TWINS, [], IN_ORDER) && Ambiguous(TWINS, IN_ORDER)
  {
    hide Parse, Show, DeclGraph, CycleFrom, Ambiguous;
    TwinsPrintable();
    ManifestRoundTrip(TWINS);
    TwinsGraph();
    var g := DeclGraph(TWINS);
    TwinsCollected(g);
    forall x: nat | x < 3
      ensures x in IN_ORDER && NeededFrom(g, Roots(DeclNames(TWINS), []), x) && !CycleFrom(g, x)
    {
      assert IN_ORDER[x] == x;
      ReachesSelf(g, x);
      assert x == AllPositions(3)[x];
      CollectedNoCycle(g, IN_ORDER, x);
    }
    TwinsAmbiguous();
  }

  /** On any task objects with these declarations topo_sort returns NULL, because the counted graph has a
      cycle, although the dependency graph has none. */
  lemma SortReportsCycle(list: seq<Task>)
    requires Decls(list) == TWINS
    ensures TopoSort.InList(list, IN_ORDER) && !Acyclic(TopoSort.CountedGraph(list, IN_ORDER))
    ensures Acyclic(DepGraph(list))
  {
    hide DeclGraph, TopoSort.CountedGraph, Ambiguous;
    TwinsGraph();
    TwinsAmbiguous();
    assert DeclNames(Decls(list)) == Names(list);
    TwinsCollected(DepGraph(list));
    SortSucceedsIff(list, IN_ORDER);
    forall i: nat | i < 3 ensures i in IN_ORDER { assert IN_ORDER[i] == i; }
    TwinsOrdered(DepGraph(list));
    OrderedIsAcyclic(DepGraph(list), IN_ORDER);
  }

  lemma TwinsOrdered(g: Graph)
    requires g.deps == [[], [], [0]]
    ensures Ordered(g, IN_ORDER)
  {}
}
