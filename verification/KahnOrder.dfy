/** The order Kahn's queue gives: the tasks without dependencies in subset order, then the others by the
    place of their last dependency, and among those of one last dependency in list order. */
module KahnOrder {
  import opened Graphs
  import opened ReverseEdges
  import opened Tasks

  /** The dependencies of x stand among the first n of q. */
  predicate DepsWithin(g: Graph, q: seq<nat>, x: nat, n: nat)
    requires x < g.Size() && n <= |q|
  {
    forall d :: d in g.deps[x] ==> d in q[..n]
  }

  /** Of the dependencies of x, the one at h is the last in q. */
  predicate LastDep(g: Graph, q: seq<nat>, x: nat, h: nat)
    requires x < g.Size()
  {
    h < |q| && q[h] in g.deps[x] && DepsWithin(g, q, x, h + 1)
  }

  predicate Inside(g: Graph, q: seq<nat>) {
    forall k :: 0 <= k < |q| ==> q[k] < g.Size()
  }

  /** ps gives each task its place in the list. */
  ghost predicate QueueOrder(g: Graph, ps: seq<nat>, q: seq<nat>)
    requires Inside(g, q) && g.Size() == |ps|
  {
    && (forall a, b :: 0 <= a < b < |q| && g.deps[q[b]] == [] ==> g.deps[q[a]] == [] && q[a] < q[b])
    && (forall a, b, ha: nat, hb: nat :: 0 <= a < b < |q| && LastDep(g, q, q[a], ha) && LastDep(g, q, q[b], hb) ==>
          ha < hb || (ha == hb && ps[q[a]] < ps[q[b]]))
  }

  // ---- The order is kept --------------------------------------------------------------------------

  lemma RootsInOrder(g: Graph, ps: seq<nat>, q: seq<nat>)
    requires Inside(g, q) && g.Size() == |ps|
    requires forall k :: 0 <= k < |q| ==> g.deps[q[k]] == []
    requires forall a, b :: 0 <= a < b < |q| ==> q[a] < q[b]
    ensures QueueOrder(g, ps, q)
  {}

  lemma SamePlace(q: seq<nat>, n: nat, k: nat)
    requires NoDup(q) && n <= |q| && k < |q| && q[k] in q[..n]
    ensures k < n
  {}

  /** In a longer queue a task's last dependency is where it was. */
  lemma LastDepStays(g: Graph, q: seq<nat>, added: seq<nat>, x: nat, h: nat, n: nat)
    requires NoDup(q + added) && x < g.Size() && n <= |q| && DepsWithin(g, q, x, n) && LastDep(g, q + added, x, h)
    ensures h < n && LastDep(g, q, x, h)
  {
    var q' := q + added;
    assert q'[..n] == q[..n];
    SamePlace(q', n, h);
    assert q'[..h + 1] == q[..h + 1];
  }

  lemma LastDepIs(g: Graph, q: seq<nat>, x: nat, h: nat, k: nat)
    requires NoDup(q) && x < g.Size() && LastDep(g, q, x, h) && LastDep(g, q, x, k)
    ensures h == k
  {
    SamePlace(q, k + 1, h);
    SamePlace(q, h + 1, k);
  }

  /** One turn of the loop: the tasks released by the one at h come behind all those queued before. */
  lemma OrderStep(g: Graph, ps: seq<nat>, q: seq<nat>, added: seq<nat>, h: nat)
    requires Inside(g, q + added) && g.Size() == |ps| && Inside(g, q) && QueueOrder(g, ps, q)
    requires NoDup(q + added) && h < |q|
    requires forall k :: 0 <= k < |q| ==> DepsWithin(g, q, q[k], h)
    requires forall k :: 0 <= k < |added| ==> added[k] < g.Size() && LastDep(g, q, added[k], h)
    requires forall a, b :: 0 <= a < b < |added| ==> ps[added[a]] < ps[added[b]]
    ensures QueueOrder(g, ps, q + added)
  {
    hide NoDup;
    var q' := q + added;
    assert forall k :: 0 <= k < |added| ==> q[h] in g.deps[added[k]];
    forall a, b | 0 <= a < b < |q'| && g.deps[q'[b]] == []
      ensures g.deps[q'[a]] == [] && q'[a] < q'[b]
    {
      if b < |q| { assert q'[a] == q[a] && q'[b] == q[b]; }
    }
    forall a, b, ha: nat, hb: nat | 0 <= a < b < |q'| && LastDep(g, q', q'[a], ha) && LastDep(g, q', q'[b], hb)
      ensures ha < hb || (ha == hb && ps[q'[a]] < ps[q'[b]])
    {
      OrderedPair(g, ps, q, added, h, a, b, ha, hb);
    }
  }

  lemma PlaceOfAdded(g: Graph, q: seq<nat>, added: seq<nat>, h: nat, x: nat, hx: nat)
    requires NoDup(q + added) && x < g.Size() && LastDep(g, q, x, h) && LastDep(g, q + added, x, hx)
    ensures hx == h
  {
    var q' := q + added;
    LastDepStays(g, q, added, x, hx, h + 1);
    assert q'[..|q|] == q;
    assert NoDup(q) by { assert forall k :: 0 <= k < |q| ==> q[k] == q'[k]; }
    LastDepIs(g, q, x, h, hx);
  }

  lemma OrderedPair(g: Graph, ps: seq<nat>, q: seq<nat>, added: seq<nat>, h: nat, a: nat, b: nat, ha: nat, hb: nat)
    requires Inside(g, q + added) && g.Size() == |ps| && Inside(g, q) && QueueOrder(g, ps, q)
    requires NoDup(q + added) && h < |q|
    requires forall k :: 0 <= k < |q| ==> DepsWithin(g, q, q[k], h)
    requires forall k :: 0 <= k < |added| ==> added[k] < g.Size() && LastDep(g, q, added[k], h)
    requires forall k, l :: 0 <= k < l < |added| ==> ps[added[k]] < ps[added[l]]
    requires a < b < |q + added|
    requires LastDep(g, q + added, (q + added)[a], ha) && LastDep(g, q + added, (q + added)[b], hb)
    ensures ha < hb || (ha == hb && ps[(q + added)[a]] < ps[(q + added)[b]])
  {
    hide NoDup, LastDep, DepsWithin;
    var q' := q + added;
    if a < |q| {
      LastDepStays(g, q, added, q[a], ha, h);
    } else {
      PlaceOfAdded(g, q, added, h, added[a - |q|], ha);
    }
    if b < |q| {
      LastDepStays(g, q, added, q[b], hb, h);
    } else {
      PlaceOfAdded(g, q, added, h, added[b - |q|], hb);
    }
  }

  // ---- The dependents come in list order ----------------------------------------------------------------

  predicate Ascending(s: seq<nat>) {
    forall a, b :: 0 <= a < b < |s| ==> s[a] <= s[b]
  }

  lemma {:induction false} DependentsAscend(names: seq<string>, deps: seq<seq<string>>, i: nat, k: nat)
    requires k <= |deps|
    ensures Ascending(DependentsOf(names, deps, i, k))
  {
    hide Occurrences;
    if k > 0 {
      DependentsAscend(names, deps, i, k - 1);
      var before, more := DependentsOf(names, deps, i, k - 1), Repeat(k - 1, Occurrences(names, deps[k - 1], i));
      assert forall a :: 0 <= a < |before| ==> before[a] in before;
      assert forall a :: 0 <= a < |more| ==> more[a] in more;
    }
  }

  /** The tasks at positions s come in list order. */
  predicate PlacesAscend(ps: seq<nat>, s: seq<nat>) {
    && (forall k :: 0 <= k < |s| ==> s[k] < |ps|)
    && forall a, b :: 0 <= a < b < |s| ==> ps[s[a]] <= ps[s[b]]
  }

  lemma PlacesCons(ps: seq<nat>, d: nat, s: seq<nat>)
    requires d < |ps| && PlacesAscend(ps, s) && forall k :: k in s ==> k < |ps| && ps[d] <= ps[k]
    ensures PlacesAscend(ps, [d] + s)
  {
    assert forall a :: 0 <= a < |s| ==> s[a] in s;
  }

  lemma {:induction false} ResolveAscends(ps: seq<nat>, links: seq<nat>)
    requires Ascending(links)
    ensures PlacesAscend(ps, Resolve(ps, links))
    ensures forall k :: k in Resolve(ps, links) ==> k < |ps| && ps[k] in links
    decreases |links|
  {
    hide FindIndex, PlacesAscend;
    if links == [] {
      NoPlaces(ps);
    } else {
      var rest, i := links[1..], FindIndex(ps, links[0]);
      ResolveAscends(ps, rest);
      var more := Resolve(ps, rest);
      assert forall x :: x in rest ==> x in links && links[0] <= x;
      if i >= 0 {
        assert Resolve(ps, links) == [i as nat] + more;
        PlacesCons(ps, i, more);
      } else {
        assert Resolve(ps, links) == [] + more == more;
      }
    }
  }

  lemma NoPlaces(ps: seq<nat>)
    ensures PlacesAscend(ps, [])
  {}

  lemma PlacesRest(ps: seq<nat>, s: seq<nat>)
    requires s != [] && PlacesAscend(ps, s)
    ensures s[0] < |ps| && PlacesAscend(ps, s[1..])
    ensures forall k :: k in s[1..] ==> k in s && k < |ps| && ps[s[0]] <= ps[k]
  {}

  /** What a release appends comes from the released tasks, in their order. */
  lemma {:induction false} ReleaseAscends(pending: seq<int>, q: seq<nat>, ds: seq<nat>, ps: seq<nat>) returns (added: seq<nat>)
    requires (forall d :: d in ds ==> d < |pending|) && PlacesAscend(ps, ds)
    ensures Release(pending, q, ds).1 == q + added
    ensures (forall k :: k in added ==> k in ds) && PlacesAscend(ps, added)
    decreases |ds|
  {
    hide PlacesAscend;
    if ds == [] {
      added := [];
      NoPlaces(ps);
    } else {
      var d, rest := ds[0], ds[1..];
      assert d in ds;
      PlacesRest(ps, ds);
      var p := pending[d := pending[d] - 1];
      if p[d] == 0 {
        var more := ReleaseAscends(p, q + [d], rest, ps);
        added := [d] + more;
        assert q + added == q + [d] + more;
        PlacesCons(ps, d, more);
      } else {
        added := ReleaseAscends(p, q, rest, ps);
      }
    }
  }

  lemma StrictlyAscending(ps: seq<nat>, s: seq<nat>)
    requires PlacesAscend(ps, s) && NoDup(s) && NoDup(ps)
    ensures forall a, b :: 0 <= a < b < |s| ==> ps[s[a]] < ps[s[b]]
  {}

  // ---- The order is the only one --------------------------------------------------------------------------

  lemma DepInside(g: Graph, x: nat, d: nat)
    requires g.Valid() && x < g.Size() && d in g.deps[x]
    ensures d < g.Size()
  {}

  lemma DepsBefore(g: Graph, q: seq<nat>, k: nat)
    requires g.Valid() && IsTopological(g, q) && k < |q|
    ensures q[k] < g.Size() && DepsWithin(g, q, q[k], k)
  {
    hide Graph.Valid, NoDup;
    forall d | d in g.deps[q[k]]
      ensures d in q[..k]
    {
      DepInside(g, q[k], d);
      assert d in q;
      var b :| 0 <= b < |q| && q[b] == d;
      assert q[..k][b] == d;
    }
  }

  lemma {:induction false} LastDepExists(g: Graph, p: seq<nat>, x: nat, n: nat) returns (h: nat)
    requires x < g.Size() && g.deps[x] != [] && n <= |p| && DepsWithin(g, p, x, n)
    ensures LastDep(g, p, x, h)
  {
    assert g.deps[x][0] in p[..n];
    if p[n - 1] in g.deps[x] {
      h := n - 1;
    } else {
      assert forall d :: d in p[..n] && d != p[n - 1] ==> d in p[..n - 1];
      h := LastDepExists(g, p, x, n - 1);
    }
  }

  /** Behind the tasks p, task x is queued before task y. */
  ghost predicate Precedes(g: Graph, ps: seq<nat>, p: seq<nat>, x: nat, y: nat)
    requires x < g.Size() && y < g.Size() && g.Size() == |ps|
  {
    && (g.deps[y] == [] ==> g.deps[x] == [] && x < y)
    && (forall hx: nat, hy: nat :: LastDep(g, p, x, hx) && LastDep(g, p, y, hy) ==> hx < hy || (hx == hy && ps[x] < ps[y]))
  }

  lemma LastDepInLonger(g: Graph, p: seq<nat>, q: seq<nat>, x: nat, h: nat)
    requires x < g.Size() && p <= q && LastDep(g, p, x, h)
    ensures LastDep(g, q, x, h)
  {
    assert q[..h + 1] == p[..h + 1];
  }

  lemma Ahead(g: Graph, ps: seq<nat>, q: seq<nat>, k: nat, b: nat)
    requires Inside(g, q) && g.Size() == |ps| && QueueOrder(g, ps, q) && k < b < |q|
    ensures Precedes(g, ps, q[..k], q[k], q[b])
  {
    hide LastDep;
    var p := q[..k];
    forall hx: nat, hy: nat | LastDep(g, p, q[k], hx) && LastDep(g, p, q[b], hy)
      ensures hx < hy || (hx == hy && ps[q[k]] < ps[q[b]])
    {
      LastDepInLonger(g, p, q, q[k], hx);
      LastDepInLonger(g, p, q, q[b], hy);
    }
  }

  lemma NotBoth(g: Graph, ps: seq<nat>, p: seq<nat>, x: nat, y: nat)
    requires x < g.Size() && y < g.Size() && g.Size() == |ps| && DepsWithin(g, p, x, |p|) && DepsWithin(g, p, y, |p|)
    ensures !(Precedes(g, ps, p, x, y) && Precedes(g, ps, p, y, x))
  {
    hide LastDep, DepsWithin;
    if g.deps[x] != [] && g.deps[y] != [] {
      var hx := LastDepExists(g, p, x, |p|);
      var hy := LastDepExists(g, p, y, |p|);
    }
  }

  lemma PlaceBehind(q: seq<nat>, q': seq<nat>, k: nat) returns (b: nat)
    requires k < |q| && k < |q'| && q[..k] == q'[..k] && NoDup(q') && q'[k] in q && q[k] != q'[k]
    ensures k < b < |q| && q[b] == q'[k]
  {
    assert forall c :: 0 <= c < k ==> q[c] == q[..k][c] == q'[..k][c] == q'[c];
    b :| b < |q| && q[b] == q'[k];
  }

  lemma PrefixWithin(g: Graph, q: seq<nat>, p: seq<nat>, x: nat)
    requires x < g.Size() && p <= q && DepsWithin(g, q, x, |p|)
    ensures DepsWithin(g, p, x, |p|)
  {
    assert q[..|p|] == p == p[..|p|];
  }

  /** Two queues that agree up to k agree on the next task. */
  lemma SameNext(g: Graph, ps: seq<nat>, q: seq<nat>, q': seq<nat>, k: nat)
    requires g.Valid() && g.Size() == |ps| && IsTopological(g, q) && IsTopological(g, q')
    requires QueueOrder(g, ps, q) && QueueOrder(g, ps, q') && k < |q| && k < |q'| && q[..k] == q'[..k]
    ensures q[k] == q'[k]
  {
    hide Precedes, QueueOrder, DepsWithin, Graph.Valid;
    if q[k] != q'[k] {
      var p := q[..k];
      var b := PlaceBehind(q, q', k);
      var b' := PlaceBehind(q', q, k);
      Ahead(g, ps, q, k, b);
      Ahead(g, ps, q', k, b');
      DepsBefore(g, q, k);
      DepsBefore(g, q', k);
      PrefixWithin(g, q, p, q[k]);
      PrefixWithin(g, q', p, q'[k]);
      NotBoth(g, ps, p, q[k], q'[k]);
    }
  }

  lemma {:induction false} SamePrefix(g: Graph, ps: seq<nat>, q: seq<nat>, q': seq<nat>, k: nat)
    requires g.Valid() && g.Size() == |ps| && IsTopological(g, q) && IsTopological(g, q')
    requires QueueOrder(g, ps, q) && QueueOrder(g, ps, q') && k <= |q| && k <= |q'|
    ensures q[..k] == q'[..k]
  {
    hide QueueOrder, IsTopological, Graph.Valid;
    if k > 0 {
      SamePrefix(g, ps, q, q', k - 1);
      SameNext(g, ps, q, q', k - 1);
      assert q[..k] == q[..k - 1] + [q[k - 1]] && q'[..k] == q'[..k - 1] + [q'[k - 1]];
    }
  }

  lemma AllPlaced(g: Graph, q: seq<nat>)
    requires IsTopological(g, q)
    ensures |q| == g.Size()
  {
    NoDupCard(q);
    assert Elements(q) == Nodes(g);
  }

  /** There is one such order of all tasks. */
  lemma OrderUnique(g: Graph, ps: seq<nat>, q: seq<nat>, q': seq<nat>)
    requires g.Valid() && g.Size() == |ps| && IsTopological(g, q) && IsTopological(g, q')
    requires QueueOrder(g, ps, q) && QueueOrder(g, ps, q')
    ensures q == q'
  {
    hide QueueOrder, Graph.Valid;
    AllPlaced(g, q);
    AllPlaced(g, q');
    SamePrefix(g, ps, q, q', |q|);
  }
}
