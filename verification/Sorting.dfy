/** strcmp order on strings and the exchange sort used for hash lists. */
module Sorting {

  /** strcmp(a, b) <= 0 */
  predicate Le(a: string, b: string) {
    a == [] || (b != [] && (a[0] < b[0] || (a[0] == b[0] && Le(a[1..], b[1..]))))
  }

  lemma {:induction false} LeTotal(a: string, b: string)
    ensures Le(a, b) || Le(b, a)
  {
    if a != [] && b != [] { LeTotal(a[1..], b[1..]); }
  }

  lemma {:induction false} LeAntisymmetric(a: string, b: string)
    requires Le(a, b) && Le(b, a)
    ensures a == b
  {
    if a != [] {
      LeAntisymmetric(a[1..], b[1..]);
      assert a == [a[0]] + a[1..] && b == [b[0]] + b[1..];
    }
  }

  lemma {:induction false} LeTransitive(a: string, b: string, c: string)
    requires Le(a, b) && Le(b, c)
    ensures Le(a, c)
  {
    if a != [] && a[0] == b[0] && b[0] == c[0] { LeTransitive(a[1..], b[1..], c[1..]); }
  }

  /** a and b differ at i first, and a is smaller there. */
  predicate SmallerAt(a: string, b: string, i: nat) {
    i < |a| && i < |b| && a[..i] == b[..i] && a[i] < b[i]
  }

  lemma SmallerBehind(a: string, b: string, i: nat)
    requires a != [] && b != [] && a[0] == b[0]
    ensures SmallerAt(a[1..], b[1..], i) <==> SmallerAt(a, b, i + 1)
  {
    if SmallerAt(a[1..], b[1..], i) {
      assert a[..i + 1] == [a[0]] + a[1..][..i] && b[..i + 1] == [b[0]] + b[1..][..i];
    }
    if SmallerAt(a, b, i + 1) {
      assert a[1..][..i] == a[..i + 1][1..] && b[1..][..i] == b[..i + 1][1..];
    }
  }

  /** strcmp: a is a prefix of b, or the first difference decides. */
  lemma {:induction false} LeIff(a: string, b: string)
    ensures Le(a, b) <==> a <= b || exists i: nat :: SmallerAt(a, b, i)
  {
    if a != [] && b != [] {
      if a[0] == b[0] {
        LeIff(a[1..], b[1..]);
        assert a == [a[0]] + a[1..] && b == [b[0]] + b[1..];
        hide SmallerAt;
        if i: nat :| SmallerAt(a[1..], b[1..], i) { SmallerBehind(a, b, i); }
        if i: nat :| SmallerAt(a, b, i) { NotFirst(a, b, i); SmallerBehind(a, b, i - 1); }
      } else {
        if a[0] < b[0] { assert SmallerAt(a, b, 0); }
        if i: nat :| SmallerAt(a, b, i) { AtFirst(a, b, i); }
      }
    }
  }

  lemma SameHead(a: string, b: string, i: nat)
    requires i < |a| && i < |b| && a[..i] == b[..i]
    ensures i > 0 ==> a[0] == b[0]
  {
    if i > 0 { assert a[0] == a[..i][0]; }
  }

  lemma AtFirst(a: string, b: string, i: nat)
    requires SmallerAt(a, b, i) && a[0] != b[0]
    ensures a[0] < b[0]
  {
    SameHead(a, b, i);
  }

  lemma NotFirst(a: string, b: string, i: nat)
    requires SmallerAt(a, b, i) && a[0] == b[0]
    ensures i > 0
  {}

  predicate Below(x: string, s: seq<string>) {
    forall y :: y in s ==> Le(x, y)
  }

  predicate Ordered(s: seq<string>) {
    s == [] || (Below(s[0], s[1..]) && Ordered(s[1..]))
  }

  function Insert(x: string, s: seq<string>): (r: seq<string>)
    ensures multiset(r) == multiset(s) + multiset{x}
  {
    if s == [] || Le(x, s[0]) then [x] + s
    else
      assert s == [s[0]] + s[1..];
      [s[0]] + Insert(x, s[1..])
  }

  function Sort(s: seq<string>): (r: seq<string>)
    ensures multiset(r) == multiset(s)
  {
    if s == [] then []
    else
      assert s == [s[0]] + s[1..];
      Insert(s[0], Sort(s[1..]))
  }

  lemma SameMembers(a: seq<string>, b: multiset<string>)
    requires multiset(a) == b
    ensures forall x :: x in a <==> x in b
  {}

  lemma {:induction false} InsertOrdered(x: string, s: seq<string>)
    requires Ordered(s)
    ensures Ordered(Insert(x, s))
  {
    if s == [] {
    } else if Le(x, s[0]) {
      forall y | y in s
        ensures Le(x, y)
      {
        if y != s[0] { LeTransitive(x, s[0], y); }
      }
      assert ([x] + s)[1..] == s;
    } else {
      LeTotal(x, s[0]);
      var rest := Insert(x, s[1..]);
      InsertOrdered(x, s[1..]);
      SameMembers(rest, multiset(s[1..]) + multiset{x});
      assert ([s[0]] + rest)[1..] == rest;
    }
  }

  lemma {:induction false} SortOrdered(s: seq<string>)
    ensures Ordered(Sort(s))
  {
    if s != [] {
      SortOrdered(s[1..]);
      InsertOrdered(s[0], Sort(s[1..]));
    }
  }

  lemma TailElements(s: seq<string>)
    requires s != []
    ensures multiset(s[1..]) == multiset(s) - multiset{s[0]}
  {
    assert s == [s[0]] + s[1..];
  }

  /** Two ordered lists with the same elements are the same list. */
  lemma {:induction false} OrderedUnique(a: seq<string>, b: seq<string>)
    requires Ordered(a) && Ordered(b) && multiset(a) == multiset(b)
    ensures a == b
  {
    if a == [] {
      assert |multiset(b)| == 0;
    } else {
      assert |multiset(b)| == |multiset(a)| > 0;
      SameMembers(a, multiset(b));
      SameMembers(b, multiset(a));
      assert a[0] in b && b[0] in a;
      LeReflexive(a[0]);
      LeAntisymmetric(a[0], b[0]);
      TailElements(a);
      TailElements(b);
      OrderedUnique(a[1..], b[1..]);
    }
  }

  lemma LeReflexive(a: string)
    ensures Le(a, a)
  {}

  /** Sorting forgets exactly the order: equal results if and only if equal multisets. */
  lemma SortCanonical(a: seq<string>, b: seq<string>)
    ensures Sort(a) == Sort(b) <==> multiset(a) == multiset(b)
  {
    SortOrdered(a);
    SortOrdered(b);
    if multiset(a) == multiset(b) {
      OrderedUnique(Sort(a), Sort(b));
    }
  }

  lemma PairOrdered(g: string, h: string)
    requires Le(g, h)
    ensures Ordered([g, h]) && Ordered([])
  {
    assert [g, h][1..] == [h] && [h][1..] == [];
  }

  lemma SortTwo(g: string, h: string)
    requires Le(g, h)
    ensures Sort([g, h]) == Sort([h, g]) == [g, h] && Sort([]) == []
  {
    hide Le, Sort;
    PairOrdered(g, h);
    assert multiset([h, g]) == multiset([g, h]);
    SortOrdered([g, h]);
    SortOrdered([h, g]);
    SortOrdered([]);
    OrderedUnique(Sort([g, h]), [g, h]);
    OrderedUnique(Sort([h, g]), [g, h]);
    OrderedUnique(Sort([]), []);
  }

  // ---- The exchange sort ------------------------------------------------------------------

  predicate OrderedUpTo(s: seq<string>, n: nat) {
    n <= |s| && forall i, j :: 0 <= i < n && i <= j < |s| ==> Le(s[i], s[j])
  }

  lemma {:induction false} OrderedFromIndices(s: seq<string>)
    requires forall i, j :: 0 <= i < j < |s| ==> Le(s[i], s[j])
    ensures Ordered(s)
  {
    if s != [] { OrderedFromIndices(s[1..]); }
  }

  lemma SwapKeepsElements(s: seq<string>, i: nat, j: nat)
    requires i < j < |s|
    ensures multiset(s[i := s[j]][j := s[i]]) == multiset(s)
  {}

  lemma SwapKeepsOrder(s: seq<string>, i: nat, j: nat)
    requires i < j < |s| && OrderedUpTo(s, i)
    ensures OrderedUpTo(s[i := s[j]][j := s[i]], i)
  {
    var t := s[i := s[j]][j := s[i]];
    forall a, b | 0 <= a < i && a <= b < |t|
      ensures Le(t[a], t[b])
    {
      assert Le(s[a], s[if b == i then j else if b == j then i else b]);
    }
  }

  lemma OneMoreOrdered(s: seq<string>, i: nat)
    requires i < |s| && OrderedUpTo(s, i) && forall k :: i <= k < |s| ==> Le(s[i], s[k])
    ensures OrderedUpTo(s, i + 1)
  {}

  /** Swapping in a smaller element at i keeps what the pass has established. */
  lemma SwapSmaller(s: seq<string>, i: nat, j: nat)
    requires i < j < |s| && OrderedUpTo(s, i) && !Le(s[i], s[j])
    requires forall k :: i <= k < j ==> Le(s[i], s[k])
    ensures var t := s[i := s[j]][j := s[i]];
            && OrderedUpTo(t, i) && multiset(t) == multiset(s)
            && forall k :: i <= k <= j ==> Le(t[i], t[k])
  {
    hide OrderedUpTo, Le;
    SwapKeepsOrder(s, i, j);
    SwapKeepsElements(s, i, j);
    LeTotal(s[i], s[j]);
    LeReflexive(s[j]);
    forall k | i <= k < j
      ensures Le(s[j], s[k])
    {
      LeTransitive(s[j], s[i], s[k]);
    }
  }

  /** One pass of the inner loop: a[i] becomes a least element of a[i..], the rest is permuted. */
  method SelectLeast(a: array<string>, i: nat)
    requires i < a.Length && OrderedUpTo(a[..], i)
    modifies a
    ensures OrderedUpTo(a[..], i + 1) && multiset(a[..]) == multiset(old(a[..]))
  {
    hide OrderedUpTo, Le;
    LeReflexive(a[i]);
    var j := i + 1;
    while j < a.Length
      invariant i < j <= a.Length
      invariant multiset(a[..]) == multiset(old(a[..]))
      invariant OrderedUpTo(a[..], i)
      invariant forall k :: i <= k < j ==> Le(a[i], a[k])
    {
      if !Le(a[i], a[j]) {
        ghost var s := a[..];
        SwapSmaller(s, i, j);
        a[i], a[j] := a[j], a[i];
        assert a[..] == s[i := s[j]][j := s[i]];
      }
      j := j + 1;
    }
    OneMoreOrdered(a[..], i);
  }

  /** The two nested loops that sort the hashes in place. */
  method ExchangeSort(a: array<string>)
    modifies a
    ensures a[..] == Sort(old(a[..]))
  {
    ghost var before := a[..];
    var i := 0;
    while i < a.Length
      invariant 0 <= i <= a.Length
      invariant OrderedUpTo(a[..], i) && multiset(a[..]) == multiset(before)
    {
      SelectLeast(a, i);
      i := i + 1;
    }
    OrderedFromIndices(a[..]);
    SortOrdered(before);
    OrderedUnique(a[..], Sort(before));
  }
}
