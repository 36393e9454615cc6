/** Reachability in a directed graph, and the sub-sequence of a list that lies outside a set. */
module HeapGraph {

  /** A path of `n` edges leads from one node to another. */
  ghost predicate ReachesIn<N>(g: map<N, set<N>>, from: N, to: N, n: nat) {
    from in g && (if n == 0 then from == to else exists next :: next in g[from] && ReachesIn(g, next, to, n - 1))
  }

  ghost predicate Reaches<N>(g: map<N, set<N>>, from: N, to: N) {
    exists n: nat :: ReachesIn(g, from, to, n)
  }

  ghost predicate Reachable<N>(g: map<N, set<N>>, roots: set<N>, x: N) {
    exists r :: r in roots && Reaches(g, r, x)
  }

  lemma ReachesSelf<N>(g: map<N, set<N>>, x: N)
    requires x in g
    ensures Reaches(g, x, x)
  {
    assert ReachesIn(g, x, x, 0);
  }

  /** An edge in front of a path. */
  lemma ReachesAfter<N>(g: map<N, set<N>>, a: N, b: N, x: N)
    requires a in g && b in g[a] && Reaches(g, b, x)
    ensures Reaches(g, a, x)
  {
    var n: nat :| ReachesIn(g, b, x, n);
    assert ReachesIn(g, a, x, n + 1);
  }

  /** A node that a reachable node refers to is reachable. */
  lemma ReachableNext<N>(g: map<N, set<N>>, roots: set<N>, x: N, y: N)
    requires Reachable(g, roots, x) && x in g && y in g[x] && y in g
    ensures Reachable(g, roots, y)
  {
    var r :| r in roots && Reaches(g, r, x);
    var n: nat :| ReachesIn(g, r, x, n);
    OneMore(g, r, x, y, n);
  }

  lemma RootReachable<N>(g: map<N, set<N>>, roots: set<N>, x: N)
    requires x in roots && x in g
    ensures Reachable(g, roots, x)
  {
    ReachesSelf(g, x);
  }

  lemma {:induction false} OneMore<N>(g: map<N, set<N>>, from: N, x: N, y: N, n: nat)
    requires ReachesIn(g, from, x, n) && x in g && y in g[x] && y in g
    ensures ReachesIn(g, from, y, n + 1)
  {
    if n == 0 {
      assert ReachesIn(g, y, y, 0);
    } else {
      var next :| next in g[from] && ReachesIn(g, next, x, n - 1);
      OneMore(g, next, x, y, n - 1);
    }
  }

  /** A set that is closed under the edges keeps every path that starts in it. */
  lemma {:induction false} ClosedKeeps<N>(g: map<N, set<N>>, s: set<N>, from: N, to: N, n: nat)
    requires ReachesIn(g, from, to, n) && from in s
    requires forall x | x in s && x in g :: g[x] <= s
    ensures to in s
  {
    if n > 0 {
      var next :| next in g[from] && ReachesIn(g, next, to, n - 1);
      ClosedKeeps(g, s, next, to, n - 1);
    }
  }

  /**
   A set that holds the roots, is closed, and holds nothing but reachable nodes is exactly the
   set of reachable nodes.
   */
  lemma ClosedIsReachable<N>(g: map<N, set<N>>, roots: set<N>, s: set<N>)
    requires roots <= s
    requires forall x | x in s && x in g :: g[x] <= s
    requires forall x | x in s :: Reachable(g, roots, x)
    requires s <= g.Keys
    ensures forall x | x in g :: x in s <==> Reachable(g, roots, x)
  {
    forall x | x in g && Reachable(g, roots, x) ensures x in s {
      var r :| r in roots && Reaches(g, r, x);
      var n: nat :| ReachesIn(g, r, x, n);
      ClosedKeeps(g, s, r, x, n);
    }
  }

  /** The elements of `list` outside `kept`, in order. */
  ghost function Without<N>(list: seq<N>, kept: set<N>): seq<N> {
    if list == [] then []
    else Without(list[..|list| - 1], kept) + (if list[|list| - 1] in kept then [] else [list[|list| - 1]])
  }

  lemma WithoutNothing<N>(list: seq<N>, kept: set<N>)
    ensures Without(list[..0], kept) == []
  {
  }

  lemma WithoutNext<N>(list: seq<N>, kept: set<N>, i: nat)
    requires i < |list|
    ensures Without(list[..i + 1], kept) == Without(list[..i], kept) + (if list[i] in kept then [] else [list[i]])
  {
    assert list[..i + 1][..i] == list[..i];
  }

  lemma {:induction false} WithoutMembers<N>(list: seq<N>, kept: set<N>)
    ensures forall x | x in Without(list, kept) :: x in list && x !in kept
    ensures forall x | x in list && x !in kept :: x in Without(list, kept)
    decreases |list|
  {
    if list != [] {
      WithoutMembers(list[..|list| - 1], kept);
      assert list == list[..|list| - 1] + [list[|list| - 1]];
    }
  }
}
