/** Finite directed graphs, as the dependency tools see them: chains of
    predecessors, simple cycles, and the link between the two. */
module Graphs {
  import opened Sequences

  /** A hashable element; nothing but equality is known about it. */
  type Item(==, !new)

  type Graph = set<(Item, Item)>

  // ----- Walks and cycles -----------------------------------------------------

  predicate IsWalk(g: Graph, w: seq<Item>) {
    forall i :: 0 < i < |w| ==> (w[i - 1], w[i]) in g
  }

  /** The last item has an edge back to the first. */
  predicate ClosedWalk(g: Graph, c: seq<Item>) {
    |c| > 0 && IsWalk(g, c) && (c[|c| - 1], c[0]) in g
  }

  predicate SimpleCycle(g: Graph, c: seq<Item>) {
    ClosedWalk(g, c) && Distinct(c)
  }

  ghost predicate Cyclic(g: Graph) {
    exists c :: SimpleCycle(g, c)
  }

  ghost predicate WalkFromCycle(g: Graph, c: seq<Item>, w: seq<Item>, x: Item) {
    SimpleCycle(g, c) && |w| > 0 && IsWalk(g, w) && w[0] in c && w[|w| - 1] == x
  }

  /** x lies on a cycle or can be reached from one. */
  ghost predicate AfterCycle(g: Graph, x: Item) {
    exists c, w :: WalkFromCycle(g, c, w, x)
  }

  // ----- Chains of predecessors -------------------------------------------------

  /** Some chain of k edges ends in x. */
  ghost predicate HasChain(g: Graph, x: Item, k: nat) {
    k == 0 || exists p :: (p, x) in g && HasChain(g, p, k - 1)
  }

  /** The longest chain that ends in x has k edges. */
  ghost predicate DepthIs(g: Graph, x: Item, k: nat) {
    HasChain(g, x, k) && !HasChain(g, x, k + 1)
  }

  ghost predicate Bounded(g: Graph, x: Item) {
    exists k :: DepthIs(g, x, k)
  }

  ghost function Depth(g: Graph, x: Item): (k: nat)
    requires Bounded(g, x)
    ensures DepthIs(g, x, k)
  {
    var k :| DepthIs(g, x, k);
    k
  }

  lemma {:induction false} ShorterChain(g: Graph, x: Item, j: nat, k: nat)
    requires j <= k && HasChain(g, x, k)
    ensures HasChain(g, x, j)
    decreases k
  {
    if j > 0 {
      var p :| (p, x) in g && HasChain(g, p, k - 1);
      ShorterChain(g, p, j - 1, k - 1);
    }
  }

  lemma DepthUnique(g: Graph, x: Item, j: nat, k: nat)
    requires DepthIs(g, x, j) && DepthIs(g, x, k)
    ensures j == k
  {
    if j < k {
      ShorterChain(g, x, j + 1, k);
    } else if k < j {
      ShorterChain(g, x, k + 1, j);
    }
  }

  lemma {:induction false} BoundedBelow(g: Graph, x: Item, k: nat)
    requires !HasChain(g, x, k)
    ensures Bounded(g, x) && Depth(g, x) < k
  {
    if HasChain(g, x, k - 1) {
      assert DepthIs(g, x, k - 1);
      DepthUnique(g, x, k - 1, Depth(g, x));
    } else {
      BoundedBelow(g, x, k - 1);
    }
  }

  /** An edge goes strictly downwards, so everything above a bounded item is bounded. */
  lemma DepthRisesAlongEdge(g: Graph, p: Item, x: Item)
    requires (p, x) in g && Bounded(g, x)
    ensures Bounded(g, p) && Depth(g, p) < Depth(g, x)
  {
    assert !HasChain(g, p, Depth(g, x));
    BoundedBelow(g, p, Depth(g, x));
  }

  /** If the parents of x have depth at most d and one has depth d, then x has depth d + 1. */
  lemma DepthFromParents(g: Graph, x: Item, p: Item)
    requires (p, x) in g && Bounded(g, p)
    requires forall q :: (q, x) in g ==> Bounded(g, q) && Depth(g, q) <= Depth(g, p)
    ensures Bounded(g, x) && Depth(g, x) == Depth(g, p) + 1
  {
    var d := Depth(g, p);
    forall q | (q, x) in g
      ensures !HasChain(g, q, d + 1)
    {
      if HasChain(g, q, d + 1) {
        ShorterChain(g, q, Depth(g, q) + 1, d + 1);
      }
    }
    assert DepthIs(g, x, d + 1);
    DepthUnique(g, x, d + 1, Depth(g, x));
  }

  lemma DepthOfRoot(g: Graph, x: Item)
    requires forall q :: (q, x) !in g
    ensures Bounded(g, x) && Depth(g, x) == 0
  {
    assert DepthIs(g, x, 0);
    DepthUnique(g, x, 0, Depth(g, x));
  }

  ghost predicate HasParentIn(g: Graph, s: set<Item>, y: Item) {
    exists p :: p in s && (p, y) in g
  }

  ghost predicate Endless(g: Graph, s: set<Item>) {
    forall y {:trigger HasParentIn(g, s, y)} :: y in s ==> HasParentIn(g, s, y)
  }

  /** In a set whose members all have a parent inside it, chains never end. */
  lemma {:induction false} EndlessChains(g: Graph, s: set<Item>, x: Item, k: nat)
    requires Endless(g, s)
    requires x in s
    ensures HasChain(g, x, k)
  {
    if k > 0 {
      assert HasParentIn(g, s, x);
      var p :| p in s && (p, x) in g;
      EndlessChains(g, s, p, k - 1);
    }
  }

  // ----- Chains against walks -----------------------------------------------------

  /** HasChain says what it should: a walk with k edges ends in x. */
  lemma {:induction false} ChainToWalk(g: Graph, x: Item, k: nat) returns (w: seq<Item>)
    requires HasChain(g, x, k)
    ensures |w| == k + 1 && IsWalk(g, w) && w[k] == x
  {
    if k == 0 {
      w := [x];
    } else {
      var p :| (p, x) in g && HasChain(g, p, k - 1);
      var v := ChainToWalk(g, p, k - 1);
      w := v + [x];
    }
  }

  lemma {:induction false} WalkToChain(g: Graph, w: seq<Item>)
    requires |w| > 0 && IsWalk(g, w)
    ensures HasChain(g, w[|w| - 1], |w| - 1)
  {
    if |w| > 1 {
      var v := w[..|w| - 1];
      WalkToChain(g, v);
      assert (w[|w| - 2], w[|w| - 1]) in g;
    }
  }

  lemma ChainIffWalk(g: Graph, x: Item, k: nat)
    ensures HasChain(g, x, k) <==> exists w :: |w| == k + 1 && IsWalk(g, w) && w[k] == x
  {
    if HasChain(g, x, k) {
      var w := ChainToWalk(g, x, k);
    }
    if w :| |w| == k + 1 && IsWalk(g, w) && w[k] == x {
      WalkToChain(g, w);
    }
  }

  // ----- Pigeonhole ---------------------------------------------------------------

  lemma {:induction false} DistinctBound<T>(w: seq<T>, s: set<T>)
    requires Distinct(w) && forall x :: x in w ==> x in s
    ensures |w| <= |s|
  {
    if w != [] {
      var v := w[1..];
      forall x | x in v
        ensures x in s - {w[0]}
      {
        var i :| 0 <= i < |v| && v[i] == x;
        assert w[0] != w[i + 1];
      }
      DistinctBound(v, s - {w[0]});
    }
  }

  /** A walk that meets an item twice runs through a simple cycle. */
  lemma {:induction false} RepeatGivesCycle(g: Graph, w: seq<Item>) returns (c: seq<Item>, i: nat)
    requires IsWalk(g, w) && !Distinct(w)
    ensures SimpleCycle(g, c) && i < |w| && w[i] in c
  {
    var v := w[..|w| - 1];
    if Distinct(v) {
      var last := |w| - 1;
      i :| 0 <= i < last && w[i] == w[last];
      c := w[i..last];
      assert (w[last - 1], w[last]) in g;
      forall a, b | 0 <= a < b < |c|
        ensures c[a] != c[b]
      {
        assert v[i + a] != v[i + b];
      }
      assert c[0] == w[i];
    } else {
      c, i := RepeatGivesCycle(g, v);
    }
  }

  ghost function Nodes(g: Graph): set<Item> {
    (set e | e in g :: e.0) + (set e | e in g :: e.1)
  }

  lemma WalkInNodes(g: Graph, w: seq<Item>)
    requires |w| > 1 && IsWalk(g, w)
    ensures forall x :: x in w ==> x in Nodes(g)
  {
    forall i | 0 <= i < |w|
      ensures w[i] in Nodes(g)
    {
      if i == 0 {
        assert (w[0], w[1]) in g;
      } else {
        assert (w[i - 1], w[i]) in g;
      }
    }
  }

  /** A chain with as many edges as the graph has nodes comes out of a cycle. */
  lemma LongChainAfterCycle(g: Graph, x: Item, k: nat)
    requires k > 0 && k >= |Nodes(g)| && HasChain(g, x, k)
    ensures AfterCycle(g, x)
  {
    var w := ChainToWalk(g, x, k);
    if Distinct(w) {
      WalkInNodes(g, w);
      DistinctBound(w, Nodes(g));
      assert false;
    }
    var c, i := RepeatGivesCycle(g, w);
    assert WalkFromCycle(g, c, w[i..], x);
  }

  lemma {:induction false} CycleHasChains(g: Graph, c: seq<Item>, i: nat, k: nat)
    requires ClosedWalk(g, c) && i < |c|
    ensures HasChain(g, c[i], k)
    decreases k
  {
    if k > 0 {
      var j := if i == 0 then |c| - 1 else i - 1;
      CycleHasChains(g, c, j, k - 1);
      assert (c[j], c[i]) in g;
    }
  }

  lemma {:induction false} WalkCarriesChain(g: Graph, w: seq<Item>, k: nat)
    requires |w| > 0 && IsWalk(g, w) && HasChain(g, w[0], k)
    ensures HasChain(g, w[|w| - 1], k + |w| - 1)
  {
    if |w| > 1 {
      var v := w[..|w| - 1];
      WalkCarriesChain(g, v, k);
      assert (v[|v| - 1], w[|w| - 1]) in g;
    }
  }

  /** An item has a longest chain exactly when no cycle reaches it. */
  lemma BoundedIffNotAfterCycle(g: Graph, x: Item)
    ensures Bounded(g, x) <==> !AfterCycle(g, x)
  {
    if c, w :| WalkFromCycle(g, c, w, x) {
      if Bounded(g, x) {
        var k := Depth(g, x) + 1;
        var i :| 0 <= i < |c| && c[i] == w[0];
        CycleHasChains(g, c, i, k);
        WalkCarriesChain(g, w, k);
        ShorterChain(g, x, k, k + |w| - 1);
        assert false;
      }
    } else {
      var k := |Nodes(g)| + 1;
      if HasChain(g, x, k) {
        LongChainAfterCycle(g, x, k);
        assert false;
      } else {
        BoundedBelow(g, x, k);
      }
    }
  }

  lemma OnCycleAfterCycle(g: Graph, c: seq<Item>, i: nat)
    requires SimpleCycle(g, c) && i < |c|
    ensures AfterCycle(g, c[i])
  {
    assert WalkFromCycle(g, c, [c[i]], c[i]);
  }

  /** A non-empty set whose members all have a parent inside it sits below a cycle. */
  lemma EndlessAfterCycle(g: Graph, s: set<Item>, x: Item)
    requires Endless(g, s)
    requires x in s
    ensures AfterCycle(g, x)
  {
    var k := |Nodes(g)| + 1;
    EndlessChains(g, s, x, k);
    LongChainAfterCycle(g, x, k);
  }
}
