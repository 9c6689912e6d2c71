/** topsort_levels and topsort_levels_core: the layered form. */
module TopsortLevels {
  import opened Sequences
  import opened Graphs
  import opened PairMaps
  import opened Topsort

  /** The generator's yields, and the CycleError that ends it, if one does. */
  datatype Layers =
    | Complete(levels: seq<seq<Item>>)
    | Broken(levels: seq<seq<Item>>, numParents: Counts, children: Children)

  // ----- Level k is depth k -----------------------------------------------------------

  ghost predicate IsLevel(g: Graph, items: set<Item>, k: nat, level: seq<Item>) {
    Distinct(level) && forall x :: x in level <==> x in items && DepthIs(g, x, k)
  }

  ghost predicate AreLevels(g: Graph, items: set<Item>, levels: seq<seq<Item>>) {
    forall k :: 0 <= k < |levels| ==> levels[k] != [] && IsLevel(g, items, k, levels[k])
  }

  /** What is left after k levels: the items on which a chain of k edges ends. */
  ghost function LeftAfter(g: Graph, items: set<Item>, k: nat): set<Item> {
    set x | x in items && HasChain(g, x, k)
  }

  /** Round k: the first k levels have been taken out. */
  ghost predicate AtLevel(pairs: Pairs, items: set<Item>, k: nat, numParents: Counts) {
    && numParents.Keys == LeftAfter(Edges(pairs), items, k)
    && CountsAfter(pairs, items, items - numParents.Keys, numParents)
    && UpwardClosed(pairs, items - numParents.Keys)
  }

  lemma NothingTaken(pairs: Pairs, numParents: Counts, children: Children)
    requires Tallies(pairs, numParents, children)
    ensures Rounds(pairs, numParents.Keys, children, [], numParents, children)
  {
    assert numParents.Keys - numParents.Keys == {};
  }

  /** Among the items left after k levels, a zero count says depth exactly k. */
  lemma ZeroCountIsDepth(pairs: Pairs, items: set<Item>, k: nat, numParents: Counts)
    requires Elems(pairs) <= items && AtLevel(pairs, items, k, numParents)
    ensures forall x :: x in numParents && numParents[x] == 0 <==> x in items && DepthIs(Edges(pairs), x, k)
  {
    var g, done := Edges(pairs), items - numParents.Keys;
    ElemsOfEdges(pairs);
    forall x
      ensures x in numParents && numParents[x] == 0 <==> x in items && DepthIs(g, x, k)
    {
      if x in numParents {
        PendingPositive(pairs, x, done);
      }
    }
  }

  lemma BeginLevel(pairs: Pairs, items: set<Item>, k: nat, level: seq<Item>, numParents: Counts)
    requires Elems(pairs) <= items && AtLevel(pairs, items, k, numParents)
    requires Distinct(level) && forall x :: x in level <==> x in numParents && numParents[x] == 0
    ensures IsLevel(Edges(pairs), items, k, level)
    ensures InLevel(pairs, items, items - numParents.Keys, level, 0, numParents)
  {
    ZeroCountIsDepth(pairs, items, k, numParents);
    assert forall j :: 0 <= j < |level| ==> level[j] in level;
  }

  lemma EndLevel(pairs: Pairs, items: set<Item>, k: nat, level: seq<Item>, done: set<Item>, numParents: Counts)
    requires IsLevel(Edges(pairs), items, k, level)
    requires items - done == LeftAfter(Edges(pairs), items, k)
    requires done <= items && InLevel(pairs, items, done + Prefix(level, |level|), level, |level|, numParents)
    ensures AtLevel(pairs, items, k + 1, numParents)
    ensures items - numParents.Keys == done + Prefix(level, |level|)
    ensures numParents.Keys == items - done - Prefix(level, |level|)
  {
    var g := Edges(pairs);
    assert level[..|level|] == level;
    forall x | x in items
      ensures x in numParents <==> HasChain(g, x, k + 1)
    {
      assert x in numParents <==> x in items - done && x !in level;
      assert x in items - done <==> x in LeftAfter(g, items, k);
      if HasChain(g, x, k + 1) {
        ShorterChain(g, x, k, k + 1);
      }
    }
    assert items - numParents.Keys == done + Prefix(level, |level|);
  }

  lemma NothingAtZero(numParents: Counts, level: seq<Item>)
    requires level == [] && forall x :: x in level <==> x in numParents && numParents[x] == 0
    ensures forall x :: x in numParents ==> numParents[x] > 0
  {
  }

  /** Between two rounds of the generator's loop. */
  ghost predicate Rounds(pairs: Pairs, items: set<Item>, children0: Children, levels: seq<seq<Item>>,
                         numParents: Counts, children: Children) {
    && AtLevel(pairs, items, |levels|, numParents)
    && AreLevels(Edges(pairs), items, levels)
    && children == children0 - (items - numParents.Keys)
  }

  lemma NextRound(pairs: Pairs, items: set<Item>, children0: Children, levels: seq<seq<Item>>, level: seq<Item>,
                  np: Counts, ch: Children, numParents: Counts, children: Children)
    requires Rounds(pairs, items, children0, levels, np, ch)
    requires level != [] && IsLevel(Edges(pairs), items, |levels|, level)
    requires forall x :: x in level ==> x in np
    requires InLevel(pairs, items, items - np.Keys + Prefix(level, |level|), level, |level|, numParents)
    requires children == ch - Prefix(level, |level|)
    ensures Rounds(pairs, items, children0, levels + [level], numParents, children)
    ensures numParents.Keys < np.Keys
  {
    var done := items - np.Keys;
    EndLevel(pairs, items, |levels|, level, done, numParents);
    assert level[0] in Prefix(level, |level|);
  }

  /** Bounded items have been yielded at their depth; the others are still there. */
  lemma YieldedIffBounded(g: Graph, items: set<Item>, levels: seq<seq<Item>>, x: Item)
    requires AreLevels(g, items, levels) && x in items
    ensures HasChain(g, x, |levels|) <==> forall k :: 0 <= k < |levels| ==> x !in levels[k]
  {
    if HasChain(g, x, |levels|) {
      forall k | 0 <= k < |levels|
        ensures x !in levels[k]
      {
        if x in levels[k] {
          assert IsLevel(g, items, k, levels[k]);
          ShorterChain(g, x, k + 1, |levels|);
        }
      }
    } else {
      BoundedBelow(g, x, |levels|);
      assert IsLevel(g, items, Depth(g, x), levels[Depth(g, x)]);
    }
  }

  lemma LastLevel(pairs: Pairs, items: set<Item>, levels: seq<seq<Item>>, numParents: Counts,
                  children0: Children, children: Children)
    requires Elems(pairs) <= items && AtLevel(pairs, items, |levels|, numParents)
    requires AreLevels(Edges(pairs), items, levels)
    requires forall x :: x in numParents ==> numParents[x] > 0
    requires ListsChildren(pairs, children0) && children == children0 - (items - numParents.Keys)
    ensures forall x :: x in items ==>
      (AfterCycle(Edges(pairs), x) <==> forall k :: 0 <= k < |levels| ==> x !in levels[k])
    ensures numParents.Keys != {} <==> Cyclic(Edges(pairs))
    ensures ShowsCycles(pairs, numParents, children)
    ensures SameCycles(Edges(pairs), MapEdges(children))
  {
    var g, done := Edges(pairs), items - numParents.Keys;
    forall x | x in done
      ensures Bounded(g, x)
    {
      BoundedBelow(g, x, |levels|);
    }
    LeftoverIsAfterCycle(pairs, items, done, numParents);
    forall x | x in items
      ensures AfterCycle(g, x) <==> forall k :: 0 <= k < |levels| ==> x !in levels[k]
    {
      YieldedIffBounded(g, items, levels, x);
    }
    forall x | x in numParents
      ensures x in Elems(pairs)
    {
      PendingPositive(pairs, x, done);
      ElemsOfEdges(pairs);
    }
    LeftoverEdges(pairs, done, children0, children);
    LeftoverKeepsCycles(g, MapEdges(children));
  }

  // ----- The algorithm ----------------------------------------------------------------

  /** Decrementing the children of one item of the level, after that item was deleted. */
  method DropParent(ghost pairs: Pairs, ghost items: set<Item>, ghost done: set<Item>,
                    ghost p: Item, kids: seq<Item>, numParents: Counts)
    returns (numParents': Counts)
    requires Elems(pairs) <= items && p in items && p !in done
    requires UpwardClosed(pairs, done) && Pending(pairs, p, done) == 0
    requires multiset(kids) == multiset(ChildList(pairs, p))
    requires CountsDuring(pairs, items, done, p, kids, 0, numParents)
    ensures CountsDuring(pairs, items, done, p, kids, |kids|, numParents')
  {
    numParents' := numParents;
    for j := 0 to |kids|
      invariant CountsDuring(pairs, items, done, p, kids, j, numParents')
    {
      Decrement(pairs, items, done, p, kids, j, numParents');
      numParents' := numParents'[kids[j] := numParents'[kids[j]] - 1];
    }
  }

  /** Inside a level: gone has been removed, level[j..] is still to go. */
  ghost predicate InLevel(pairs: Pairs, items: set<Item>, gone: set<Item>, level: seq<Item>, j: nat, numParents: Counts) {
    && j <= |level| && gone <= items
    && CountsAfter(pairs, items, gone, numParents) && UpwardClosed(pairs, gone)
    && forall k :: j <= k < |level| ==> level[k] in numParents && Pending(pairs, level[k], gone) == 0
  }

  lemma BeginItem(pairs: Pairs, items: set<Item>, gone: set<Item>, level: seq<Item>, j: nat, kids: seq<Item>, numParents: Counts)
    requires j < |level| && InLevel(pairs, items, gone, level, j, numParents)
    ensures level[j] in items && level[j] !in gone && Pending(pairs, level[j], gone) == 0
    ensures CountsDuring(pairs, items, gone, level[j], kids, 0, numParents - {level[j]})
  {
  }

  lemma ItemDropped(pairs: Pairs, items: set<Item>, gone: set<Item>, level: seq<Item>, j: nat,
                    before: Counts, kids: seq<Item>, numParents: Counts)
    requires Distinct(level) && j < |level| && InLevel(pairs, items, gone, level, j, before)
    requires multiset(kids) == multiset(ChildList(pairs, level[j]))
    requires CountsDuring(pairs, items, gone, level[j], kids, |kids|, numParents)
    ensures InLevel(pairs, items, gone + {level[j]}, level, j + 1, numParents)
  {
    ParentRemoved(pairs, items, gone, level[j], kids, numParents);
    forall k | j < k < |level|
      ensures level[k] in numParents && Pending(pairs, level[k], gone + {level[j]}) == 0
    {
      PendingAfter(pairs, level[k], gone, level[j]);
    }
  }

  /** One item of the level leaves both dictionaries. */
  method DropItem(ghost pairs: Pairs, ghost items: set<Item>, ghost gone: set<Item>,
                  level: seq<Item>, j: nat, numParents: Counts, children: Children)
    returns (numParents': Counts, children': Children)
    requires Elems(pairs) <= items && Distinct(level) && j < |level|
    requires InLevel(pairs, items, gone, level, j, numParents)
    requires multiset(Kids(children, level[j])) == multiset(ChildList(pairs, level[j]))
    ensures InLevel(pairs, items, gone + {level[j]}, level, j + 1, numParents')
    ensures children' == children - {level[j]}
  {
    var p := level[j];
    ghost var kids := Kids(children, p);
    BeginItem(pairs, items, gone, level, j, kids, numParents);
    numParents', children' := numParents - {p}, children;
    if p in children {
      numParents' := DropParent(pairs, items, gone, p, children[p], numParents');
      children' := children' - {p};
    }
    ItemDropped(pairs, items, gone, level, j, numParents, kids, numParents');
  }

  /** One pass over a level: its items leave both dictionaries. */
  method DropLevel(ghost pairs: Pairs, ghost items: set<Item>, ghost done: set<Item>,
                   level: seq<Item>, numParents: Counts, children: Children)
    returns (numParents': Counts, children': Children)
    requires Elems(pairs) <= items && Distinct(level)
    requires InLevel(pairs, items, done, level, 0, numParents)
    requires forall x :: x in level ==> multiset(Kids(children, x)) == multiset(ChildList(pairs, x))
    ensures InLevel(pairs, items, done + Prefix(level, |level|), level, |level|, numParents')
    ensures children' == children - Prefix(level, |level|)
  {
    numParents', children' := numParents, children;
    ghost var gone := done;
    assert children - Prefix(level, 0) == children;
    for j := 0 to |level|
      invariant gone == done + Prefix(level, j)
      invariant InLevel(pairs, items, gone, level, j, numParents')
      invariant children' == children - Prefix(level, j)
    {
      KidsKept(children, level, j);
      PrefixNext(level, j);
      assert level[j] in level;
      numParents', children' := DropItem(pairs, items, gone, level, j, numParents', children');
      gone := gone + {level[j]};
    }
  }

  method TopsortLevelsCore(ghost pairs: Pairs, numParents0: Counts, children0: Children) returns (r: Layers)
    requires Tallies(pairs, numParents0, children0)
    ensures AreLevels(Edges(pairs), numParents0.Keys, r.levels)
    ensures forall x :: x in numParents0 ==>
      (AfterCycle(Edges(pairs), x) <==> forall k :: 0 <= k < |r.levels| ==> x !in r.levels[k])
    ensures r.Broken? <==> Cyclic(Edges(pairs))
    ensures r.Broken? ==> ShowsCycles(pairs, r.numParents, r.children)
    ensures r.Broken? ==> SameCycles(Edges(pairs), MapEdges(r.children))
  {
    var numParents, children := numParents0, children0;
    var levels := [];
    ghost var items := numParents0.Keys;
    NothingTaken(pairs, numParents, children);
    while true
      invariant Rounds(pairs, items, children0, levels, numParents, children)
      decreases numParents.Keys
    {
      var level := Enumerate(set x | x in numParents && numParents[x] == 0);
      if level == [] {
        NothingAtZero(numParents, level);
        break;
      }
      ghost var np, ch := numParents, children;
      BeginLevel(pairs, items, |levels|, level, np);
      numParents, children := DropLevel(pairs, items, items - np.Keys, level, numParents, children);
      NextRound(pairs, items, children0, levels, level, np, ch, numParents, children);
      levels := levels + [level];
    }
    LastLevel(pairs, items, levels, numParents, children0, children);
    if numParents.Keys != {} {
      r := Broken(levels, numParents, children);
    } else {
      r := Complete(levels);
    }
  }

  method TopsortLevels(pairs: Pairs) returns (r: Layers)
    ensures AreLevels(Edges(pairs), Elems(pairs), r.levels)
    ensures forall x :: x in Elems(pairs) ==>
      (AfterCycle(Edges(pairs), x) <==> forall k :: 0 <= k < |r.levels| ==> x !in r.levels[k])
    ensures r.Broken? <==> Cyclic(Edges(pairs))
    ensures r.Broken? ==> ShowsCycles(pairs, r.numParents, r.children)
    ensures r.Broken? ==> SameCycles(Edges(pairs), MapEdges(r.children))
  {
    var numParents, children := BuildMaps(pairs);
    r := TopsortLevelsCore(pairs, numParents, children);
  }
}
