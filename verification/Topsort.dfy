/** topsort: Kahn's algorithm over an answer list that grows while it is read. */
module Topsort {
  import opened Sequences
  import opened Graphs
  import opened PairMaps

  datatype Outcome =
    | Sorted(answer: seq<Item>)
    | CycleError(answer: seq<Item>, numParents: Counts, children: Children)

  // ----- What a good answer is -----------------------------------------------------

  ghost predicate SortedByDepth(g: Graph, s: seq<Item>) {
    && (forall x :: x in s ==> Bounded(g, x))
    && (forall i, j :: 0 <= i < j < |s| ==> Depth(g, s[i]) <= Depth(g, s[j]))
  }

  ghost predicate ParentsFirst(g: Graph, s: seq<Item>) {
    forall i, p :: 0 <= i < |s| && (p, s[i]) in g ==> p in s[..i]
  }

  /** Every listed item, once, except those a cycle reaches. */
  ghost predicate ListsAcyclicPart(g: Graph, items: set<Item>, s: seq<Item>) {
    Distinct(s) && forall x :: x in s <==> x in items && !AfterCycle(g, x)
  }

  lemma ParentBefore(g: Graph, items: set<Item>, s: seq<Item>, i: nat, p: Item)
    requires ListsAcyclicPart(g, items, s) && SortedByDepth(g, s)
    requires i < |s| && (p, s[i]) in g && p in items
    ensures p in s[..i]
  {
    var x := s[i];
    assert x in s;
    DepthRisesAlongEdge(g, p, x);
    BoundedIffNotAfterCycle(g, p);
    var j :| 0 <= j < |s| && s[j] == p;
    assert j < i;
    assert s[..i][j] == p;
  }

  /** An order by depth puts parents first, whatever happens within one depth. */
  lemma DepthOrderPutsParentsFirst(g: Graph, items: set<Item>, s: seq<Item>)
    requires ListsAcyclicPart(g, items, s) && SortedByDepth(g, s)
    requires forall p, x :: (p, x) in g ==> p in items
    ensures ParentsFirst(g, s)
  {
    forall i, p | 0 <= i < |s| && (p, s[i]) in g
      ensures p in s[..i]
    {
      ParentBefore(g, items, s, i, p);
    }
  }

  // ----- The loop's invariant --------------------------------------------------------

  ghost function Prefix(s: seq<Item>, i: nat): set<Item>
    requires i <= |s|
  {
    set x | x in s[..i]
  }

  /** answer[i..] are the remaining items with no parent left. */
  ghost predicate QueueAfter(answer: seq<Item>, i: nat, numParents: Counts) {
    && i <= |answer| && Distinct(answer)
    && (forall k :: i <= k < |answer| ==> answer[k] in numParents && numParents[answer[k]] == 0)
    && (forall x :: x in numParents && numParents[x] == 0 ==> x in answer)
  }

  /** The answer is sorted by depth and never runs more than one level ahead. */
  ghost predicate DepthQueue(g: Graph, answer: seq<Item>, i: nat) {
    && SortedByDepth(g, answer)
    && (forall j :: 0 <= i < |answer| && 0 <= j < |answer| ==> Depth(g, answer[j]) <= Depth(g, answer[i]) + 1)
  }

  /** A child whose last parent is answer[i] belongs at the end of the answer. */
  lemma AppendKeepsDepthQueue(pairs: Pairs, answer: seq<Item>, i: nat, c: Item)
    requires i < |answer| && DepthQueue(Edges(pairs), answer, i)
    requires (answer[i], c) in Edges(pairs)
    requires Pending(pairs, c, Prefix(answer, i + 1)) == 0
    ensures DepthQueue(Edges(pairs), answer + [c], i)
  {
    var g, done := Edges(pairs), Prefix(answer, i + 1);
    PendingPositive(pairs, c, done);
    forall q | (q, c) in g
      ensures Bounded(g, q) && Depth(g, q) <= Depth(g, answer[i])
    {
      assert q in answer[..i + 1];
    }
    DepthFromParents(g, c, answer[i]);
  }

  /** Between two rounds: answer[..i] has been removed. */
  ghost predicate Round(pairs: Pairs, answer: seq<Item>, i: nat, numParents: Counts) {
    && i <= |answer|
    && Prefix(answer, i) <= Elems(pairs)
    && UpwardClosed(pairs, Prefix(answer, i))
    && CountsAfter(pairs, Elems(pairs), Prefix(answer, i), numParents)
    && QueueAfter(answer, i, numParents)
    && DepthQueue(Edges(pairs), answer, i)
  }

  /** Inside round i, after j children. */
  ghost predicate Inside(pairs: Pairs, done: set<Item>, answer: seq<Item>, i: nat,
                         kids: seq<Item>, j: nat, numParents: Counts) {
    && i < |answer| && Prefix(answer, i) == done
    && CountsDuring(pairs, Elems(pairs), done, answer[i], kids, j, numParents)
    && QueueAfter(answer, i + 1, numParents)
    && DepthQueue(Edges(pairs), answer, i)
  }

  lemma PrefixNext(answer: seq<Item>, i: nat)
    requires i < |answer|
    ensures Prefix(answer, i + 1) == Prefix(answer, i) + {answer[i]}
  {
    assert answer[..i + 1] == answer[..i] + [answer[i]];
  }

  lemma KidsKept(children: Children, s: seq<Item>, i: nat)
    requires Distinct(s) && i < |s|
    ensures Kids(children - Prefix(s, i), s[i]) == Kids(children, s[i])
    ensures children - Prefix(s, i) - {s[i]} == children - (Prefix(s, i) + {s[i]}) == children - Prefix(s, i + 1)
  {
    PrefixNext(s, i);
    assert s[i] !in Prefix(s, i);
  }

  lemma FirstRound(pairs: Pairs, numParents: Counts, answer: seq<Item>)
    requires CountsAfter(pairs, Elems(pairs), {}, numParents)
    requires Distinct(answer) && forall x :: x in answer <==> x in numParents && numParents[x] == 0
    ensures Round(pairs, answer, 0, numParents)
  {
    assert Prefix(answer, 0) == {} && answer[0..] == answer;
    forall x | x in answer
      ensures Bounded(Edges(pairs), x) && Depth(Edges(pairs), x) == 0
    {
      PendingPositive(pairs, x, {});
      DepthOfRoot(Edges(pairs), x);
    }
  }

  lemma BeginRound(pairs: Pairs, answer: seq<Item>, i: nat, kids: seq<Item>, numParents: Counts)
    requires i < |answer| && Round(pairs, answer, i, numParents)
    ensures answer[i] in numParents && answer[i] !in Prefix(answer, i)
    ensures Pending(pairs, answer[i], Prefix(answer, i)) == 0
    ensures Inside(pairs, Prefix(answer, i), answer, i, kids, 0, numParents - {answer[i]})
  {
  }

  lemma AppendKeepsQueue(answer: seq<Item>, i: nat, numParents: Counts, c: Item)
    requires QueueAfter(answer, i, numParents) && c in numParents && numParents[c] == 1
    requires c !in Prefix(answer, i)
    ensures QueueAfter(answer + [c], i, numParents[c := 0])
  {
    forall k | 0 <= k < |answer|
      ensures answer[k] != c
    {
      assert k < i ==> answer[k] in answer[..i];
    }
  }

  /** The child's last parent is gone: it is appended, and its count is zero. */
  lemma ChildQueued(pairs: Pairs, done: set<Item>, answer: seq<Item>, i: nat, c: Item, numParents: Counts)
    requires i < |answer| && Prefix(answer, i) == done && QueueAfter(answer, i + 1, numParents)
    requires DepthQueue(Edges(pairs), answer, i)
    requires c in numParents && numParents[c] == 1 && c !in done && c != answer[i]
    requires (answer[i], c) in Edges(pairs) && Pending(pairs, c, done + {answer[i]}) == 0
    ensures Prefix(answer + [c], i) == done && (answer + [c])[i] == answer[i]
    ensures QueueAfter(answer + [c], i + 1, numParents[c := 0])
    ensures DepthQueue(Edges(pairs), answer + [c], i)
  {
    PrefixNext(answer, i);
    AppendKeepsDepthQueue(pairs, answer, i, c);
    AppendKeepsQueue(answer, i + 1, numParents, c);
    assert (answer + [c])[..i] == answer[..i];
  }

  lemma ChildWaits(answer: seq<Item>, i: nat, c: Item, numParents: Counts)
    requires QueueAfter(answer, i, numParents) && c in numParents && numParents[c] > 1
    ensures QueueAfter(answer, i, numParents[c := numParents[c] - 1])
  {
  }

  lemma NextChild(pairs: Pairs, done: set<Item>, answer: seq<Item>, i: nat,
                  kids: seq<Item>, j: nat, numParents: Counts)
    requires Inside(pairs, done, answer, i, kids, j, numParents)
    requires answer[i] !in done && UpwardClosed(pairs, done) && Pending(pairs, answer[i], done) == 0
    requires multiset(kids) == multiset(ChildList(pairs, answer[i])) && j < |kids|
    ensures kids[j] in numParents && numParents[kids[j]] > 0
    ensures var (left, c) := (numParents[kids[j]] - 1, kids[j]);
            if left == 0 then Inside(pairs, done, answer + [c], i, kids, j + 1, numParents[c := left])
            else Inside(pairs, done, answer, i, kids, j + 1, numParents[c := left])
  {
    var p, c := answer[i], kids[j];
    Decrement(pairs, Elems(pairs), done, p, kids, j, numParents);
    if numParents[c] == 1 {
      ChildQueued(pairs, done, answer, i, c, numParents);
    } else {
      ChildWaits(answer, i + 1, c, numParents);
    }
  }

  lemma EndRound(pairs: Pairs, done: set<Item>, answer: seq<Item>, i: nat, kids: seq<Item>, numParents: Counts)
    requires Inside(pairs, done, answer, i, kids, |kids|, numParents)
    requires done <= Elems(pairs) && answer[i] in Elems(pairs) && answer[i] !in done
    requires UpwardClosed(pairs, done) && Pending(pairs, answer[i], done) == 0
    requires multiset(kids) == multiset(ChildList(pairs, answer[i]))
    ensures Round(pairs, answer, i + 1, numParents)
    ensures Prefix(answer, i + 1) == done + {answer[i]}
  {
    ParentRemoved(pairs, Elems(pairs), done, answer[i], kids, numParents);
    PrefixNext(answer, i);
  }

  // ----- When the queue is exhausted ----------------------------------------------

  /** What has no zero count left is exactly what the cycles reach. */
  lemma LeftoverIsAfterCycle(pairs: Pairs, items: set<Item>, done: set<Item>, numParents: Counts)
    requires Elems(pairs) <= items && done <= items
    requires CountsAfter(pairs, items, done, numParents)
    requires forall x :: x in numParents ==> numParents[x] > 0
    requires forall x :: x in done ==> Bounded(Edges(pairs), x)
    ensures forall x :: x in items ==> (x in numParents <==> AfterCycle(Edges(pairs), x))
    ensures numParents.Keys != {} <==> Cyclic(Edges(pairs))
  {
    var g, left := Edges(pairs), numParents.Keys;
    ElemsOfEdges(pairs);
    forall y | y in left
      ensures HasParentIn(g, left, y)
    {
      PendingPositive(pairs, y, done);
    }
    forall x | x in items
      ensures x in left <==> AfterCycle(g, x)
    {
      BoundedIffNotAfterCycle(g, x);
      if x in left {
        EndlessAfterCycle(g, left, x);
      }
    }
    CyclicIffAfterCycle(g, items);
  }

  lemma CyclicIffAfterCycle(g: Graph, items: set<Item>)
    requires forall p, c :: (p, c) in g ==> c in items
    ensures Cyclic(g) <==> exists x :: x in items && AfterCycle(g, x)
  {
    if c :| SimpleCycle(g, c) {
      OnCycleAfterCycle(g, c, 0);
      assert (c[|c| - 1], c[0]) in g;
    }
    if x :| x in items && AfterCycle(g, x) {
      var c, w :| WalkFromCycle(g, c, w, x);
    }
  }

  ghost predicate SameCycles(g: Graph, h: Graph) {
    forall c :: SimpleCycle(h, c) <==> SimpleCycle(g, c)
  }

  /** Dropping the acyclic part of a children dictionary keeps every cycle and adds none. */
  lemma LeftoverKeepsCycles(g: Graph, h: Graph)
    requires forall p, c :: (p, c) in h <==> (p, c) in g && AfterCycle(g, p)
    ensures SameCycles(g, h)
  {
    forall c
      ensures SimpleCycle(h, c) <==> SimpleCycle(g, c)
    {
      if SimpleCycle(g, c) {
        forall i | 0 <= i < |c|
          ensures AfterCycle(g, c[i])
        {
          OnCycleAfterCycle(g, c, i);
        }
      }
    }
  }

  /** The payload of the error: counts of the items the cycles reach, and their edges. */
  ghost predicate ShowsCycles(pairs: Pairs, numParents: Counts, children: Children) {
    && (forall x :: x in numParents <==> x in Elems(pairs) && AfterCycle(Edges(pairs), x))
    && (forall x :: x in numParents ==> numParents[x] > 0)
    && (forall p, c :: (p, c) in MapEdges(children) <==> (p, c) in Edges(pairs) && AfterCycle(Edges(pairs), p))
  }

  lemma LeftoverEdges(pairs: Pairs, done: set<Item>, children0: Children, children: Children)
    requires forall x :: x in Elems(pairs) ==> (x in done <==> !AfterCycle(Edges(pairs), x))
    requires ListsChildren(pairs, children0) && children == children0 - done
    ensures forall p, c :: (p, c) in MapEdges(children) <==> (p, c) in Edges(pairs) && AfterCycle(Edges(pairs), p)
  {
    ElemsOfEdges(pairs);
    forall p, c
      ensures (p, c) in MapEdges(children) <==> (p, c) in Edges(pairs) && AfterCycle(Edges(pairs), p)
    {
      KidsAreEdges(pairs, children0, p);
    }
  }

  /** For each pair: wherever its second item stands, its first item stands before it. */
  predicate PairsInOrder(pairs: Pairs, s: seq<Item>) {
    forall e, i :: e in pairs && 0 <= i < |s| && s[i] == e.1 ==> e.0 in s[..i]
  }

  lemma PairsAreOrdered(pairs: Pairs, s: seq<Item>)
    requires ParentsFirst(Edges(pairs), s)
    ensures PairsInOrder(pairs, s)
  {
    forall e, i | e in pairs && 0 <= i < |s| && s[i] == e.1
      ensures e.0 in s[..i]
    {
      assert (e.0, s[i]) == e;
    }
  }

  lemma Finish(pairs: Pairs, answer: seq<Item>, numParents: Counts, children0: Children, children: Children)
    requires Round(pairs, answer, |answer|, numParents)
    requires MapsChildren(pairs, children0) && children == children0 - Prefix(answer, |answer|)
    ensures numParents.Keys != {} <==> Cyclic(Edges(pairs))
    ensures ListsAcyclicPart(Edges(pairs), Elems(pairs), answer)
    ensures ParentsFirst(Edges(pairs), answer) && PairsInOrder(pairs, answer)
    ensures ShowsCycles(pairs, numParents, children)
    ensures SameCycles(Edges(pairs), MapEdges(children))
    ensures forall x :: x in numParents ==> numParents[x] == Pending(pairs, x, Prefix(answer, |answer|))
    ensures forall p :: p in children ==> children[p] == ChildList(pairs, p)
  {
    var g, done := Edges(pairs), Prefix(answer, |answer|);
    assert answer[..|answer|] == answer && answer[|answer|..] == [];
    LeftoverIsAfterCycle(pairs, Elems(pairs), done, numParents);
    assert ListsAcyclicPart(g, Elems(pairs), answer);
    assert ParentsFirst(g, answer) by {
      ElemsOfEdges(pairs);
      DepthOrderPutsParentsFirst(g, Elems(pairs), answer);
    }
    PairsAreOrdered(pairs, answer);
    assert ListsChildren(pairs, children0);
    LeftoverEdges(pairs, done, children0, children);
    LeftoverKeepsCycles(g, MapEdges(children));
  }

  // ----- The algorithm ---------------------------------------------------------------

  /** The inner loop of one round: the children of answer[i] lose a parent each. */
  method KnockDown(ghost pairs: Pairs, answer: seq<Item>, ghost i: nat, kids: seq<Item>, numParents: Counts)
    returns (numParents': Counts, answer': seq<Item>)
    requires i < |answer| && Inside(pairs, Prefix(answer, i), answer, i, kids, 0, numParents)
    requires answer[i] !in Prefix(answer, i) && UpwardClosed(pairs, Prefix(answer, i))
    requires Pending(pairs, answer[i], Prefix(answer, i)) == 0
    requires multiset(kids) == multiset(ChildList(pairs, answer[i]))
    ensures Inside(pairs, Prefix(answer, i), answer', i, kids, |kids|, numParents') && answer'[i] == answer[i]
  {
    numParents', answer' := numParents, answer;
    ghost var done := Prefix(answer, i);
    for j := 0 to |kids|
      invariant Inside(pairs, done, answer', i, kids, j, numParents') && answer'[i] == answer[i]
    {
      var child := kids[j];
      NextChild(pairs, done, answer', i, kids, j, numParents');
      numParents' := numParents'[child := numParents'[child] - 1];
      if numParents'[child] == 0 {
        answer' := answer' + [child];
      }
    }
  }

  /** One round: answer[i] leaves both dictionaries. */
  method TakeOut(ghost pairs: Pairs, answer: seq<Item>, i: nat, numParents: Counts, children: Children)
    returns (numParents': Counts, children': Children, answer': seq<Item>)
    requires i < |answer| && Round(pairs, answer, i, numParents)
    requires multiset(Kids(children, answer[i])) == multiset(ChildList(pairs, answer[i]))
    ensures Round(pairs, answer', i + 1, numParents') && children' == children - {answer[i]}
    ensures Prefix(answer', i + 1) == Prefix(answer, i) + {answer[i]} && answer[i] !in Prefix(answer, i)
  {
    var parent := answer[i];
    ghost var done, kids := Prefix(answer, i), Kids(children, parent);
    BeginRound(pairs, answer, i, kids, numParents);
    numParents', children', answer' := numParents - {parent}, children, answer;
    if parent in children {
      numParents', answer' := KnockDown(pairs, answer, i, children[parent], numParents');
      children' := children' - {parent};
    }
    EndRound(pairs, done, answer', i, kids, numParents');
  }

  method Topsort(pairs: Pairs) returns (r: Outcome)
    ensures r.CycleError? <==> Cyclic(Edges(pairs))
    ensures ListsAcyclicPart(Edges(pairs), Elems(pairs), r.answer)
    ensures SortedByDepth(Edges(pairs), r.answer)
    ensures ParentsFirst(Edges(pairs), r.answer)
    ensures PairsInOrder(pairs, r.answer)
    ensures r.CycleError? ==> ShowsCycles(pairs, r.numParents, r.children)
    ensures r.CycleError? ==> SameCycles(Edges(pairs), MapEdges(r.children))
    ensures r.CycleError? ==>
      forall x :: x in r.numParents ==> r.numParents[x] == Pending(pairs, x, Prefix(r.answer, |r.answer|))
    ensures r.CycleError? ==> forall p :: p in r.children ==> r.children[p] == ChildList(pairs, p)
  {
    var numParents, children := BuildMaps(pairs);
    ghost var children0 := children;
    var answer := Enumerate(set x | x in numParents && numParents[x] == 0);
    FirstRound(pairs, numParents, answer);
    var i := 0;
    while i < |answer|
      invariant Round(pairs, answer, i, numParents)
      invariant children == children0 - Prefix(answer, i)
      decreases Elems(pairs) - Prefix(answer, i)
    {
      KidsKept(children0, answer, i);
      numParents, children, answer := TakeOut(pairs, answer, i, numParents, children);
      i := i + 1;
    }
    Finish(pairs, answer, numParents, children0, children);
    if numParents.Keys != {} {
      r := CycleError(answer, numParents, children);
    } else {
      r := Sorted(answer);
    }
  }
}
