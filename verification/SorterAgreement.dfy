/** The first-in first-out answer of topsort, cut at the level sizes, gives the
    levels of topsort_levels, whatever order either dictionary was read in. */
module SorterAgreement {
  import opened Sequences
  import opened Graphs
  import opened Topsort
  import opened TopsortLevels

  function Offset(levels: seq<seq<Item>>, k: nat): nat
    requires k <= |levels|
  {
    if k == 0 then 0 else Offset(levels, k - 1) + |levels[k - 1]|
  }

  lemma {:induction false} DistinctMultiset<T>(s: seq<T>)
    requires Distinct(s)
    ensures forall x :: multiset(s)[x] == if x in s then 1 else 0
  {
    if s != [] {
      var init, last := s[..|s| - 1], s[|s| - 1];
      DistinctMultiset(init);
      assert s == init + [last];
      assert last !in init;
    }
  }

  lemma SameMembersSameMultiset<T>(s: seq<T>, t: seq<T>)
    requires Distinct(s) && Distinct(t)
    requires forall x :: x in s <==> x in t
    ensures multiset(s) == multiset(t) && |s| == |t|
  {
    DistinctMultiset(s);
    DistinctMultiset(t);
    assert multiset(s) == multiset(t);
    assert |s| == |multiset(s)| && |t| == |multiset(t)|;
  }

  /** The answer's items of depth below k are exactly its first n. */
  ghost predicate CutAt(g: Graph, answer: seq<Item>, k: nat, n: nat)
    requires SortedByDepth(g, answer)
  {
    n <= |answer| && forall i :: 0 <= i < |answer| ==> (i < n <==> Depth(g, answer[i]) < k)
  }

  lemma CutExists(g: Graph, answer: seq<Item>, k: nat) returns (n: nat)
    requires SortedByDepth(g, answer)
    ensures CutAt(g, answer, k, n)
  {
    n := 0;
    while n < |answer| && Depth(g, answer[n]) < k
      invariant n <= |answer| && forall i :: 0 <= i < n ==> Depth(g, answer[i]) < k
    {
      n := n + 1;
    }
  }

  lemma CutsIncrease(g: Graph, answer: seq<Item>, j: nat, a: nat, k: nat, b: nat)
    requires SortedByDepth(g, answer) && j <= k
    requires CutAt(g, answer, j, a) && CutAt(g, answer, k, b)
    ensures a <= b
  {
    if a > 0 {
      assert Depth(g, answer[a - 1]) < j;
    }
  }

  /** Between two neighbouring cuts lies one level. */
  lemma SliceIsLevel(g: Graph, items: set<Item>, answer: seq<Item>, level: seq<Item>, k: nat, a: nat, b: nat)
    requires ListsAcyclicPart(g, items, answer) && SortedByDepth(g, answer)
    requires IsLevel(g, items, k, level)
    requires CutAt(g, answer, k, a) && CutAt(g, answer, k + 1, b) && a <= b
    ensures multiset(answer[a..b]) == multiset(level) && b - a == |level|
  {
    forall x
      ensures x in answer[a..b] <==> x in level
    {
      if x in answer[a..b] {
        var i :| a <= i < b && answer[i] == x;
        assert answer[i] in answer;
      }
      if x in level {
        BoundedIffNotAfterCycle(g, x);
        DepthUnique(g, x, k, Depth(g, x));
        var i :| 0 <= i < |answer| && answer[i] == x;
        assert answer[a..b][i - a] == x;
      }
    }
    SameMembersSameMultiset(answer[a..b], level);
  }

  lemma {:induction false} CutAtOffset(g: Graph, items: set<Item>, answer: seq<Item>,
                                       levels: seq<seq<Item>>, k: nat)
    requires ListsAcyclicPart(g, items, answer) && SortedByDepth(g, answer)
    requires AreLevels(g, items, levels) && k <= |levels|
    ensures CutAt(g, answer, k, Offset(levels, k))
  {
    if k > 0 {
      CutAtOffset(g, items, answer, levels, k - 1);
      var b := CutExists(g, answer, k);
      var a := Offset(levels, k - 1);
      CutsIncrease(g, answer, k - 1, a, k, b);
      SliceIsLevel(g, items, answer, levels[k - 1], k - 1, a, b);
    }
  }

  lemma SortersAgree(g: Graph, items: set<Item>, answer: seq<Item>, levels: seq<seq<Item>>, k: nat)
    requires ListsAcyclicPart(g, items, answer) && SortedByDepth(g, answer)
    requires AreLevels(g, items, levels) && k < |levels|
    ensures Offset(levels, k) <= Offset(levels, k + 1) <= |answer|
    ensures multiset(answer[Offset(levels, k)..Offset(levels, k + 1)]) == multiset(levels[k])
  {
    CutAtOffset(g, items, answer, levels, k);
    CutAtOffset(g, items, answer, levels, k + 1);
    SliceIsLevel(g, items, answer, levels[k], k, Offset(levels, k), Offset(levels, k + 1));
  }

  /** Nothing of the answer lies beyond the last level. */
  lemma SortersCoverTheSame(g: Graph, items: set<Item>, answer: seq<Item>, levels: seq<seq<Item>>)
    requires ListsAcyclicPart(g, items, answer) && SortedByDepth(g, answer)
    requires AreLevels(g, items, levels)
    requires forall x :: x in items ==>
      (AfterCycle(g, x) <==> forall k :: 0 <= k < |levels| ==> x !in levels[k])
    ensures Offset(levels, |levels|) == |answer|
  {
    CutAtOffset(g, items, answer, levels, |levels|);
    var n := Offset(levels, |levels|);
    if n < |answer| {
      assert answer[n] in answer;
      var k :| 0 <= k < |levels| && answer[n] in levels[k];
      assert IsLevel(g, items, k, levels[k]);
      DepthUnique(g, answer[n], k, Depth(g, answer[n]));
    }
  }
}
