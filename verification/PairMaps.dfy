/** The two dictionaries that every sorter in topsort.py starts from, and the
    counting that ties them to the list of (parent, child) pairs. */
module PairMaps {
  import opened Sequences
  import opened Graphs

  type Pairs = seq<(Item, Item)>
  type Counts = map<Item, nat>
  type Children = map<Item, seq<Item>>

  function Elems(pairs: Pairs): set<Item> {
    Parents(pairs) + (set e | e in pairs :: e.1)
  }

  function Parents(pairs: Pairs): set<Item> {
    set e | e in pairs :: e.0
  }

  function Edges(pairs: Pairs): Graph {
    set e | e in pairs
  }

  /** The edges a children dictionary stands for. */
  function MapEdges(children: Children): Graph {
    set p, c | p in children && c in children[p] :: (p, c)
  }

  /** How many pairs give x a parent outside done. */
  function Pending(pairs: Pairs, x: Item, done: set<Item>): nat {
    if pairs == [] then 0
    else
      var (p, c) := pairs[|pairs| - 1];
      Pending(pairs[..|pairs| - 1], x, done) + if c == x && p !in done then 1 else 0
  }

  function ChildList(pairs: Pairs, p: Item): seq<Item> {
    if pairs == [] then []
    else
      var (q, c) := pairs[|pairs| - 1];
      ChildList(pairs[..|pairs| - 1], p) + if q == p then [c] else []
  }

  function Kids(children: Children, p: Item): seq<Item> {
    if p in children then children[p] else []
  }

  /** The dictionaries count and list exactly the given pairs. */
  ghost predicate Tallies(pairs: Pairs, numParents: Counts, children: Children) {
    && Elems(pairs) <= numParents.Keys
    && (forall x :: x in numParents ==> numParents[x] == Pending(pairs, x, {}))
    && ListsChildren(pairs, children)
  }

  /** Each parent's children, with multiplicity, in any order. */
  ghost predicate ListsChildren(pairs: Pairs, children: Children) {
    forall p :: multiset(Kids(children, p)) == multiset(ChildList(pairs, p))
  }

  // ----- Counting -----------------------------------------------------------------

  lemma {:induction false} PendingPositive(pairs: Pairs, x: Item, done: set<Item>)
    ensures Pending(pairs, x, done) > 0 <==> exists p :: p !in done && (p, x) in Edges(pairs)
  {
    if pairs != [] {
      var init, last := pairs[..|pairs| - 1], pairs[|pairs| - 1];
      PendingPositive(init, x, done);
      assert pairs == init + [last];
      assert Edges(pairs) == Edges(init) + {last};
      assert (last.0, last.1) == last;
    }
  }

  lemma {:induction false} PendingAfter(pairs: Pairs, x: Item, done: set<Item>, p: Item)
    requires p !in done
    ensures Pending(pairs, x, done) == Pending(pairs, x, done + {p}) + multiset(ChildList(pairs, p))[x]
  {
    if pairs != [] {
      PendingAfter(pairs[..|pairs| - 1], x, done, p);
    }
  }

  lemma EdgesSnoc(pairs: Pairs, e: (Item, Item))
    ensures Edges(pairs + [e]) == Edges(pairs) + {e}
    ensures Elems(pairs + [e]) == Elems(pairs) + {e.0, e.1}
    ensures Parents(pairs + [e]) == Parents(pairs) + {e.0}
  {
    assert e in pairs + [e];
    assert forall f :: f in pairs + [e] <==> f in pairs || f == e;
  }

  lemma {:induction false} ChildListMembers(pairs: Pairs, p: Item)
    ensures forall c :: c in ChildList(pairs, p) <==> (p, c) in Edges(pairs)
  {
    if pairs != [] {
      var init, last := pairs[..|pairs| - 1], pairs[|pairs| - 1];
      ChildListMembers(init, p);
      assert pairs == init + [last];
      EdgesSnoc(init, last);
      forall c
        ensures c in ChildList(pairs, p) <==> (p, c) in Edges(pairs)
      {
        assert (p, c) == last <==> p == last.0 && c == last.1;
      }
    }
  }

  lemma ElemsOfEdges(pairs: Pairs)
    ensures forall p, c :: (p, c) in Edges(pairs) ==> p in Elems(pairs) && c in Elems(pairs)
  {
    forall p, c | (p, c) in Edges(pairs)
      ensures p in Elems(pairs) && c in Elems(pairs)
    {
      var e := (p, c);
      assert e in pairs && e.0 == p && e.1 == c;
    }
  }

  /** What one entry of a children dictionary says about the pairs. */
  lemma KidsAreEdges(pairs: Pairs, children: Children, p: Item)
    requires multiset(Kids(children, p)) == multiset(ChildList(pairs, p))
    ensures forall c :: c in Kids(children, p) <==> (p, c) in Edges(pairs)
  {
    ChildListMembers(pairs, p);
    forall c
      ensures c in Kids(children, p) <==> c in ChildList(pairs, p)
    {
      assert c in multiset(Kids(children, p)) <==> c in multiset(ChildList(pairs, p));
    }
  }

  // ----- Knocking down the counts of one parent's children ---------------------------

  /** The counts that are left once the items in done have been removed. */
  ghost predicate CountsAfter(pairs: Pairs, items: set<Item>, done: set<Item>, numParents: Counts) {
    && numParents.Keys == items - done
    && forall x :: x in numParents ==> numParents[x] == Pending(pairs, x, done)
  }

  /** The removed items form a prefix of the order: none has a parent that is still there. */
  ghost predicate UpwardClosed(pairs: Pairs, done: set<Item>) {
    forall x :: x in done ==> Pending(pairs, x, done) == 0
  }

  /** The counts while parent p is being removed, after the first j of its children. */
  ghost predicate CountsDuring(pairs: Pairs, items: set<Item>, done: set<Item>, p: Item,
                               kids: seq<Item>, j: nat, numParents: Counts) {
    && j <= |kids|
    && numParents.Keys == items - done - {p}
    && forall x :: x in numParents ==> numParents[x] == Pending(pairs, x, done) - multiset(kids[..j])[x]
  }

  lemma PrefixCounts(kids: seq<Item>, j: nat)
    requires j < |kids|
    ensures multiset(kids[..j + 1]) == multiset(kids[..j]) + multiset{kids[j]}
    ensures multiset(kids[..j])[kids[j]] < multiset(kids)[kids[j]]
  {
    assert kids[..j + 1] == kids[..j] + [kids[j]];
    assert kids == kids[..j + 1] + kids[j + 1..];
  }

  /** A child of p is still counted when p is removed. */
  lemma ChildIsLeft(pairs: Pairs, done: set<Item>, p: Item, c: Item)
    requires p !in done && c in ChildList(pairs, p)
    requires UpwardClosed(pairs, done) && Pending(pairs, p, done) == 0
    ensures (p, c) in Edges(pairs)
    ensures c in Elems(pairs) && c !in done && c != p
  {
    ChildListMembers(pairs, p);
    ElemsOfEdges(pairs);
    PendingPositive(pairs, c, done);
  }

  lemma CountedDown(pairs: Pairs, items: set<Item>, done: set<Item>, p: Item, kids: seq<Item>, j: nat, numParents: Counts)
    requires j < |kids| && CountsDuring(pairs, items, done, p, kids, j, numParents)
    requires kids[j] in numParents && numParents[kids[j]] > 0
    ensures CountsDuring(pairs, items, done, p, kids, j + 1, numParents[kids[j] := numParents[kids[j]] - 1])
  {
    PrefixCounts(kids, j);
  }

  /** Each decrement finds its child, finds it positive, and reaches zero only with the last parent. */
  lemma Decrement(pairs: Pairs, items: set<Item>, done: set<Item>, p: Item,
                  kids: seq<Item>, j: nat, numParents: Counts)
    requires Elems(pairs) <= items && p !in done
    requires UpwardClosed(pairs, done) && Pending(pairs, p, done) == 0
    requires multiset(kids) == multiset(ChildList(pairs, p))
    requires j < |kids| && CountsDuring(pairs, items, done, p, kids, j, numParents)
    ensures kids[j] in numParents && numParents[kids[j]] > 0
    ensures CountsDuring(pairs, items, done, p, kids, j + 1, numParents[kids[j] := numParents[kids[j]] - 1])
    ensures numParents[kids[j]] == 1 ==> Pending(pairs, kids[j], done + {p}) == 0
    ensures (p, kids[j]) in Edges(pairs)
  {
    var c := kids[j];
    assert c in multiset(kids);
    ChildIsLeft(pairs, done, p, c);
    PendingAfter(pairs, c, done, p);
    PrefixCounts(kids, j);
    CountedDown(pairs, items, done, p, kids, j, numParents);
  }

  /** Once all its children are knocked down, the parent is removed. */
  lemma ParentRemoved(pairs: Pairs, items: set<Item>, done: set<Item>, p: Item, kids: seq<Item>, numParents: Counts)
    requires p !in done && UpwardClosed(pairs, done) && Pending(pairs, p, done) == 0
    requires multiset(kids) == multiset(ChildList(pairs, p))
    requires CountsDuring(pairs, items, done, p, kids, |kids|, numParents)
    ensures CountsAfter(pairs, items, done + {p}, numParents)
    ensures UpwardClosed(pairs, done + {p})
  {
    assert kids[..|kids|] == kids;
    forall x
      ensures Pending(pairs, x, done) == Pending(pairs, x, done + {p}) + multiset(kids)[x]
    {
      PendingAfter(pairs, x, done, p);
    }
  }

  // ----- Building the dictionaries -----------------------------------------------

  /** One pair's effect on the specification of both dictionaries. */
  lemma SnocCounts(pairs: Pairs, e: (Item, Item))
    ensures forall x :: Pending(pairs + [e], x, {}) == Pending(pairs, x, {}) + if x == e.1 then 1 else 0
    ensures forall p :: ChildList(pairs + [e], p) == ChildList(pairs, p) + if p == e.0 then [e.1] else []
    ensures forall x :: x !in Elems(pairs) ==> Pending(pairs, x, {}) == 0
  {
    assert (pairs + [e])[..|pairs + [e]| - 1] == pairs;
    forall x | x !in Elems(pairs)
      ensures Pending(pairs, x, {}) == 0
    {
      PendingPositive(pairs, x, {});
      ElemsOfEdges(pairs);
    }
  }

  ghost predicate MapsChildren(pairs: Pairs, children: Children) {
    forall p :: Kids(children, p) == ChildList(pairs, p)
  }

  /** The dictionaries after the pairs read so far. */
  ghost predicate MapsFor(pairs: Pairs, numParents: Counts, children: Children) {
    && numParents.Keys == Elems(pairs)
    && children.Keys == Parents(pairs)
    && (forall x :: x in numParents ==> numParents[x] == Pending(pairs, x, {}))
    && MapsChildren(pairs, children)
  }

  lemma MapsForSnoc(pairs: Pairs, e: (Item, Item), np: Counts, ch: Children, np': Counts, ch': Children)
    requires MapsFor(pairs, np, ch)
    requires np'.Keys == np.Keys + {e.0, e.1} && ch'.Keys == ch.Keys + {e.0}
    requires forall x :: x in np' ==> np'[x] == (if x in np then np[x] else 0) + if x == e.1 then 1 else 0
    requires forall p :: Kids(ch', p) == Kids(ch, p) + if p == e.0 then [e.1] else []
    ensures MapsFor(pairs + [e], np', ch')
  {
    SnocCounts(pairs, e);
    EdgesSnoc(pairs, e);
  }

  function WithKey(counts: Counts, x: Item): Counts {
    if x in counts then counts else counts[x := 0]
  }

  function CountedPair(counts: Counts, parent: Item, child: Item): Counts {
    var both := WithKey(WithKey(counts, parent), child);
    both[child := both[child] + 1]
  }

  function ListedPair(children: Children, parent: Item, child: Item): Children {
    children[parent := Kids(children, parent) + [child]]
  }

  lemma PairMapped(pairs: Pairs, e: (Item, Item), np: Counts, ch: Children)
    requires MapsFor(pairs, np, ch)
    ensures MapsFor(pairs + [e], CountedPair(np, e.0, e.1), ListedPair(ch, e.0, e.1))
  {
    MapsForSnoc(pairs, e, np, ch, CountedPair(np, e.0, e.1), ListedPair(ch, e.0, e.1));
  }

  /** One turn of the loop that fills the dictionaries. */
  method ReadPair(ghost pairs: Pairs, numParents: Counts, children: Children, parent: Item, child: Item)
    returns (numParents': Counts, children': Children)
    requires MapsFor(pairs, numParents, children)
    ensures MapsFor(pairs + [(parent, child)], numParents', children')
  {
    numParents', children' := numParents, children;
    if parent !in numParents' {
      numParents' := numParents'[parent := 0];
    }
    if child !in numParents' {
      numParents' := numParents'[child := 0];
    }
    numParents' := numParents'[child := numParents'[child] + 1];
    if parent !in children' {
      children' := children'[parent := []];
    }
    children' := children'[parent := children'[parent] + [child]];
    assert numParents' == CountedPair(numParents, parent, child);
    assert children' == ListedPair(children, parent, child);
    PairMapped(pairs, (parent, child), numParents, children);
  }

  method BuildMaps(pairs: Pairs) returns (numParents: Counts, children: Children)
    ensures MapsFor(pairs, numParents, children)
  {
    numParents, children := map[], map[];
    for i := 0 to |pairs|
      invariant MapsFor(pairs[..i], numParents, children)
    {
      var (parent, child) := pairs[i];
      assert pairs[..i + 1] == pairs[..i] + [(parent, child)];
      numParents, children := ReadPair(pairs[..i], numParents, children, parent, child);
    }
    assert pairs[..|pairs|] == pairs;
  }

  /** Listing a dictionary's keys: every key once, in an order nobody may rely on. */
  method Enumerate(s: set<Item>) returns (q: seq<Item>)
    ensures Distinct(q) && forall x :: x in q <==> x in s
  {
    q := [];
    var rest := s;
    while rest != {}
      invariant rest <= s && Distinct(q)
      invariant forall x :: x in q <==> x in s - rest
      decreases rest
    {
      var x :| x in rest;
      assert x !in q;
      q, rest := q + [x], rest - {x};
    }
  }
}
