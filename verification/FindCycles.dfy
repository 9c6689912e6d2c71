/** find_cycles: an explicit stack of paths, searched from one root after another. */
module FindCycles {
  import opened Sequences
  import opened Graphs
  import opened PairMaps
  import opened Rotations

  type Path = seq<Item>

  function Last(p: Path): Item
    requires p != []
  {
    p[|p| - 1]
  }

  // ----- What has been found ------------------------------------------------------------

  ghost predicate Found(cycles: seq<Path>, c: Path) {
    exists k :: 0 <= k < |cycles| && IsRotation(cycles[k], c)
  }

  ghost predicate GoodYields(g: Graph, cycles: seq<Path>) {
    && (forall k :: 0 <= k < |cycles| ==> SimpleCycle(g, cycles[k]))
    && (forall j, k :: 0 <= j < k < |cycles| ==> !IsRotation(cycles[j], cycles[k]))
  }

  /** A path without repeated items that starts at the root. */
  predicate PathFrom(g: Graph, root: Item, p: Path) {
    |p| > 0 && p[0] == root && IsWalk(g, p) && Distinct(p)
  }

  /** Every cycle that the last item of p closes has been found. */
  ghost predicate Handled(g: Graph, cycles: seq<Path>, p: Path) {
    p != [] && forall i :: 0 <= i < |p| && (Last(p), p[i]) in g ==> Found(cycles, p[i..])
  }

  ghost predicate HasPrefixIn(stack: seq<Path>, p: Path) {
    exists k :: 0 <= k < |stack| && stack[k] <= p
  }

  ghost predicate StackOf(g: Graph, root: Item, stack: seq<Path>) {
    forall k :: 0 <= k < |stack| ==> PathFrom(g, root, stack[k])
  }

  /** The search from root: each path is dealt with, or grows out of one still on the stack. */
  ghost predicate Searching(g: Graph, root: Item, stack: seq<Path>, cycles: seq<Path>) {
    && StackOf(g, root, stack)
    && (forall p :: PathFrom(g, root, p) ==> Handled(g, cycles, p) || HasPrefixIn(stack, p))
  }

  ghost predicate Searched(g: Graph, root: Item, cycles: seq<Path>) {
    forall p :: PathFrom(g, root, p) ==> Handled(g, cycles, p)
  }

  ghost predicate ReachedFrom(g: Graph, roots: set<Item>, x: Item) {
    exists root, p :: root in roots && PathFrom(g, root, p) && Last(p) == x
  }

  // ----- The yields only grow --------------------------------------------------------------

  lemma MoreFound(g: Graph, cycles: seq<Path>, more: seq<Path>)
    requires cycles <= more
    ensures forall c :: Found(cycles, c) ==> Found(more, c)
    ensures forall p :: Handled(g, cycles, p) ==> Handled(g, more, p)
    ensures forall root :: Searched(g, root, cycles) ==> Searched(g, root, more)
  {
    forall c | Found(cycles, c)
      ensures Found(more, c)
    {
      var k :| 0 <= k < |cycles| && IsRotation(cycles[k], c);
      assert more[k] == cycles[k];
    }
  }

  // ----- The weight of the stack ---------------------------------------------------------

  ghost function Power(b: nat, e: nat): (r: nat)
    ensures b > 0 ==> r > 0
  {
    if e == 0 then 1 else b * Power(b, e - 1)
  }

  /** A path of length len among n items, with at most d children each. */
  ghost function PathWeight(n: nat, d: nat, len: nat): nat {
    if len <= n then Power(d + 1, n - len) else 0
  }

  ghost function StackWeight(n: nat, d: nat, stack: seq<Path>): nat {
    if stack == [] then 0
    else StackWeight(n, d, stack[..|stack| - 1]) + PathWeight(n, d, |stack[|stack| - 1]|)
  }

  lemma PushWeight(n: nat, d: nat, stack: seq<Path>, p: Path)
    ensures StackWeight(n, d, stack + [p]) == StackWeight(n, d, stack) + PathWeight(n, d, |p|)
  {
    assert (stack + [p])[..|stack|] == stack;
  }

  /** d paths that are one item longer weigh less than the one they replace. */
  lemma ChildrenWeighLess(n: nat, d: nat, len: nat, j: nat)
    requires len <= n && j <= d
    ensures j * PathWeight(n, d, len + 1) < PathWeight(n, d, len)
  {
    if len < n {
      var w := Power(d + 1, n - len - 1);
      assert PathWeight(n, d, len) == (d + 1) * w;
      assert j * w <= d * w;
    }
  }

  lemma {:induction false} ChildListsBounded(children: Children) returns (d: nat)
    ensures forall p :: p in children ==> |children[p]| <= d
    decreases children.Keys
  {
    d := 0;
    if p :| p in children {
      var rest := children - {p};
      d := ChildListsBounded(rest);
      assert forall q :: q in children && q != p ==> q in rest && children[q] == rest[q];
      if |children[p]| > d {
        d := |children[p]|;
      }
    }
  }

  // ----- One pop ---------------------------------------------------------------------------

  /** The path's own item closes a cycle with the part of the path from that item on. */
  lemma TailIsCycle(g: Graph, root: Item, path: Path, i: nat)
    requires PathFrom(g, root, path) && i < |path| && (Last(path), path[i]) in g
    ensures SimpleCycle(g, path[i..])
  {
  }

  lemma LongerPath(g: Graph, root: Item, path: Path, child: Item)
    requires PathFrom(g, root, path) && (Last(path), child) in g && child !in path
    ensures PathFrom(g, root, path + [child])
  {
  }

  /** The first j children are dealt with: their cycle is found or their path is stacked. */
  ghost predicate Expanded(path: Path, kids: seq<Item>, j: nat, stack: seq<Path>, cycles: seq<Path>) {
    && j <= |kids|
    && (forall m, i :: 0 <= m < j && 0 <= i < |path| && path[i] == kids[m] ==> Found(cycles, path[i..]))
    && (forall m :: 0 <= m < j && kids[m] !in path ==> path + [kids[m]] in stack)
  }

  /** A path that grows out of the popped one is dealt with or grows out of an extension. */
  lemma ExtensionStacked(g: Graph, root: Item, path: Path, kids: seq<Item>, stack: seq<Path>, cycles: seq<Path>, p: Path)
    requires PathFrom(g, root, p) && path != [] && path <= p
    requires forall c :: (Last(path), c) in g ==> c in kids
    requires Expanded(path, kids, |kids|, stack, cycles)
    ensures Handled(g, cycles, p) || HasPrefixIn(stack, p)
  {
    if p == path {
      PathHandled(g, path, kids, stack, cycles);
    } else {
      var c := p[|path|];
      assert (Last(path), c) in g by {
        assert (p[|path| - 1], p[|path|]) in g;
      }
      assert c in kids && c !in path;
      var j :| 0 <= j < |kids| && kids[j] == c;
      var m :| 0 <= m < |stack| && stack[m] == path + [c];
      assert stack[m] <= p;
    }
  }

  lemma PrefixStaysStacked(base: seq<Path>, path: Path, stack: seq<Path>, p: Path)
    requires base <= stack && HasPrefixIn(base + [path], p)
    ensures HasPrefixIn(stack, p) || path <= p
  {
    var k :| 0 <= k < |base| + 1 && (base + [path])[k] <= p;
    if k < |base| {
      assert stack[k] <= p;
    }
  }

  /** Popping a path and stacking its extensions loses no path. */
  lemma PopKeepsSearching(g: Graph, root: Item, base: seq<Path>, path: Path, kids: seq<Item>,
                          before: seq<Path>, stack: seq<Path>, cycles: seq<Path>)
    requires Searching(g, root, base + [path], before) && PathFrom(g, root, path)
    requires forall c :: (Last(path), c) in g ==> c in kids
    requires before <= cycles && base <= stack && StackOf(g, root, stack)
    requires Expanded(path, kids, |kids|, stack, cycles)
    ensures Searching(g, root, stack, cycles)
  {
    forall p | PathFrom(g, root, p)
      ensures Handled(g, cycles, p) || HasPrefixIn(stack, p)
    {
      if Handled(g, before, p) {
        MoreFound(g, before, cycles);
      } else {
        PrefixStaysStacked(base, path, stack, p);
        if path <= p {
          ExtensionStacked(g, root, path, kids, stack, cycles, p);
        }
      }
    }
  }

  lemma PathHandled(g: Graph, path: Path, kids: seq<Item>, stack: seq<Path>, cycles: seq<Path>)
    requires path != [] && forall c :: (Last(path), c) in g ==> c in kids
    requires Expanded(path, kids, |kids|, stack, cycles)
    ensures Handled(g, cycles, path)
  {
    forall i | 0 <= i < |path| && (Last(path), path[i]) in g
      ensures Found(cycles, path[i..])
    {
      var m :| 0 <= m < |kids| && kids[m] == path[i];
    }
  }

  // ----- The algorithm -----------------------------------------------------------------------

  method IndexOf(path: Path, x: Item) returns (i: nat)
    requires x in path
    ensures i < |path| && path[i] == x
  {
    i := 0;
    while path[i] != x
      invariant i < |path| && x !in path[..i]
      decreases |path| - i
    {
      i := i + 1;
      assert path == path[..i] + path[i..];
    }
  }

  method IsDuplicate(cycles: seq<Path>, cycle: Path) returns (isDup: bool)
    requires cycle != []
    ensures isDup <==> Found(cycles, cycle)
  {
    for k := 0 to |cycles|
      invariant forall m :: 0 <= m < k ==> !IsRotation(cycles[m], cycle)
    {
      var same := IsRotated(cycles[k], cycle);
      if same {
        return true;
      }
    }
    return false;
  }

  /** One child of the popped path. */
  method TryChild(ghost g: Graph, ghost root: Item, path: Path, child: Item,
                  paths: seq<Path>, cycles: seq<Path>, visited: set<Item>)
    returns (paths': seq<Path>, cycles': seq<Path>, visited': set<Item>)
    requires PathFrom(g, root, path) && (Last(path), child) in g
    requires GoodYields(g, cycles)
    ensures GoodYields(g, cycles') && cycles <= cycles'
    ensures paths' == if child in path then paths else paths + [path + [child]]
    ensures visited' == if child in path then visited else visited + {child}
    ensures forall i :: 0 <= i < |path| && path[i] == child ==> Found(cycles', path[i..])
  {
    paths', cycles', visited' := paths, cycles, visited;
    if child in path {
      var i := IndexOf(path, child);
      var cycle := path[i..];
      TailIsCycle(g, root, path, i);
      var isDup := IsDuplicate(cycles, cycle);
      if !isDup {
        cycles' := cycles + [cycle];
        RotationReflexive(cycle);
        assert IsRotation(cycles'[|cycles|], cycle);
      }
    } else {
      paths' := paths + [path + [child]];
      visited' := visited + {child};
    }
  }

  /** What holds of the visited nodes: some searched root leads to each of them. */
  ghost predicate VisitedReached(g: Graph, roots: set<Item>, visited: set<Item>) {
    forall v :: v in visited ==> ReachedFrom(g, roots, v)
  }

  /** After the first j children of the popped path. */
  ghost predicate Expanding(g: Graph, root: Item, path: Path, kids: seq<Item>, j: nat,
                            base: seq<Path>, paths: seq<Path>, cycles: seq<Path>, n: nat, d: nat) {
    && base <= paths && StackOf(g, root, paths)
    && Expanded(path, kids, j, paths, cycles)
    && StackWeight(n, d, paths) <= StackWeight(n, d, base) + j * PathWeight(n, d, |path| + 1)
  }

  lemma ExpandedByOne(path: Path, kids: seq<Item>, j: nat, paths: seq<Path>, cycles: seq<Path>,
                      paths': seq<Path>, cycles': seq<Path>)
    requires j < |kids| && Expanded(path, kids, j, paths, cycles)
    requires forall c :: Found(cycles, c) ==> Found(cycles', c)
    requires paths' == if kids[j] in path then paths else paths + [path + [kids[j]]]
    requires forall i :: 0 <= i < |path| && path[i] == kids[j] ==> Found(cycles', path[i..])
    ensures Expanded(path, kids, j + 1, paths', cycles')
  {
    assert forall p :: p in paths ==> p in paths';
    if kids[j] !in path {
      assert paths'[|paths|] == path + [kids[j]];
    }
  }

  lemma Distribute(j: nat, w: nat)
    ensures (j + 1) * w == j * w + w
  {
  }

  lemma PushPath(g: Graph, root: Item, path: Path, child: Item, base: seq<Path>, paths: seq<Path>)
    requires PathFrom(g, root, path) && (Last(path), child) in g && child !in path
    requires base <= paths && StackOf(g, root, paths)
    ensures base <= paths + [path + [child]] && StackOf(g, root, paths + [path + [child]])
  {
    LongerPath(g, root, path, child);
  }

  lemma ChildTried(g: Graph, root: Item, path: Path, kids: seq<Item>, j: nat, base: seq<Path>,
                   paths: seq<Path>, cycles: seq<Path>, paths': seq<Path>, cycles': seq<Path>, n: nat, d: nat)
    requires j < |kids| && PathFrom(g, root, path) && (Last(path), kids[j]) in g
    requires Expanding(g, root, path, kids, j, base, paths, cycles, n, d)
    requires cycles <= cycles'
    requires paths' == if kids[j] in path then paths else paths + [path + [kids[j]]]
    requires forall i :: 0 <= i < |path| && path[i] == kids[j] ==> Found(cycles', path[i..])
    ensures Expanding(g, root, path, kids, j + 1, base, paths', cycles', n, d)
  {
    MoreFound(g, cycles, cycles');
    ExpandedByOne(path, kids, j, paths, cycles, paths', cycles');
    Distribute(j, PathWeight(n, d, |path| + 1));
    if kids[j] !in path {
      PushPath(g, root, path, kids[j], base, paths);
      PushWeight(n, d, paths, path + [kids[j]]);
    }
  }

  lemma ChildReached(g: Graph, root: Item, roots: set<Item>, path: Path, child: Item, visited: set<Item>)
    requires PathFrom(g, root, path) && root in roots && (Last(path), child) in g && child !in path
    requires VisitedReached(g, roots, visited)
    ensures VisitedReached(g, roots, visited + {child})
  {
    LongerPath(g, root, path, child);
    assert Last(path + [child]) == child;
  }

  /** All children of the popped path. */
  method Expand(ghost g: Graph, ghost root: Item, ghost roots: set<Item>, path: Path, kids: seq<Item>,
                base: seq<Path>, before: seq<Path>, visited0: set<Item>, ghost n: nat, ghost d: nat)
    returns (paths: seq<Path>, cycles: seq<Path>, visited: set<Item>)
    requires PathFrom(g, root, path) && forall c :: (Last(path), c) in g <==> c in kids
    requires Searching(g, root, base + [path], before)
    requires GoodYields(g, before) && root in roots && VisitedReached(g, roots, visited0)
    requires |path| <= n && |kids| <= d
    ensures Searching(g, root, paths, cycles)
    ensures GoodYields(g, cycles) && before <= cycles
    ensures visited0 <= visited && VisitedReached(g, roots, visited)
    ensures StackWeight(n, d, paths) < StackWeight(n, d, base + [path])
  {
    paths, cycles, visited := base, before, visited0;
    assert Expanding(g, root, path, kids, 0, base, paths, cycles, n, d) by {
      assert forall k :: 0 <= k < |base| ==> (base + [path])[k] == base[k];
    }
    for j := 0 to |kids|
      invariant Expanding(g, root, path, kids, j, base, paths, cycles, n, d)
      invariant GoodYields(g, cycles) && before <= cycles
      invariant visited0 <= visited && VisitedReached(g, roots, visited)
    {
      ghost var paths0, cycles0 := paths, cycles;
      assert (Last(path), kids[j]) in g;
      if kids[j] !in path {
        ChildReached(g, root, roots, path, kids[j], visited);
      }
      paths, cycles, visited := TryChild(g, root, path, kids[j], paths, cycles, visited);
      ChildTried(g, root, path, kids, j, base, paths0, cycles0, paths, cycles, n, d);
    }
    PushWeight(n, d, base, path);
    ChildrenWeighLess(n, d, |path|, |kids|);
    PopKeepsSearching(g, root, base, path, kids, before, paths, cycles);
  }

  /** The while loop over the stack, for one root. */
  method SearchFrom(parentChildren: Children, root: Item, ghost roots: set<Item>, before: seq<Path>, visited0: set<Item>)
    returns (cycles: seq<Path>, visited: set<Item>)
    requires root in parentChildren && root in roots
    requires GoodYields(MapEdges(parentChildren), before)
    requires VisitedReached(MapEdges(parentChildren), roots, visited0)
    ensures GoodYields(MapEdges(parentChildren), cycles) && before <= cycles
    ensures Searched(MapEdges(parentChildren), root, cycles)
    ensures visited0 <= visited && VisitedReached(MapEdges(parentChildren), roots, visited)
  {
    ghost var g := MapEdges(parentChildren);
    ghost var d := ChildListsBounded(parentChildren);
    ghost var n := |Nodes(g)| + 1;
    cycles, visited := before, visited0;
    var paths := [[root]];
    StartSearching(g, root, cycles);
    while paths != []
      invariant Searching(g, root, paths, cycles)
      invariant GoodYields(g, cycles) && before <= cycles
      invariant visited0 <= visited && VisitedReached(g, roots, visited)
      decreases StackWeight(n, d, paths)
    {
      var path := paths[|paths| - 1];
      var base := paths[..|paths| - 1];
      assert paths == base + [path];
      PathBound(g, root, path);
      var parent := Last(path);
      if parent in parentChildren {
        paths, cycles, visited := Expand(g, root, roots, path, parentChildren[parent], base, cycles, visited, n, d);
      } else {
        DeadEnd(g, root, base, path, cycles, n, d);
        paths := base;
      }
    }
  }

  lemma PathBound(g: Graph, root: Item, p: Path)
    requires PathFrom(g, root, p)
    ensures |p| <= |Nodes(g)| + 1
  {
    if |p| > 1 {
      WalkInNodes(g, p);
      DistinctBound(p, Nodes(g));
    }
  }

  lemma StartSearching(g: Graph, root: Item, cycles: seq<Path>)
    ensures Searching(g, root, [[root]], cycles)
  {
    forall p | PathFrom(g, root, p)
      ensures HasPrefixIn([[root]], p)
    {
      assert [[root]][0] <= p;
    }
  }

  lemma DeadEnd(g: Graph, root: Item, base: seq<Path>, path: Path, cycles: seq<Path>, n: nat, d: nat)
    requires Searching(g, root, base + [path], cycles) && PathFrom(g, root, path) && |path| <= n
    requires forall c :: (Last(path), c) !in g
    ensures Searching(g, root, base, cycles)
    ensures StackWeight(n, d, base) < StackWeight(n, d, base + [path])
  {
    assert forall k :: 0 <= k < |base| ==> (base + [path])[k] == base[k];
    PopKeepsSearching(g, root, base, path, [], cycles, base, cycles);
    PushWeight(n, d, base, path);
  }

  // ----- Nothing is missed ---------------------------------------------------------------

  /** Walking from a searched root into a cycle and around it is a path that finds the cycle. */
  lemma {:induction false} ReachedCycleFound(g: Graph, root: Item, p: Path, cycles: seq<Path>, c: Path)
    requires PathFrom(g, root, p) && Searched(g, root, cycles)
    requires SimpleCycle(g, c) && Last(p) in c
    ensures Found(cycles, c)
  {
    var init := p[..|p| - 1];
    if i :| 0 <= i < |init| && init[i] in c {
      ReachedCycleFound(g, root, p[..i + 1], cycles, c);
    } else {
      var k :| 0 <= k < |c| && c[k] == Last(p);
      assert p == init + [c[k]];
      AroundFound(g, root, init, cycles, c, k);
    }
  }

  lemma AroundFound(g: Graph, root: Item, init: Path, cycles: seq<Path>, c: Path, k: nat)
    requires SimpleCycle(g, c) && k < |c| && Searched(g, root, cycles)
    requires PathFrom(g, root, init + [c[k]])
    requires forall x :: x in init ==> x !in c
    ensures Found(cycles, c)
  {
    var around := c[k..] + c[..k];
    AroundIsPath(g, root, init, c, k);
    ClosedPathFound(g, root, cycles, init, around);
    FoundAround(cycles, c, k);
  }

  lemma ClosedPathFound(g: Graph, root: Item, cycles: seq<Path>, init: Path, around: Path)
    requires Searched(g, root, cycles) && around != [] && PathFrom(g, root, init + around)
    requires (Last(init + around), (init + around)[|init|]) in g
    ensures Found(cycles, around)
  {
    var q := init + around;
    assert Handled(g, cycles, q);
    assert q[|init|..] == around;
  }

  lemma FoundAround(cycles: seq<Path>, c: Path, k: nat)
    requires k < |c| && Found(cycles, c[k..] + c[..k])
    ensures Found(cycles, c)
  {
    var around := c[k..] + c[..k];
    var m :| 0 <= m < |cycles| && IsRotation(cycles[m], around);
    assert RotatedBy(c, around, k);
    RotationSymmetric(c, around);
    RotationTransitive(cycles[m], around, c);
  }

  lemma AroundIsPath(g: Graph, root: Item, init: Path, c: Path, k: nat)
    requires SimpleCycle(g, c) && k < |c|
    requires PathFrom(g, root, init + [c[k]])
    requires forall x :: x in init ==> x !in c
    ensures var q := init + (c[k..] + c[..k]);
            PathFrom(g, root, q) && (Last(q), q[|init|]) in g
  {
    var p, q := init + [c[k]], init + (c[k..] + c[..k]);
    forall i | 0 < i < |q|
      ensures (q[i - 1], q[i]) in g
    {
      if i <= |init| {
        assert (p[i - 1], p[i]) in g;
      } else {
        var a := i - 1 - |init| + k;
        assert q[i - 1] == if a < |c| then c[a] else c[a - |c|];
      }
    }
    forall i, j | 0 <= i < j < |q|
      ensures q[i] != q[j]
    {
      if j < |init| {
        assert p[i] != p[j];
      } else if i < |init| {
        assert q[i] in init && q[j] in c;
      } else {
        var a, b := i - |init| + k, j - |init| + k;
        assert q[i] == if a < |c| then c[a] else c[a - |c|];
        assert q[j] == if b < |c| then c[b] else c[b - |c|];
      }
    }
  }

  /** Exactly one representative of each rotation class of simple cycles. */
  ghost predicate ListsCycles(g: Graph, cycles: seq<Path>) {
    && GoodYields(g, cycles)
    && forall c :: SimpleCycle(g, c) ==> Found(cycles, c)
  }

  lemma AllCyclesFound(parentChildren: Children, roots: set<Item>, visited: set<Item>, cycles: seq<Path>)
    requires VisitedReached(MapEdges(parentChildren), roots, visited)
    requires forall r :: r in roots ==> Searched(MapEdges(parentChildren), r, cycles)
    requires forall x :: x in parentChildren ==> x in roots || x in visited
    ensures forall c :: SimpleCycle(MapEdges(parentChildren), c) ==> Found(cycles, c)
  {
    var g := MapEdges(parentChildren);
    forall c | SimpleCycle(g, c)
      ensures Found(cycles, c)
    {
      var x := c[|c| - 1];
      assert (x, c[0]) in g;
      if x in roots {
        assert PathFrom(g, x, [x]);
        ReachedCycleFound(g, x, [x], cycles, c);
      } else {
        var r, p :| r in roots && PathFrom(g, r, p) && Last(p) == x;
        ReachedCycleFound(g, r, p, cycles, c);
      }
    }
  }

  /** Each item of the cycle lists the next one as a child, and the last one the first. */
  predicate GoesAround(children: Children, c: Path) {
    c != [] && forall i :: 0 <= i < |c| ==> c[i] in children && c[if i + 1 < |c| then i + 1 else 0] in children[c[i]]
  }

  lemma CyclesGoAround(children: Children, c: Path)
    ensures SimpleCycle(MapEdges(children), c) <==> GoesAround(children, c) && Distinct(c)
  {
    var g := MapEdges(children);
    if SimpleCycle(g, c) {
      forall i | 0 <= i < |c|
        ensures c[i] in children && c[if i + 1 < |c| then i + 1 else 0] in children[c[i]]
      {
        assert i + 1 < |c| ==> (c[i], c[i + 1]) in g;
        assert i + 1 == |c| ==> (c[i], c[0]) in g;
      }
    }
    if GoesAround(children, c) && Distinct(c) {
      forall i | 0 < i < |c|
        ensures (c[i - 1], c[i]) in g
      {
        assert c[i - 1] in children;
      }
      assert c[|c| - 1] in children;
    }
  }

  method FindCycles(parentChildren: Children) returns (cycles: seq<Path>)
    ensures ListsCycles(MapEdges(parentChildren), cycles)
    ensures forall k :: 0 <= k < |cycles| ==> GoesAround(parentChildren, cycles[k]) && Distinct(cycles[k])
  {
    ghost var g := MapEdges(parentChildren);
    cycles := [];
    var visitedNodes: set<Item> := {};
    ghost var roots: set<Item> := {};
    var parents := Enumerate(parentChildren.Keys);
    for n := 0 to |parents|
      invariant GoodYields(g, cycles)
      invariant VisitedReached(g, roots, visitedNodes)
      invariant forall r :: r in roots ==> Searched(g, r, cycles)
      invariant forall m :: 0 <= m < n ==> parents[m] in roots || parents[m] in visitedNodes
    {
      if parents[n] in visitedNodes {
        continue;
      }
      ghost var before, roots0 := cycles, roots;
      roots := roots + {parents[n]};
      MoreRoots(g, roots0, roots, visitedNodes);
      cycles, visitedNodes := SearchFrom(parentChildren, parents[n], roots, cycles, visitedNodes);
      MoreFound(g, before, cycles);
    }
    AllCyclesFound(parentChildren, roots, visitedNodes, cycles);
    forall k | 0 <= k < |cycles|
      ensures GoesAround(parentChildren, cycles[k]) && Distinct(cycles[k])
    {
      CyclesGoAround(parentChildren, cycles[k]);
    }
  }

  lemma MoreRoots(g: Graph, roots: set<Item>, more: set<Item>, visited: set<Item>)
    requires roots <= more && VisitedReached(g, roots, visited)
    ensures VisitedReached(g, more, visited)
  {
  }
}
