/** The StaticInformation object: a recursive walk over the type graph with two
    member stacks, recording one entry per path. */
module StaticInformation {
  import opened Sequences
  import opened TypeGraph
  import opened Routes

  // ----- The entries of one call ---------------------------------------------------------------

  /** The entries for tid: its own, and those below its edges. A type to avoid has none. */
  function Gathered(adj: Adjacency, tid: TypeId, avoid: set<TypeId>, path: seq<string>): seq<Entry>
    decreases adj.Keys - avoid, 0
  {
    if tid in avoid || tid !in adj then []
    else
      assert adj.Keys - (avoid + {tid}) < adj.Keys - avoid;
      [(tid, Render(path))] + GatheredVia(adj, adj[tid], avoid + {tid}, path)
  }

  function GatheredVia(adj: Adjacency, es: seq<Edge>, avoid: set<TypeId>, path: seq<string>): seq<Entry>
    decreases adj.Keys - avoid, |es| + 1
  {
    if es == [] then []
    else
      var e := es[|es| - 1];
      GatheredVia(adj, es[..|es| - 1], avoid, path) + Gathered(adj, e.target, avoid, path + [e.step])
  }

  lemma ViaMore(adj: Adjacency, es: seq<Edge>, e: Edge, avoid: set<TypeId>, path: seq<string>)
    ensures GatheredVia(adj, es + [e], avoid, path)
         == GatheredVia(adj, es, avoid, path) + Gathered(adj, e.target, avoid, path + [e.step])
  {
    assert (es + [e])[..|es|] == es;
  }

  lemma ViaPrefix(adj: Adjacency, es: seq<Edge>, n: nat, avoid: set<TypeId>, path: seq<string>)
    requires n < |es|
    ensures GatheredVia(adj, es[..n + 1], avoid, path)
         == GatheredVia(adj, es[..n], avoid, path) + Gathered(adj, es[n].target, avoid, path + [es[n].step])
  {
    assert es[..n + 1][..n] == es[..n];
  }

  lemma {:induction false} GatheredConcat(adj: Adjacency, a: seq<Edge>, b: seq<Edge>, avoid: set<TypeId>, path: seq<string>)
    ensures GatheredVia(adj, a + b, avoid, path) == GatheredVia(adj, a, avoid, path) + GatheredVia(adj, b, avoid, path)
    decreases |b|
  {
    if b == [] {
      assert a + b == a;
    } else {
      var init, e := b[..|b| - 1], b[|b| - 1];
      assert b == init + [e] && a + b == (a + init) + [e];
      GatheredConcat(adj, a, init, avoid, path);
      ViaMore(adj, a + init, e, avoid, path);
      ViaMore(adj, init, e, avoid, path);
      Regroup(GatheredVia(adj, a, avoid, path), GatheredVia(adj, init, avoid, path),
              Gathered(adj, e.target, avoid, path + [e.step]));
    }
  }

  lemma GatheredOne(adj: Adjacency, e: Edge, avoid: set<TypeId>, path: seq<string>)
    ensures GatheredVia(adj, [e], avoid, path) == Gathered(adj, e.target, avoid, path + [e.step])
  {
    assert [e][..0] == [];
  }

  /** The entries gathered are those of the simple routes: one for each, in depth-first order. */
  lemma {:induction false} GatheredIsRoutes(adj: Adjacency, tid: TypeId, avoid: set<TypeId>, path: seq<string>)
    requires ClosedUnder(adj) && tid in adj
    ensures AllFollow(adj, tid, AllRoutes(adj, tid, avoid))
    ensures Gathered(adj, tid, avoid, path) == Entries(adj, tid, path, AllRoutes(adj, tid, avoid))
    decreases adj.Keys - avoid, 0
  {
    AllRoutesFollow(adj, tid, avoid);
    if tid !in avoid {
      var n := |adj[tid]|;
      assert adj.Keys - (avoid + {tid}) < adj.Keys - avoid;
      GatheredIsRoutesVia(adj, tid, avoid + {tid}, path, n);
      OwnEntryFirst(adj, tid, path, RoutesVia(adj, tid, avoid + {tid}, n));
      assert adj[tid][..n] == adj[tid];
    }
  }

  lemma {:induction false} GatheredIsRoutesVia(adj: Adjacency, tid: TypeId, avoid: set<TypeId>, path: seq<string>, n: nat)
    requires ClosedUnder(adj) && tid in adj && n <= |adj[tid]|
    ensures AllFollow(adj, tid, RoutesVia(adj, tid, avoid, n))
    ensures GatheredVia(adj, adj[tid][..n], avoid, path) == Entries(adj, tid, path, RoutesVia(adj, tid, avoid, n))
    decreases adj.Keys - avoid, n + 1
  {
    if n > 0 {
      var e := EdgeAt(adj, tid, n - 1);
      GatheredIsRoutesVia(adj, tid, avoid, path, n - 1);
      GatheredIsRoutes(adj, e.target, avoid, path + [e.step]);
      OneMoreEdge(adj, tid, avoid, path, n - 1);
    }
  }

  lemma OneMoreEdge(adj: Adjacency, tid: TypeId, avoid: set<TypeId>, path: seq<string>, n: nat)
    requires ClosedUnder(adj) && tid in adj && n < |adj[tid]|
    requires AllFollow(adj, tid, RoutesVia(adj, tid, avoid, n))
    requires GatheredVia(adj, adj[tid][..n], avoid, path) == Entries(adj, tid, path, RoutesVia(adj, tid, avoid, n))
    requires AllFollow(adj, EdgeAt(adj, tid, n).target, AllRoutes(adj, EdgeAt(adj, tid, n).target, avoid))
    requires var e := EdgeAt(adj, tid, n);
             Gathered(adj, e.target, avoid, path + [e.step])
             == Entries(adj, e.target, path + [e.step], AllRoutes(adj, e.target, avoid))
    ensures AllFollow(adj, tid, RoutesVia(adj, tid, avoid, n + 1))
    ensures GatheredVia(adj, adj[tid][..n + 1], avoid, path)
         == Entries(adj, tid, path, RoutesVia(adj, tid, avoid, n + 1))
  {
    ViaPrefix(adj, adj[tid], n, avoid, path);
    EntriesVia(adj, tid, avoid, path, n);
  }

  lemma OwnEntryFirst(adj: Adjacency, tid: TypeId, path: seq<string>, rs: seq<Route>)
    requires ClosedUnder(adj) && tid in adj && AllFollow(adj, tid, rs)
    ensures AllFollow(adj, tid, [[]] + rs)
    ensures Entries(adj, tid, path, [[]] + rs) == [(tid, Render(path))] + Entries(adj, tid, path, rs)
  {
    var all := [[]] + rs;
    assert all[0] == [] && all[1..] == rs;
    AllFollowMore(adj, tid, all);
    assert path + [] == path;
  }

  // ----- What Get finds -----------------------------------------------------------------------

  function PathsOf(output: seq<Entry>, tid: TypeId): seq<string> {
    if output == [] then []
    else PathsOf(output[..|output| - 1], tid)
         + if output[|output| - 1].0 == tid then [output[|output| - 1].1] else []
  }

  lemma {:induction false} PathsOfMembers(output: seq<Entry>, tid: TypeId, p: string)
    ensures p in PathsOf(output, tid) <==> (tid, p) in output
  {
    if output != [] {
      var init, last := output[..|output| - 1], output[|output| - 1];
      PathsOfMembers(init, tid, p);
      assert output == init + [last];
      assert last == (tid, p) <==> last.0 == tid && last.1 == p;
    }
  }

  /** The paths are those of the entries at ks, which are all the entries for tid, in their order. */
  ghost predicate PicksPaths(output: seq<Entry>, tid: TypeId, paths: seq<string>, ks: seq<nat>) {
    && |ks| == |paths| && (forall i, j :: 0 <= i < j < |ks| ==> ks[i] < ks[j])
    && (forall i :: 0 <= i < |ks| ==> ks[i] < |output| && output[ks[i]] == (tid, paths[i]))
    && forall k: nat :: k < |output| && output[k].0 == tid ==> k in ks
  }

  lemma OneMorePath(output: seq<Entry>, tid: TypeId, paths: seq<string>, ks: seq<nat>)
    requires output != [] && PicksPaths(output[..|output| - 1], tid, paths, ks)
    ensures var n := |output| - 1;
            if output[n].0 == tid then PicksPaths(output, tid, paths + [output[n].1], ks + [n])
            else PicksPaths(output, tid, paths, ks)
  {
    var n := |output| - 1;
    forall k: nat | k < n && output[k].0 == tid
      ensures k in ks
    {
      assert output[..n][k] == output[k];
    }
  }

  /** What is found for a type: every path recorded for it, in the order in which they were recorded. */
  lemma {:induction false} PathsInOrder(output: seq<Entry>, tid: TypeId) returns (ks: seq<nat>)
    ensures PicksPaths(output, tid, PathsOf(output, tid), ks)
  {
    ks := [];
    if output != [] {
      var n := |output| - 1;
      ks := PathsInOrder(output[..n], tid);
      OneMorePath(output, tid, PathsOf(output[..n], tid), ks);
      if output[n].0 == tid {
        ks := ks + [n];
      }
    }
  }

  /** The route reaches tid under the name p. */
  ghost predicate Names(adj: Adjacency, root: TypeId, r: Route, tid: TypeId, p: string)
    requires ClosedUnder(adj) && root in adj
  {
    Simple(adj, root, {}, r) && EntryOf(adj, root, [], r) == (tid, p)
  }

  /** After gathering from root into an empty output, the paths found for tid are the names
      of the simple routes from root to tid. */
  lemma FoundIffNamed(adj: Adjacency, root: TypeId, tid: TypeId, p: string)
    requires ClosedUnder(adj) && root in adj
    ensures p in PathsOf(Gathered(adj, root, {}, []), tid) <==>
            exists r :: Names(adj, root, r, tid, p)
  {
    var rs := AllRoutes(adj, root, {});
    GatheredIsRoutes(adj, root, {}, []);
    var output := Gathered(adj, root, {}, []);
    PathsOfMembers(output, tid, p);
    if (tid, p) in output {
      var i :| 0 <= i < |output| && output[i] == (tid, p);
      EntriesAt(adj, root, [], rs, i);
      assert rs[i] in rs;
      ListedIffSimple(adj, root, {}, rs[i]);
      assert Names(adj, root, rs[i], tid, p);
    }
    if r :| Names(adj, root, r, tid, p) {
      ListedIffSimple(adj, root, {}, r);
      var i :| 0 <= i < |rs| && rs[i] == r;
      EntriesAt(adj, root, [], rs, i);
      assert output[i] == (tid, p);
    }
  }

  // ----- The type graph as an adjacency ------------------------------------------------------

  ghost function AdjacencyOf(g: Types, ag: Aggregates): Adjacency
    requires Closed(g, ag)
  {
    map t | t in g.attributes :: OutEdges(g, ag, t)
  }

  lemma AdjacencyClosed(g: Types, ag: Aggregates)
    requires Closed(g, ag)
    ensures ClosedUnder(AdjacencyOf(g, ag)) && AdjacencyOf(g, ag).Keys == g.attributes.Keys
  {
    forall t, k | t in g.attributes && 0 <= k < |AdjacencyOf(g, ag)[t]|
      ensures AdjacencyOf(g, ag)[t][k].target in g.attributes
    {
      EdgesStayInside(g, ag, t);
    }
  }

  // ----- The object ------------------------------------------------------------------------------

  class StaticInformation {
    const types: Types
    const lookup: map<string, TypeId>
    var output: seq<Entry>
    var currentPath: seq<string>
    var alreadyProcessed: seq<TypeId>
    var aggregates: Aggregates
    var noTids: seq<string>

    ghost predicate Valid()
      reads this
    {
      Closed(types, aggregates) && forall name :: name in lookup ==> lookup[name] in types.attributes
    }

    ghost function Avoid(): set<TypeId>
      reads this`alreadyProcessed
    {
      set t | t in alreadyProcessed
    }

    constructor (types: Types, lookup: map<string, TypeId>)
      requires Closed(types, [])
      requires forall name :: name in lookup ==> lookup[name] in types.attributes
      ensures Valid() && this.types == types && this.lookup == lookup
      ensures output == [] && currentPath == [] && alreadyProcessed == [] && aggregates == [] && noTids == []
    {
      this.types, this.lookup := types, lookup;
      output, currentPath, alreadyProcessed, aggregates, noTids := [], [], [], [], [];
    }

    method RecordAggregationInfo(a: string, b: string)
      requires Valid()
      modifies this`aggregates, this`noTids
      ensures Valid()
      ensures a in lookup && b in lookup ==>
        aggregates == old(aggregates) + [(lookup[a], lookup[b])] && noTids == old(noTids)
      ensures !(a in lookup && b in lookup) ==>
        aggregates == old(aggregates) && noTids == old(noTids) + [if a in lookup then b else a]
    {
      if a !in lookup {
        noTids := noTids + [a];
        return;
      }
      if b !in lookup {
        noTids := noTids + [b];
        return;
      }
      aggregates := aggregates + [(lookup[a], lookup[b])];
    }

    method GetCurrentPath() returns (path: string)
      ensures path == Render(currentPath)
    {
      path := "";
      for i := 0 to |currentPath|
        invariant path == Render(currentPath[..i])
      {
        assert currentPath[..i + 1][..i] == currentPath[..i];
        path := path + "/" + currentPath[i];
      }
      assert currentPath[..|currentPath|] == currentPath;
    }

    method RecordOutput(tid: TypeId)
      modifies this`output
      ensures output == old(output) + [(tid, Render(currentPath))]
    {
      var path := GetCurrentPath();
      output := output + [(tid, path)];
    }

    method HasAlreadyBeenProcessed(tid: TypeId) returns (found: bool)
      ensures found <==> tid in alreadyProcessed
    {
      for i := 0 to |alreadyProcessed|
        invariant tid !in alreadyProcessed[..i]
      {
        if alreadyProcessed[i] == tid {
          return true;
        }
      }
      return false;
    }

    method Get(tid: TypeId) returns (paths: seq<string>)
      ensures paths == PathsOf(output, tid)
    {
      paths := [];
      for i := 0 to |output|
        invariant paths == PathsOf(output[..i], tid)
      {
        assert output[..i + 1][..i] == output[..i];
        if output[i].0 == tid {
          paths := paths + [output[i].1];
        }
      }
      assert output[..|output|] == output;
    }

    ghost function Adj(): Adjacency
      requires Valid()
      reads this
    {
      AdjacencyOf(types, aggregates)
    }

    /** A call for tid may go on to tid's edges. */
    ghost predicate Ready(tid: TypeId)
      reads this
    {
      Valid() && tid in types.attributes && tid !in Avoid()
    }

    /** The entries below some edges of tid. */
    ghost function Via(tid: TypeId, es: seq<Edge>): seq<Entry>
      requires Valid()
      reads this
    {
      GatheredVia(Adj(), es, Avoid() + {tid}, currentPath)
    }

    /** Push the step and the type, gather below, and pop both again. */
    method Descend(tid: TypeId, e: Edge)
      requires Ready(tid) && e.target in types.attributes
      modifies this`output, this`currentPath, this`alreadyProcessed
      ensures currentPath == old(currentPath) && alreadyProcessed == old(alreadyProcessed)
      ensures output == old(output) + Via(tid, [e])
      decreases types.attributes.Keys - Avoid(), 0
    {
      ghost var avoid, path := Avoid(), currentPath;
      GatheredOne(Adj(), e, avoid + {tid}, path);
      currentPath := currentPath + [e.step];
      alreadyProcessed := alreadyProcessed + [tid];
      assert Avoid() == avoid + {tid};
      DoGather(e.target);
      alreadyProcessed := alreadyProcessed[..|alreadyProcessed| - 1];
      currentPath := currentPath[..|currentPath| - 1];
      assert currentPath == path && alreadyProcessed == old(alreadyProcessed);
    }

    method GatherAttribute(tid: TypeId, info: Attribute)
      requires Ready(tid) && Known(types, info)
      modifies this`output, this`currentPath, this`alreadyProcessed
      ensures currentPath == old(currentPath) && alreadyProcessed == old(alreadyProcessed)
      ensures output == old(output) + Via(tid, AttributeEdge(types, info))
      decreases types.attributes.Keys - Avoid(), 1
    {
      match info {
        case Pointer(name, pointee) =>
          if types.objectType == pointee {
            return;
          }
          Descend(tid, Edge(name, pointee));
        case Container(name, item) =>
          Descend(tid, Edge(name + "/[i]", item));
        case Scalar(_) =>
      }
    }

    /** The loop over the attributes. */
    method GatherAttributes(tid: TypeId)
      requires Ready(tid)
      modifies this`output, this`currentPath, this`alreadyProcessed
      ensures currentPath == old(currentPath) && alreadyProcessed == old(alreadyProcessed)
      ensures output == old(output) + Via(tid, AttributeEdges(types, types.attributes[tid]))
      decreases types.attributes.Keys - Avoid(), 2
    {
      var attributes := types.attributes[tid];
      for i := 0 to |attributes|
        invariant currentPath == old(currentPath) && alreadyProcessed == old(alreadyProcessed)
        invariant output == old(output) + Via(tid, AttributeEdges(types, attributes[..i]))
      {
        ghost var done, next := AttributeEdges(types, attributes[..i]), AttributeEdge(types, attributes[i]);
        assert attributes[..i + 1][..i] == attributes[..i];
        MoreVia(tid, old(output), done, next);
        GatherAttribute(tid, attributes[i]);
      }
      assert attributes[..|attributes|] == attributes;
    }

    lemma MoreVia(tid: TypeId, before: seq<Entry>, done: seq<Edge>, next: seq<Edge>)
      requires Valid()
      ensures before + Via(tid, done) + Via(tid, next) == before + Via(tid, done + next)
    {
      GatheredConcat(Adj(), done, next, Avoid() + {tid}, currentPath);
      Regroup(before, Via(tid, done), Via(tid, next));
    }

    /** The loop over the registered types. */
    method GatherChildren(tid: TypeId)
      requires Ready(tid)
      modifies this`output, this`currentPath, this`alreadyProcessed
      ensures currentPath == old(currentPath) && alreadyProcessed == old(alreadyProcessed)
      ensures output == old(output) + Via(tid, ChildEdges(types, tid, types.registered))
      decreases types.attributes.Keys - Avoid(), 2
    {
      for j := 0 to |types.registered|
        invariant currentPath == old(currentPath) && alreadyProcessed == old(alreadyProcessed)
        invariant output == old(output) + Via(tid, ChildEdges(types, tid, types.registered[..j]))
      {
        var child := types.registered[j];
        ghost var done := ChildEdges(types, tid, types.registered[..j]);
        assert types.registered[..j + 1][..j] == types.registered[..j] && done + [] == done;
        if (child, tid) in types.childOf {
          MoreVia(tid, old(output), done, [NamedEdge(types, child)]);
          Descend(tid, Edge("$" + types.names[child], child));
        }
      }
      assert types.registered[..|types.registered|] == types.registered;
    }

    /** The loop over the aggregations. */
    method GatherAggregates(tid: TypeId)
      requires Ready(tid)
      modifies this`output, this`currentPath, this`alreadyProcessed
      ensures currentPath == old(currentPath) && alreadyProcessed == old(alreadyProcessed)
      ensures output == old(output) + Via(tid, AggregateEdges(types, tid, aggregates))
      decreases types.attributes.Keys - Avoid(), 2
    {
      for k := 0 to |aggregates|
        invariant currentPath == old(currentPath) && alreadyProcessed == old(alreadyProcessed)
        invariant output == old(output) + Via(tid, AggregateEdges(types, tid, aggregates[..k]))
      {
        var tmp := aggregates[k];
        ghost var done := AggregateEdges(types, tid, aggregates[..k]);
        assert aggregates[..k + 1][..k] == aggregates[..k] && done + [] == done;
        if tmp.0 == tid || tmp.1 == tid {
          var other := tmp.1;
          if tmp.1 == tid {
            other := tmp.0;
          }
          MoreVia(tid, old(output), done, [NamedEdge(types, other)]);
          Descend(tid, Edge("$" + types.names[other], other));
        }
      }
      assert aggregates[..|aggregates|] == aggregates;
    }

    /** Both stacks come back as they were, and the output has grown by one entry for each
        edge path from tid that repeats no type and meets none on the stack. */
    method DoGather(tid: TypeId)
      requires Valid() && tid in types.attributes
      modifies this`output, this`currentPath, this`alreadyProcessed
      ensures Valid() && currentPath == old(currentPath) && alreadyProcessed == old(alreadyProcessed)
      ensures output == old(output) + Gathered(Adj(), tid, Avoid(), currentPath)
      decreases types.attributes.Keys - Avoid(), 3
    {
      var seen := HasAlreadyBeenProcessed(tid);
      if seen {
        return;
      }
      RecordOutput(tid);
      ghost var before := output;
      ghost var a, c := AttributeEdges(types, types.attributes[tid]), ChildEdges(types, tid, types.registered);
      GatherAttributes(tid);
      GatherChildren(tid);
      MoreVia(tid, before, a, c);
      GatherAggregates(tid);
      MoreVia(tid, before, a + c, AggregateEdges(types, tid, aggregates));
      Regroup(old(output), [(tid, Render(currentPath))], Via(tid, OutEdges(types, aggregates, tid)));
    }

    /** Gathering starts with both stacks empty, and leaves them so. The output grows by one entry
        for each edge path from tid that repeats no type. */
    method Gather(tid: TypeId)
      requires Valid() && tid in types.attributes && currentPath == [] && alreadyProcessed == []
      modifies this`output, this`currentPath, this`alreadyProcessed
      ensures Valid() && currentPath == [] && alreadyProcessed == []
      ensures ClosedUnder(Adj()) && tid in Adj() && AllFollow(Adj(), tid, AllRoutes(Adj(), tid, {}))
      ensures output == old(output) + Entries(Adj(), tid, [], AllRoutes(Adj(), tid, {}))
    {
      assert Avoid() == {};
      DoGather(tid);
      assert Avoid() == {};
      AdjacencyClosed(types, aggregates);
      GatheredIsRoutes(Adj(), tid, {}, []);
    }
  }
}
